# MineCrox core in Dafny

MineCrox hosts Minecraft resource packs and datapacks. A visitor uploads a
`.zip`; the backend (FastAPI) checks the name, the uploader's quota and the
archive's entries. It classifies the archive and stores it in S3-compatible
object storage under a random 16-character slug, and hands back a landing URL
and a delete token. Downloads go through a permanent `/download/{slug}` URL,
which counts the download, pushes the expiry back and redirects to a
short-lived presigned URL. A maintenance job removes expired files and old
download-log rows. The frontend (Next.js) renders the upload form, the file
page (metadata, `server.properties` snippet, copy buttons, tags), the report
form, the Turnstile captcha widget and an ad slot.

The model has one Dafny module per source file:

- Backend utilities: `Files` (archive name and entry checks, classification),
  `Slug`, `Ip`, `Turnstile`, `Settings` (CORS origins).
- Storage: `S3Storage`, an object store with a multipart upload loop.
- Data: `Repository` (the `files` and `downloads` tables) and `Report` (the
  report schema).
- Services: `UploadService`, `DownloadService`, `FileService`,
  `MaintenanceService`, `AnalyticsService`.
- Frontend: `Format`, `Api`, `UriComponent` (`encodeURIComponent`),
  `DownloadButton`, `MetadataDisplay`, `CopyButton`, `UploadPage`,
  `ReportForm`, `AppShell`, `AdContainer`, `TurnstileWidget`.
- `Common` holds the shared results, failures and string operations.

State the source changes in place becomes a class:

- the repository tables, the object store and the temporary files;
- each React component's state and refs, with its event handlers and effects
  as methods.

Pure helpers become functions, and loops become methods with invariants.
Anything from outside the program is a parameter:

- hashing: HMAC and SHA-1;
- the clock, uuids and `secrets.choice` draws;
- zip reading and JSON parsing;
- the S3 calls, presigning and the `fetch` outcome;
- `toFixed`, `Date` parsing and `Intl` formatting.

Six behaviours of the code that are easy to miss, each proved in the model:

- Tags are split on commas, trimmed and blank ones dropped, but they are
  **not** de-duplicated. `MetadataDisplay.RepeatedTagShownTwice` proves that a
  repeated tag is shown twice.
- The upload page accepts any name ending in `.zip`, while the backend uses
  `os.path.splitext` and rejects `.zip` alone
  (`UploadPage.HintAcceptsWhatBackendRejects`).
- The backend `server.properties` snippet ends with a newline; the one the
  file page shows does not.
- `ip.py` ignores `CF-Connecting-IP`; the Turnstile helper prefers it
  (`Turnstile.ResolversDivergeOnCf`).
- The file page's copy reset is guarded by the key that was copied, but
  `ui/CopyButton` resets unconditionally (`CopyButton.EarlyResetClearsLaterClick`).
- The upload cap is compared with the running size only after a chunk has
  been read, so an empty body is never refused as too large, whatever the
  cap (`UploadService.StreamToTemp`).

## Model

| member | source | states |
|---|---|---|
| Common.Strip | backend/app/config/settings.py:24 | the result is the input with its leading whitespace run and a trailing all-whitespace run removed: it is the slice starting at the first non-space, everything after it is whitespace, and it neither starts nor ends with whitespace |
| Common.StripIdempotent | backend/app/config/settings.py:24 | stripping twice is stripping once |
| Common.KeepNonBlank | backend/app/config/settings.py:38 | every kept piece is non-empty and already stripped, and at most as many pieces are kept as were given |
| Common.KeepNonBlankSound | backend/app/config/settings.py:38 | every kept entry is the stripped form of some input piece |
| Common.KeepNonBlankComplete | backend/app/config/settings.py:38 | every piece that is not blank after stripping is kept, stripped |
| Common.KeepNonBlankAppend | backend/app/config/settings.py:38 | filtering a concatenation is the concatenation of the filtered parts, so kept pieces keep their order |
| Common.KeepNonBlankSingle | backend/app/config/settings.py:38 | one piece gives itself stripped when not blank, nothing otherwise |
| Common.Basename | backend/app/storage/s3_storage.py:30 | `os.path.basename`: the result has no '/', is a suffix of the path and follows its last '/' |
| Common.NatToString | frontend/app/upload/page.tsx:69 | the rendering is non-empty, all digits, has no leading zero unless it is "0", and denotes the number |
| Files.Ext | backend/app/utils/files.py:24-26 | the `splitext` extension is empty or a dot-led, dot-free, slash-free suffix of the name |
| Files.AllowedExtensionIff | backend/app/utils/files.py:24-26 | a name is allowed exactly when it ends in `.zip` in any case and has a non-dot character before the suffix |
| Files.DotZipAloneRejected | backend/app/utils/files.py:24-26 | `.zip` on its own has no extension and is refused |
| Files.ZipNameAllowed | backend/app/utils/files.py:24-26 | a stem whose last character is neither `.` nor `/`, followed by `.zip` in any case, is accepted |
| Files.NonZipRejected | backend/app/utils/files.py:24-26 | a name not ending in `p`/`P` (json, toml, yml, cfg, exe, png, no extension) is refused |
| Files.NormalizeZipName | backend/app/utils/files.py:62-65 | a normalised entry name has no backslash and no leading '/' |
| Files.NormalizeZipNameIdempotent | backend/app/utils/files.py:62-65 | normalising twice is normalising once |
| Files.NormalizeZipNameKeeps | backend/app/utils/files.py:62-65 | a name without backslashes or a leading '/' is left alone |
| Files.ProblemFailure | backend/app/utils/files.py:68-82 | every refused entry is answered with status 400 |
| Files.ValidateZipSafe | backend/app/utils/files.py:68-82 | the archive is accepted iff no entry has a problem; otherwise the failure is the one for the first entry that has a problem |
| Files.AbsolutePathUnreachable | backend/app/utils/files.py:73-74 | after normalisation the absolute-path check can never fire |
| Files.NormalizedEntryRefusedIff | backend/app/utils/files.py:68-82 | a normalised entry is refused iff it is non-empty and has a ':' in its first segment, a ".." segment, or a blocked extension |
| Files.NoDotDotSegment | backend/app/utils/files.py:77-78 | a name without ".." has no ".." path segment |
| Files.PlainEntrySafe | backend/app/utils/files.py:68-82 | a relative name with no backslash, ':' or "..", and no blocked extension, passes unchanged |
| Files.NormalizeAll | backend/app/utils/files.py:44 | every entry name is normalised, in order |
| Files.DetectZip | backend/app/utils/files.py:37-59 | an unreadable archive is "Invalid zip file"; otherwise the entry checks and classification decide; every failure is a 400 |
| Files.DatapackWinsOverAssets | backend/app/utils/files.py:47-53 | a safe archive with `pack.mcmeta` and a `data/` entry is a datapack even when it also has `assets/` |
| Files.ClassificationCases | backend/app/utils/files.py:50-59 | a safe archive is a resource pack iff it has `pack.mcmeta` and `assets/` but no `data/`, and is refused with the "resource pack or datapack" 400 iff it lacks `pack.mcmeta` or both folders |
| Files.UnsafeEntryRejects | backend/app/utils/files.py:44-45 | one unsafe entry makes the whole archive a 400 |
| Slug.SubRuns | backend/app/utils/slug.py:8 | the substitution leaves only [a-z0-9] and single dashes, and is empty iff the input is |
| Slug.SubRunsKeepsSlugChars | backend/app/utils/slug.py:8 | the substitution keeps exactly the [a-z0-9] characters, in order |
| Slug.SubRunsSlugPrefix | backend/app/utils/slug.py:8 | a leading run of [a-z0-9] characters passes through the substitution unchanged |
| Slug.SubRunsOneSeparator | backend/app/utils/slug.py:8 | one character outside [a-z0-9] before a slug character becomes exactly one dash |
| Slug.DropLastExtension | backend/app/utils/slug.py:12 | the stem is the text before the last '.', or all of a dot-free name |
| Slug.DropLastExtensionOf | backend/app/utils/slug.py:12 | only the text after the last '.' is dropped |
| Slug.NoSlugCharsGiveFile | backend/app/utils/slug.py:12-14 | a stem with no letter or digit (such as "---.zip") gives "file" |
| Slug.SeparatedWordsJoinWithDash | backend/app/utils/slug.py:11-14 | two words split by one non-[a-z0-9] character, with any extension, give the lowered words joined by one dash ("My Pack.zip" gives "my-pack") |
| Slug.StripDashes | backend/app/utils/slug.py:13 | stripping leaves no dash at either end and adds no double dash |
| Slug.MakeSlugBase | backend/app/utils/slug.py:11-14 | the slug base is non-empty, made of [a-z0-9] and single inner dashes |
| Slug.MakeSlugBaseKeepsSlugChars | backend/app/utils/slug.py:11-14 | the base keeps every [a-z0-9] character of the lowered stem, in order, and is "file" when there are none |
| Slug.GenerateRandomSlug | backend/app/utils/slug.py:20-24 | a length below 8 raises; otherwise the slug has that length and only alphabet characters |
| Slug.RandomSlugCoversAll | backend/app/utils/slug.py:17-24 | every [a-z0-9] string of length at least 8 can be drawn |
| Ip.ClientIp | backend/app/utils/ip.py:11-18 | the client address is the first X-Forwarded-For entry stripped, else the socket host, else "0.0.0.0" |
| Ip.ForwardedAddressIsOneEntry | backend/app/utils/ip.py:13-15 | an address taken from X-Forwarded-For holds no comma and no surrounding whitespace |
| Ip.ClientIpHash | backend/app/utils/ip.py:21-24 | the stored hash is the keyed HMAC of the client address |
| Ip.SameAddressSameHash | backend/app/utils/ip.py:21-24 | two requests from the same address get the same hash |
| Ip.CfConnectingIpIgnored | backend/app/utils/ip.py:11-18 | adding or removing CF-Connecting-IP never changes the address |
| Settings.ProdOrigin | backend/app/config/settings.py:42-50 | no production origin for a blank domain; a stripped domain that starts with "http://" or "https://" is kept as it is, any other gets "https://" in front |
| Settings.CorsOriginsList | backend/app/config/settings.py:23-52 | the list is the parsed origins, plus the production origin when it is missing and production is on |
| Settings.BlankOriginsDefault | backend/app/config/settings.py:24-26 | a blank setting gives the localhost default |
| Settings.JsonListUsedAsIs | backend/app/config/settings.py:27-36 | a non-empty JSON list of strings is used as given |
| Settings.UnlistedJsonFallsBack | backend/app/config/settings.py:27-36 | a bracketed setting without commas that yields no JSON string list (such as "[]") becomes its own single origin |
| Settings.CommaOriginsTrimmed | backend/app/config/settings.py:38 | a comma list gives `KeepNonBlank` of its pieces: each entry non-blank and trimmed, every non-blank piece present and nothing else; with `Common.KeepNonBlankAppend` and `Common.KeepNonBlankSingle` this is the pieces in their order, repeats kept |
| Settings.CorsOriginRegexValue | backend/app/config/settings.py:54-56 | a missing or blank regex is no regex; otherwise it is the stripped text |
| Settings.CorsOriginRegexValueIdempotent | backend/app/config/settings.py:54-56 | applying the normalisation twice changes nothing |
| Turnstile.Or | backend/app/utils/turnstile.py:12-13 | Python `or` on optional strings: a truthy left side is the result, otherwise the right side is |
| Turnstile.GetRequestIp | backend/app/utils/turnstile.py:10-19 | CF-Connecting-IP wins, then the first X-Forwarded-For entry, then the socket host |
| Turnstile.ResolversAgreeWithoutCf | backend/app/utils/turnstile.py:10-19 | with no CF-Connecting-IP header, no capitalised X-Forwarded-For key and a known connecting host, the two resolvers agree; with no X-Forwarded-For header at all both give the socket host |
| Turnstile.ResolversDivergeOnCf | backend/app/utils/turnstile.py:12-14 | with CF-Connecting-IP set the two resolvers give different addresses |
| Turnstile.VerifyTurnstile | backend/app/utils/turnstile.py:22-62 | disabled passes; a missing secret or token fails before any call; the payload carries the trimmed token, the secret and, when the request address is truthy, that address as `remoteip`; it passes iff the answer confirms and the hostname rule accepts |
| Turnstile.Decide | backend/app/utils/turnstile.py:41-62 | the verdict passes exactly when the response confirms success and the hostname is accepted |
| Turnstile.DisabledAcceptsAnything | backend/app/utils/turnstile.py:25-26 | with the check disabled every request passes and nothing is sent |
| Turnstile.SoftHostnameCheckNeverRejects | backend/app/utils/turnstile.py:58-62 | the request host never changes the verdict |
| Turnstile.NonJsonResponseFails | backend/app/utils/turnstile.py:41-49 | a body that is not JSON fails verification |
| Turnstile.HostnameRule | backend/app/utils/turnstile.py:51-55 | an empty returned hostname passes; a different non-empty one fails |
| S3Storage.Pad2 | backend/app/storage/s3_storage.py:29 | the month is two decimal digits whose value is the month |
| S3Storage.BuildKey | backend/app/storage/s3_storage.py:27-31 | every object key lies under "files/" |
| S3Storage.BuildKeySegments | backend/app/storage/s3_storage.py:27-31 | the key splits into files, year, month, file id and the basename's own segments |
| S3Storage.BuildKeyEndsWithBasename | backend/app/storage/s3_storage.py:30-31 | the key's basename is the uploaded name's basename |
| S3Storage.Chunks | backend/app/storage/s3_storage.py:47-50 | every part is non-empty and at most the part size |
| S3Storage.ChunksFlatten | backend/app/storage/s3_storage.py:45-59 | the parts put together are the file |
| S3Storage.ChunksFull | backend/app/storage/s3_storage.py:48 | every part but the last is exactly 8 MiB |
| S3Storage.RejectedHere | backend/app/storage/s3_storage.py:51-59 | a refused part after accepted ones is the first refusal of the upload |
| S3Storage.PartsExtend | backend/app/storage/s3_storage.py:51-59 | appending an accepted part keeps the part list numbered from 1 and tagged in file order |
| S3Storage.SendParts | backend/app/storage/s3_storage.py:45-59 | the read loop either sends every 8 MiB chunk, with its ETag under part numbers 1, 2, ..., or reports the first refused part |
| S3Storage.ObjectStore.UploadFile | backend/app/storage/s3_storage.py:33-73 | on success the parts are numbered from 1 in file order and the object is the content; on failure nothing is stored and the upload is aborted iff it was created |
| S3Storage.ObjectStore.DeleteObject | backend/app/storage/s3_storage.py:75-81 | the key is gone and nothing else changes |
| S3Storage.PresignEndpoint | backend/app/storage/s3_storage.py:96 | the presign endpoint overrides the storage endpoint when set |
| S3Storage.CreatePresignedDownloadUrl | backend/app/storage/s3_storage.py:94-109 | the URL is signed for that bucket, key and lifetime, against the chosen endpoint |
| Report.CheckRequired | backend/app/schemas/report.py:9-10 | a field is valid iff present with a length within its bounds; at most one error, naming that field |
| Report.ValidateReport | backend/app/schemas/report.py:8-11 | a report is accepted iff slug is 1-255, reason 3-2000 and email absent or at most 320, and then as given; otherwise every error is a field's own violation, every violated field has its error, and they come once each in field order |
| Report.EmailOptional | backend/app/schemas/report.py:11 | a report without an email is accepted as given |
| Report.AllViolationsReported | backend/app/schemas/report.py:8-11 | one instance of the general contract: a missing slug, a short reason and a long e-mail give all three errors, not only the first |
| Repository.CountAfterInsert | backend/app/repositories/file_repository.py:17-26 | inserting a record raises its uploader's count by one and leaves other counts alone |
| Repository.CountAfterRemove | backend/app/repositories/file_repository.py:17-29 | removing a record lowers its uploader's count by one |
| Repository.FileRepository.constructor | backend/app/repositories/file_repository.py:9-11 | a new repository is empty |
| Repository.FileRepository.GetBySlug | backend/app/repositories/file_repository.py:13-15 | the lookup returns the record with that slug, or none when no record has it |
| Repository.FileRepository.CountByUploaderIpHash | backend/app/repositories/file_repository.py:17-21 | the count is the number of records carrying the hash (partners `Repository.CountAfterInsert` and `Repository.CountAfterRemove`), at most the number of records |
| Repository.FileRepository.Add | backend/app/repositories/file_repository.py:23-26 | a taken slug or id is an integrity error and nothing changes; otherwise the record is findable and every other lookup is unchanged |
| Repository.FileRepository.Delete | backend/app/repositories/file_repository.py:28-29 | the record is no longer found and every other lookup is unchanged |
| Repository.DownloadLog.Add | backend/app/repositories/download_repository.py:12-15 | the row is appended to the log |
| UploadService.Candidate | backend/app/services/upload_service.py:93-99 | every slug candidate has 16 [a-z0-9] characters |
| UploadService.SnippetLines | backend/app/services/upload_service.py:129-130 | the snippet is two property lines, each ended by a newline |
| UploadService.NewRecord | backend/app/services/upload_service.py:104-124 | a new record has no downloads and no metadata, the content's size, and expires the configured number of days after creation |
| UploadService.CreatedResponse | backend/app/services/upload_service.py:126-143 | the response names the slug, id and delete token; it carries resource-pack info iff the archive is a resource pack, and then the info holds the download URL, the SHA-1 and the `server.properties` snippet for that URL and SHA-1 |
| UploadService.StreamToTemp | backend/app/services/upload_service.py:73-86 | streaming succeeds iff the content is empty or within the cap (the size is compared only after a chunk is read), and then writes exactly the content; otherwise it is the 413 |
| UploadService.FirstFreeIndexIsFirst | backend/app/services/upload_service.py:93-99 | the retry position is a free candidate, or the end, and every candidate before it is taken |
| UploadService.FirstFreeSlugIsFirst | backend/app/services/upload_service.py:93-99 | the retry order finds a free candidate exactly when one of the ten is free, and it is the earliest |
| UploadService.AllocateSlug | backend/app/services/upload_service.py:93-99 | the loop answers with the slug `FirstFreeSlug` picks, or the 500 when it picks none |
| UploadService.StoreFile | backend/app/services/upload_service.py:93-124 | on success the record and object are stored under a free candidate; on failure the table is unchanged |
| UploadService.Process | backend/app/services/upload_service.py:73-143 | content the loop refuses is 413; a bad archive is its 400; all candidate slugs taken is the 500; a stored upload satisfies the storage specification; failures leave the table unchanged |
| UploadService.ProcessInTempFile | backend/app/services/upload_service.py:67-152 | whatever the body does, the upload ends closed and the temporary file removed; the 413, the archive's 400 and the slug 500 as in `Process`; failures leave the table unchanged; success means stored as specified |
| UploadService.HandleUpload | backend/app/services/upload_service.py:41-152 | missing name 400, wrong extension 400 and quota 429 come first and change nothing; after them the upload is closed, the temporary file removed, and the 413, the archive's 400 and the slug 500 follow as in `Process`; failures leave the table unchanged; success means stored as specified |
| DownloadService.Touched | backend/app/services/download_service.py:39-42 | a download adds one to the count, records the time and sets expiry to that time plus the configured days |
| DownloadService.TwoDownloads | backend/app/services/download_service.py:39-42 | two downloads add two, and the expiry depends only on the later one |
| DownloadService.CreateDownloadRedirect | backend/app/services/download_service.py:33-49 | an unknown slug is 404 and changes nothing; otherwise the record is touched, one hashed row is logged and the presigned URL returned |
| FileService.ToPublic | backend/app/schemas/file.py:22-38 | the public view keeps the identifying fields and names the file type |
| FileService.GetPublicBySlug | backend/app/services/file_service.py:29-33 | found iff the slug exists, answered with its public view; otherwise 404 |
| FileService.DeleteBySlug | backend/app/services/file_service.py:35-51 | unknown slug 404, wrong token 403, both changing nothing; otherwise the object and record are removed and nothing else |
| FileService.DeletedIsGone | backend/app/services/file_service.py:49-50 | after a delete the slug is gone and every other record is as before |
| MaintenanceService.CleanupExpiredFiles | backend/app/services/maintenance_service.py:19-30 | the batch's records and objects are removed, and the count is the batch size |
| MaintenanceService.CleanupBounds | backend/app/services/maintenance_service.py:19-30 | one run removes at most 200 records, all expired; unexpired records survive |
| MaintenanceService.KeepRecent | backend/app/services/maintenance_service.py:32-36 | every kept row is an input row at or after the cutoff |
| MaintenanceService.KeepRecentAppend | backend/app/services/maintenance_service.py:32-36 | pruning a concatenation is the concatenation of the pruned parts, so the kept rows keep their order |
| MaintenanceService.KeepRecentSingle | backend/app/services/maintenance_service.py:32-36 | one row is kept iff it is at or after the cutoff |
| MaintenanceService.KeptPlusRemoved | backend/app/services/maintenance_service.py:32-36 | kept rows plus pruned rows account for every row |
| MaintenanceService.RecentRowsKept | backend/app/services/maintenance_service.py:32-36 | every row at or after the cutoff survives |
| MaintenanceService.PruneDownloadLogs | backend/app/services/maintenance_service.py:32-36 | the log keeps the recent rows, and the answer is the number removed |
| AnalyticsService.StartOfDay | backend/app/services/analytics_service.py:29-30 | the day starts at a multiple of 86400 at or before now, less than a day earlier |
| AnalyticsService.TodayAtMostTotal | backend/app/services/analytics_service.py:32-38 | today's downloads are at most the file's logged downloads |
| AnalyticsService.OtherRowsIgnored | backend/app/services/analytics_service.py:32-38 | rows of other files do not change the count |
| AnalyticsService.NewRowCounted | backend/app/services/analytics_service.py:32-38 | a new download of the file today raises the count by one |
| AnalyticsService.GetFileAnalytics | backend/app/services/analytics_service.py:24-46 | an unknown slug is 404; otherwise the record's totals, the given date, and today's count as the file's rows since UTC midnight (`CountSince`, whose partners are `NewRowCounted`, `OtherRowsIgnored` and `TodayAtMostTotal`), at most its logged rows |
| Format.Pow1024 | frontend/lib/format.ts:7 | every unit size is at least one byte |
| Format.UnitFor | frontend/lib/format.ts:6 | the unit index always names one of the five units |
| Format.Pow1024Values | frontend/lib/format.ts:3-8 | the unit sizes are 1024, 1048576, 1073741824, 1099511627776 and 1125899906842624 for k = 1 to 5 |
| Format.UnitForBrackets | frontend/lib/format.ts:6-9 | the chosen unit brackets the size: at least one of that unit (except bytes) and less than one of the next (except TB) |
| Format.BracketIsUnitFor | frontend/lib/format.ts:6-9 | the unit picked is the only one the value lies within |
| Format.DivideStep | frontend/lib/format.ts:6-7 | the loop test on the divided value is the test on the original against the next power, and one more division is dividing by it |
| Format.SelectUnit | frontend/lib/format.ts:6-9 | the loop picks the unit index of the specification and divides by that unit's size |
| Format.FormatBytes | frontend/lib/format.ts:1-12 | non-finite or negative input is the dash; otherwise the fixed rendering in the chosen unit, 0 decimals below KB |
| Format.Normalize | frontend/lib/format.ts:17-18 | after normalising, the text always carries a time zone, and text that had one is unchanged |
| Format.NormalizeIdempotent | frontend/lib/format.ts:17-18 | normalising twice is normalising once |
| Format.FormatShortDate | frontend/lib/format.ts:14-29 | null, undefined, empty text or an unparsable date is the dash; otherwise the rendering of the date parsed from the normalised text |
| Api.EnvOr | frontend/lib/api.ts:2 | a set variable wins over the default |
| Api.PublicApiBaseUrl | frontend/lib/api.ts:1-3 | the public variable, or localhost:8000 |
| Api.ServerApiBaseUrl | frontend/lib/api.ts:5-7 | the internal variable, then the public one, then localhost:8000 |
| Api.BaseResolution | frontend/lib/api.ts:1-7 | with neither variable set both bases are localhost:8000; an empty variable is used as set (`??` only skips unset); without the internal variable the server base is the public base |
| UriComponent.HexValue | frontend/components/DownloadButton.tsx:5 | the digit's position among the hex digits |
| UriComponent.HexDigitsRoundTrip | frontend/components/DownloadButton.tsx:5 | reading a hex digit back gives its value |
| UriComponent.PercentByte | frontend/components/DownloadButton.tsx:5 | a byte becomes '%' and two uppercase hex digits |
| UriComponent.Utf8 | frontend/components/DownloadButton.tsx:5 | a scalar value becomes one to four bytes with the UTF-8 lead and continuation shapes |
| UriComponent.Encode | frontend/components/DownloadButton.tsx:5 | every output character is unreserved or part of a percent escape |
| UriComponent.ReadPercents | frontend/components/DownloadButton.tsx:5 | the escapes of a byte sequence read back as those bytes |
| UriComponent.Utf8RoundTrip | frontend/components/DownloadButton.tsx:5 | the bytes of a scalar value decode to it |
| UriComponent.DecodeEncode | frontend/components/DownloadButton.tsx:5 | decoding the encoding gives back the string |
| UriComponent.EncodeInjective | frontend/components/DownloadButton.tsx:5 | different strings encode differently |
| UriComponent.EncodeIsOneSegment | frontend/components/DownloadButton.tsx:5 | the encoding holds no '/', '?' or '#' |
| UriComponent.EncodeUnreserved | frontend/components/DownloadButton.tsx:5 | a string of unreserved characters encodes to itself |
| DownloadButton.Href | frontend/components/DownloadButton.tsx:4-5 | the link is the base followed by "/download/" and the encoded slug |
| DownloadButton.HrefInjective | frontend/components/DownloadButton.tsx:4-5 | different slugs link differently |
| DownloadButton.GeneratedSlugUnchanged | frontend/components/DownloadButton.tsx:5 | a slug of [a-z0-9] and dashes appears in the link unchanged |
| MetadataDisplay.SnippetLines | frontend/components/MetadataDisplay.tsx:31-34 | the shown snippet is exactly the two property lines, with no trailing newline |
| MetadataDisplay.BackendSnippetEndsWithNewline | frontend/components/MetadataDisplay.tsx:31-34 | the backend's snippet is the shown one plus a final newline |
| MetadataDisplay.Take | frontend/components/MetadataDisplay.tsx:351 | at most n leading items, a prefix of the input |
| MetadataDisplay.RenderedTags | frontend/components/MetadataDisplay.tsx:345-358 | at most 8 tags, each trimmed and non-empty: the first 8 non-blank comma pieces, or none without tags |
| MetadataDisplay.NoTagsInEmpty | frontend/components/MetadataDisplay.tsx:345-350 | an empty tag string yields no tags |
| MetadataDisplay.RepeatedTagShownTwice | frontend/components/MetadataDisplay.tsx:345-358 | a tag given twice is shown twice: no de-duplication |
| MetadataDisplay.ResetIsGuarded | frontend/components/MetadataDisplay.tsx:43 | a reset either clears the copied key or leaves it; it leaves any other key alone; resetting twice is resetting once |
| MetadataDisplay.RemoveAppended | frontend/components/MetadataDisplay.tsx:54-57 | removing the textarea just appended restores the body |
| MetadataDisplay.Display.constructor | frontend/components/MetadataDisplay.tsx:36-37 | nothing copied, the first tab, no timers; the clipboard and document body are as given |
| MetadataDisplay.Display.Copy | frontend/components/MetadataDisplay.tsx:39-61 | by either path the value reaches the clipboard, the key is marked copied and its reset is scheduled; the document body and tab are unchanged afterwards |
| MetadataDisplay.Display.FireTimer | frontend/components/MetadataDisplay.tsx:43 | a timer clears the mark only if its key is still the copied one |
| MetadataDisplay.Display.SelectTab | frontend/components/MetadataDisplay.tsx:166 | the tab changes and nothing else |
| MetadataDisplay.AtMostOneCopied | frontend/components/MetadataDisplay.tsx:63-64 | at most one copy button shows "Copied" |
| MetadataDisplay.ShownGroups | frontend/components/MetadataDisplay.tsx:225-289 | the three separate guards together render exactly one group, the selected tab's |
| MetadataDisplay.StaleTimerKeepsNewerKey | frontend/components/MetadataDisplay.tsx:42-43 | the first copy's timer does not clear a later copy's mark |
| CopyButton.Button.constructor | frontend/components/ui/CopyButton.tsx:6-7 | the button keeps its value and the clipboard as given, and starts not copied |
| CopyButton.Button.Click | frontend/components/ui/CopyButton.tsx:14-18 | a successful write puts the value on the clipboard, marks copied and schedules a reset; a failed one changes nothing |
| CopyButton.Button.FireReset | frontend/components/ui/CopyButton.tsx:17 | a reset clears the mark unconditionally and leaves the clipboard as it was |
| CopyButton.Button.Label | frontend/components/ui/CopyButton.tsx:20 | the label is "Copied" when copied and "Copy" otherwise |
| CopyButton.EarlyResetClearsLaterClick | frontend/components/ui/CopyButton.tsx:14-18 | the first click's reset clears the second click's mark early |
| UploadPage.FileHint | frontend/app/upload/page.tsx:24-29 | no hint without a file or for a `.zip` name in any case; otherwise the not-zip hint |
| UploadPage.HintAcceptsWhatBackendRejects | frontend/app/upload/page.tsx:13 | a file named `.zip` gets no hint yet the backend refuses it |
| UploadPage.UploadFields | frontend/app/upload/page.tsx:58-60 | the form carries the file, plus the captcha token only when it is not blank |
| UploadPage.SubmitError | frontend/app/upload/page.tsx:62-76 | no error iff the response is ok and its JSON reads; a non-ok response shows its non-empty body text or a non-empty status message; a rejected fetch shows its message, an unreadable JSON body the parse error's message |
| UploadPage.EmptyBodyNamesStatus | frontend/app/upload/page.tsx:67-70 | an empty failed response names its status |
| UploadPage.Form.constructor | frontend/app/upload/page.tsx:18-22 | the form starts empty, idle and error-free |
| UploadPage.Form.ChooseFile | frontend/app/upload/page.tsx:89 | choosing a file replaces it and nothing else |
| UploadPage.Form.StartSubmit | frontend/app/upload/page.tsx:47-65 | the error is cleared; without a file it is set and nothing is sent; otherwise the form is submitting and the fields are posted |
| UploadPage.Form.FinishSubmit | frontend/app/upload/page.tsx:67-79 | success navigates to "/files/" and the encoded slug; a failure sets its message; submitting ends either way |
| UploadPage.Form.Submit | frontend/app/upload/page.tsx:47-80 | without a file only the missing-file error is set; otherwise exactly one request goes out, the POST of the file and trimmed token to the uploads endpoint, submitting ends, and the error is the outcome's message (navigation unchanged) or none with navigation to the file page; the chosen file and token are kept |
| ReportForm.BodyOf | frontend/components/ReportForm.tsx:19 | an empty email is sent as no email |
| ReportForm.BlankEmailAccepted | frontend/components/ReportForm.tsx:19 | a report with an empty email field passes the backend schema when slug and reason do |
| ReportForm.Form.constructor | frontend/components/ReportForm.tsx:7-10 | the form starts empty and idle, with nothing sent |
| ReportForm.Form.StartSubmit | frontend/components/ReportForm.tsx:12-19 | the status is sending and the report is posted to the reports endpoint |
| ReportForm.Form.FinishSubmit | frontend/components/ReportForm.tsx:21-25 | the status is sent iff the response was ok, else error |
| ReportForm.AlertsExclusive | frontend/components/ReportForm.tsx:61-75 | the success and error alerts never show together, and the button is enabled while either shows |
| AppShell.NextHeight | frontend/components/AppShell.tsx:29-32 | a non-zero measured height replaces the current one; a zero measurement is ignored |
| AppShell.NextHeightIdempotent | frontend/components/AppShell.tsx:29-32 | measuring the same height twice is measuring once |
| AppShell.CssVar | frontend/components/AppShell.tsx:46 | the variable is the height in decimal followed by "px" |
| AppShell.IsFilePagePath | frontend/components/AppShell.tsx:17-23 | only a path under "/files/" is a file page |
| AppShell.Shell.constructor | frontend/components/AppShell.tsx:12-15 | the shell starts at 72 px and not on a file page |
| AppShell.Shell.DetectFilePage | frontend/components/AppShell.tsx:17-23 | the flag follows the current path |
| AppShell.Shell.Update | frontend/components/AppShell.tsx:29-32 | the height follows the measurement and stays non-zero |
| AdContainer.VisibleAfterIff | frontend/components/AdContainer.tsx:13-15 | the slot is visible iff it started visible or some batch held an intersecting entry |
| AdContainer.Slot.constructor | frontend/components/AdContainer.tsx:5-7 | the slot starts hidden |
| AdContainer.Slot.OnEntries | frontend/components/AdContainer.tsx:14-15 | visibility latches on at the first intersection |
| AdContainer.Slot.Placeholder | frontend/components/AdContainer.tsx:28-37 | the placeholder is shown iff visible, and is "Ad placeholder: " followed by the placement |
| TurnstileWidget.SuccessToken | frontend/components/TurnstileWidget.tsx:47 | `String(token ?? '')`: a null or undefined token is empty, a string is itself, another value its string form |
| TurnstileWidget.DeliveredToken | frontend/components/TurnstileWidget.tsx:47-49 | success delivers the token; expiry and error deliver an empty token |
| TurnstileWidget.Widget.constructor | frontend/components/TurnstileWidget.tsx:24-28 | no widget held, script not loaded, the first handler held, nothing rendered, removed or delivered |
| TurnstileWidget.Widget.SetHandler | frontend/components/TurnstileWidget.tsx:28-31 | the latest handler replaces the held one |
| TurnstileWidget.Widget.ScriptLoaded | frontend/components/TurnstileWidget.tsx:65 | the script is marked ready |
| TurnstileWidget.Widget.RenderEffect | frontend/components/TurnstileWidget.tsx:38-61 | renders once only when the script, container, API and site key are all present and no widget is held |
| TurnstileWidget.Widget.Cleanup | frontend/components/TurnstileWidget.tsx:52-60 | the held widget is removed when possible and forgotten, even when removal throws |
| TurnstileWidget.Widget.Deliver | frontend/components/TurnstileWidget.tsx:47-49 | a callback reaches the handler held at that moment |
| TurnstileWidget.NoRenderBeforeLoad | frontend/components/TurnstileWidget.tsx:39 | nothing renders before the script has loaded |
| TurnstileWidget.RenderOnceWhileHeld | frontend/components/TurnstileWidget.tsx:43-54 | a held widget is not rendered again; after cleanup a new one is |
| TurnstileWidget.LatestHandlerReceives | frontend/components/TurnstileWidget.tsx:28-31 | a token goes to the handler set last, not the one at render time |

## Left out

- Unicode: `lower()`, `strip()` and `trim()` act on ASCII letters and ASCII whitespace only. Python's `str.strip()` also removes the separators `\x1c`-`\x1f`, `\x85` and the other Unicode whitespace, and `String.prototype.trim()` removes its own Unicode set (no-break space, line and paragraph separators, the byte-order mark); the model keeps those characters.
- Concurrency: two uploads from one address may both pass the quota count before either inserts, and two uploads may pick the same free slug before either inserts (the unique constraint then refuses the second). Each method here runs alone, so these races are not modelled.
- Floating point: JavaScript numbers are reals or "not finite", and `toFixed`, `Date` parsing and `Intl` date formatting are parameters.
- Hashing, randomness and time: HMAC, SHA-1, uuid4, `secrets.choice` and the clock are parameters. The year is a natural number, so glibc's `%Y` rendering of years below 1000 is not modelled.
- Zip reading, JSON parsing, presigning and every S3 call are parameters, returning outcomes the model branches on. `ensure_bucket` is not modelled.
- The database session: tables are values in a class, each method commits at once, and ORM object identity and aliasing are not modelled. Foreign-key cascades from files to downloads are not modelled.
- Repository.FileRepository.Delete: it requires a record the session holds, as `file_service.py` always passes one it has just loaded.
- MaintenanceService.CleanupExpiredFiles: the batch that `LIMIT 200` selects is a parameter constrained by `ExpiredBatch`, because SQL leaves the row order unspecified.
- Storage deletion failures, and the errors swallowed by `os.remove` and `upload.close` in the `finally` block, are not modelled.
- AnalyticsService.GetFileAnalytics: the count runs from UTC midnight, as the code does, but `today` is `date.today()`, the server's local date, passed through as a parameter. Near midnight it can name a different day from the one counted; the model does not relate the two.
- Report.ValidateReport: it checks presence and length; pydantic's type coercion of non-string values is not modelled.
- The report route's captcha wiring, the HTTP routes, rate limiting and the scheduler that runs the maintenance jobs are not modelled.
- UriComponent.Encode: the decoder that proves injectivity is a left inverse, not a full `decodeURIComponent`. Lone surrogates, which make `encodeURIComponent` throw, are outside `char`.
- Timers: the 1100 ms and 900 ms delays are not modelled. Pending timers fire in the order the scenario methods choose.
- UploadPage.Form.FinishSubmit: a thrown value that is not an `Error` (message "Upload failed") is not modelled; every network failure carries a message.
- Purely presentational components and layout (pages, cards, headers, styles) are not modelled.
