/** `UploadService.handle_upload` of `backend/app/services/upload_service.py`:
    the checks made before anything is read, the size cap enforced while the
    upload streams to a temporary file, zip classification, the bounded search
    for a free slug, the object upload, the new record and the response. The
    clock, the uuids, the hashes, the random draws, the zip reader and the S3
    calls are inputs. */
module UploadService {
  import opened Common
  import Files
  import Slug
  import Ip
  import S3Storage
  import Repository

  /** The settings the upload reads. */
  datatype UploadSettings = UploadSettings(
    domain: string,
    maxUploadBytes: int,
    ipHashSecret: string,
    fileExpireDays: int)

  /** `datetime.now(UTC)`: seconds since the epoch, with the calendar year and
      month the object key is filed under. */
  datatype Clock = Clock(now: int, year: nat, month: S3Storage.Month)

  /** Everything the upload takes from outside the model. `draws(k)` is the
      sequence of alphabet positions `secrets.choice` picks for the k-th slug
      generated. */
  datatype UploadEnv = UploadEnv(
    request: Ip.Request,
    hmac: (string, string) -> string,
    clock: Clock,
    fileId: string,
    deleteToken: string,
    sha1: seq<Byte> -> string,
    zipRead: seq<Byte> -> Files.ZipRead,
    draws: nat -> (nat -> Slug.AlphabetIndex),
    createUpload: Option<string>,
    uploadPart: (nat, seq<Byte>) -> Result<string, string>,
    complete: seq<S3Storage.CompletedPart> -> Option<string>)

  datatype ResourcePackInfo = ResourcePackInfo(downloadUrl: string, sha1: string, serverPropertiesSnippet: string)

  datatype FileCreateResponse = FileCreateResponse(
    id: string,
    slug: string,
    landingPageUrl: string,
    deleteToken: string,
    resourcePack: Option<ResourcePackInfo>)

  const MissingFilename: Failure := HttpError(400, "Missing filename")
  const OnlyZip: Failure := HttpError(400, "Only .zip files are supported")
  const LimitReached: Failure := HttpError(429, "Upload limit reached for this IP")
  const TooLarge: Failure := HttpError(413, "File too large (max 100MB)")
  const NoFreeSlug: Failure := HttpError(500, "Failed to allocate a unique slug")

  const MaxFilesPerIp: nat := 10
  const SlugAttempts: nat := 10
  const SlugLength: nat := 16
  const ReadSize: nat := 1024 * 1024

  /** The k-th slug `generate_random_slug(16)` produces. */
  function Candidate(env: UploadEnv, k: nat): (r: string)
    ensures |r| == SlugLength && forall i :: 0 <= i < |r| ==> Slug.IsSlugChar(r[i])
  {
    Slug.GenerateRandomSlug(SlugLength, env.draws(k)).value
  }

  function LandingUrl(domain: string, slug: string): string
  {
    "https://" + domain + "/files/" + slug
  }

  function DownloadUrl(domain: string, slug: string): string
  {
    "https://" + domain + "/download/" + slug
  }

  /** The `server.properties` lines for a resource pack, each ended by a
      newline. */
  function ServerPropertiesSnippet(downloadUrl: string, sha1: string): string
  {
    ("resource-pack=" + downloadUrl) + "\n" + ("resource-pack-sha1=" + sha1 + "\n")
  }

  /** Read line by line, the snippet is the two properties and nothing else
      (the final newline leaves an empty last piece). */
  lemma SnippetLines(downloadUrl: string, sha1: string)
    requires '\n' !in downloadUrl && '\n' !in sha1
    ensures Split(ServerPropertiesSnippet(downloadUrl, sha1), '\n')
            == ["resource-pack=" + downloadUrl, "resource-pack-sha1=" + sha1, ""]
  {
    var l1 := "resource-pack=" + downloadUrl;
    var l2 := "resource-pack-sha1=" + sha1;
    assert '\n' !in "resource-pack=";
    assert '\n' !in "resource-pack-sha1=";
    assert '\n' !in l1 && '\n' !in l2;
    assert l2 + "\n" == l2 + ['\n'] + "";
    SplitConcat(l2, '\n', "");
    SplitConcat(l1, '\n', l2 + "\n");
  }

  /** The record `handle_upload` stores. */
  function NewRecord(cfg: UploadSettings, env: UploadEnv, filename: string, slug: string,
                     fileType: Files.FileType, content: seq<Byte>, uploaderHash: string): (rec: Repository.FileRecord)
    ensures rec.slug == slug && rec.filename == filename && rec.fileSize == |content|
    ensures rec.downloadCount == 0 && rec.lastDownload == None
    ensures rec.minecraftVersion == None && rec.loader == None && rec.description == None && rec.tags == None
    ensures rec.createdAt == env.clock.now
    ensures rec.expireAt == rec.createdAt + cfg.fileExpireDays * SecondsPerDay
  {
    Repository.FileRecord(
      id := env.fileId,
      filename := filename,
      slug := slug,
      fileType := fileType,
      minecraftVersion := None,
      loader := None,
      description := None,
      tags := None,
      fileSize := |content|,
      s3Key := S3Storage.BuildKey(env.fileId, filename, env.clock.year, env.clock.month),
      sha1Hash := env.sha1(content),
      downloadCount := 0,
      createdAt := env.clock.now,
      lastDownload := None,
      expireAt := env.clock.now + cfg.fileExpireDays * SecondsPerDay,
      uploaderIpHash := uploaderHash,
      deleteTokenHash := env.hmac(cfg.ipHashSecret, env.deleteToken))
  }

  /** The response for a stored file. */
  function CreatedResponse(cfg: UploadSettings, env: UploadEnv, slug: string, fileType: Files.FileType,
                           sha1: string): (r: FileCreateResponse)
    ensures r.slug == slug && r.id == env.fileId && r.deleteToken == env.deleteToken
    ensures r.landingPageUrl == LandingUrl(cfg.domain, slug)
    ensures r.resourcePack.Some? <==> fileType == Files.ResourcePack
    ensures r.resourcePack.Some? ==>
              var info := r.resourcePack.value;
              info.downloadUrl == DownloadUrl(cfg.domain, slug) && info.sha1 == sha1
              && info.serverPropertiesSnippet == ServerPropertiesSnippet(info.downloadUrl, sha1)
  {
    var info := if fileType == Files.ResourcePack then
                  var url := DownloadUrl(cfg.domain, slug);
                  Some(ResourcePackInfo(url, sha1, ServerPropertiesSnippet(url, sha1)))
                else None;
    FileCreateResponse(env.fileId, slug, LandingUrl(cfg.domain, slug), env.deleteToken, info)
  }

  // ---------------------------------------------------------------- streaming

  /** The uploads the streaming loop lets through: the cap is compared with
      the running size after each chunk, so an empty body always passes. */
  predicate WithinCap(content: seq<Byte>, maxUploadBytes: int)
  {
    content == [] || |content| <= maxUploadBytes
  }

  /** The streaming loop: 1 MiB reads appended to the temporary file and fed
      to the hasher, refused with 413 as soon as the running size passes the
      cap. The size is only compared after a chunk has been read, so an empty
      upload passes whatever the cap. On success the result is what was
      written, which is what was hashed. */
  method StreamToTemp(content: seq<Byte>, maxUploadBytes: int) returns (r: Result<seq<Byte>, Failure>)
    ensures r.Ok? <==> WithinCap(content, maxUploadBytes)
    ensures r.Ok? ==> r.value == content
    ensures r.Err? ==> r.error == TooLarge
  {
    var size := 0;
    var written: seq<Byte> := [];
    var rest := content;
    while rest != []
      invariant written + rest == content
      invariant size == |written|
      invariant written == [] || size <= maxUploadBytes
      decreases |rest|
    {
      var n := if |rest| < ReadSize then |rest| else ReadSize;
      var chunk := rest[..n];
      size := size + |chunk|;
      if size > maxUploadBytes {
        return Err(TooLarge);
      }
      written := written + chunk;
      rest := rest[n..];
    }
    return Ok(written);
  }

  // ---------------------------------------------------------------- slugs

  /** The position of the first of candidates `k`, `k + 1`, ..., 9 that no
      record holds, or `SlugAttempts` when all are held. */
  function FirstFreeIndex(env: UploadEnv, files: map<string, Repository.FileRecord>, k: nat): (n: nat)
    requires k <= SlugAttempts
    ensures k <= n <= SlugAttempts
    decreases SlugAttempts - k
  {
    if k == SlugAttempts || Candidate(env, k) !in files then k
    else FirstFreeIndex(env, files, k + 1)
  }

  /** The slug the retry loop settles on, if any. */
  function FirstFreeSlug(env: UploadEnv, files: map<string, Repository.FileRecord>): Option<string>
  {
    var n := FirstFreeIndex(env, files, 0);
    if n == SlugAttempts then None else Some(Candidate(env, n))
  }

  lemma {:induction false} FirstFreeIndexIsFirst(env: UploadEnv, files: map<string, Repository.FileRecord>, k: nat)
    requires k <= SlugAttempts
    ensures var n := FirstFreeIndex(env, files, k);
      (n < SlugAttempts ==> Candidate(env, n) !in files)
      && forall j :: k <= j < n ==> Candidate(env, j) in files
    decreases SlugAttempts - k
  {
    if k < SlugAttempts && Candidate(env, k) in files {
      FirstFreeIndexIsFirst(env, files, k + 1);
    }
  }

  /** The retry order finds a free candidate exactly when one is left, and it
      is the earliest one. */
  lemma FirstFreeSlugIsFirst(env: UploadEnv, files: map<string, Repository.FileRecord>)
    ensures var r := FirstFreeSlug(env, files);
      (r.Some? ==> exists n :: 0 <= n < SlugAttempts && r.value == Candidate(env, n)
                     && r.value !in files
                     && forall j :: 0 <= j < n ==> Candidate(env, j) in files)
      && (r.None? <==> forall n :: 0 <= n < SlugAttempts ==> Candidate(env, n) in files)
  {
    var n := FirstFreeIndex(env, files, 0);
    FirstFreeIndexIsFirst(env, files, 0);
    if n < SlugAttempts {
      assert Candidate(env, n) !in files;
    }
  }

  /** The retry loop: candidates 0 to 9 are looked up in turn and the first
      free one is taken; when all ten are taken the upload fails with 500. */
  method AllocateSlug(repo: Repository.FileRepository, env: UploadEnv) returns (r: Result<string, Failure>)
    requires repo.Valid()
    ensures r == (match FirstFreeSlug(env, repo.files)
                  case Some(slug) => Ok(slug)
                  case None => Err(NoFreeSlug))
  {
    var k := 0;
    while k < SlugAttempts
      invariant 0 <= k <= SlugAttempts
      invariant FirstFreeIndex(env, repo.files, k) == FirstFreeIndex(env, repo.files, 0)
    {
      var slug := Candidate(env, k);
      if repo.GetBySlug(slug).None? {
        return Ok(slug);
      }
      k := k + 1;
    }
    return Err(NoFreeSlug);
  }

  // ---------------------------------------------------------------- pipeline

  /** Temporary files on disk. */
  class TempDir {
    var paths: set<string>

    constructor()
      ensures paths == {}
    {
      paths := {};
    }
  }

  /** The `UploadFile` FastAPI hands over. */
  class Upload {
    const filename: Option<string>
    const content: seq<Byte>
    var closed: bool

    constructor(filename: Option<string>, content: seq<Byte>)
      ensures this.filename == filename && this.content == content && !closed
    {
      this.filename := filename;
      this.content := content;
      closed := false;
    }
  }

  /** The upload passes the three checks made before any byte is read. */
  predicate PassesChecks(filename: Option<string>, existingCount: nat)
  {
    filename.Some? && Files.AllowedExtension(Basename(filename.value)) && existingCount < MaxFilesPerIp
  }

  /** What storing a classified archive leaves behind: the response names a
      free candidate slug, the record stored under it, and the object stored
      under its key. */
  predicate Stored(cfg: UploadSettings, env: UploadEnv, filename: string, content: seq<Byte>,
                   fileType: Files.FileType, uploaderHash: string,
                   filesBefore: map<string, Repository.FileRecord>, filesAfter: map<string, Repository.FileRecord>,
                   objectsBefore: map<string, seq<Byte>>, objectsAfter: map<string, seq<Byte>>,
                   resp: FileCreateResponse)
  {
    (exists k :: 0 <= k < SlugAttempts && resp.slug == Candidate(env, k))
    && resp.slug !in filesBefore
    && var rec := NewRecord(cfg, env, filename, resp.slug, fileType, content, uploaderHash);
    filesAfter == filesBefore[resp.slug := rec]
    && objectsAfter == objectsBefore[rec.s3Key := content]
    && resp == CreatedResponse(cfg, env, resp.slug, fileType, rec.sha1Hash)
  }

  /** What a successful upload leaves behind: the archive was within the cap
      and classified, and was stored as above. */
  predicate StoredAsSpecified(cfg: UploadSettings, env: UploadEnv, filename: string, content: seq<Byte>,
                              uploaderHash: string,
                              filesBefore: map<string, Repository.FileRecord>, filesAfter: map<string, Repository.FileRecord>,
                              objectsBefore: map<string, seq<Byte>>, objectsAfter: map<string, seq<Byte>>,
                              resp: FileCreateResponse)
  {
    WithinCap(content, cfg.maxUploadBytes)
    && Files.DetectZip(env.zipRead(content)).Ok?
    && Stored(cfg, env, filename, content, Files.DetectZip(env.zipRead(content)).value, uploaderHash,
              filesBefore, filesAfter, objectsBefore, objectsAfter, resp)
  }

  /** The failures `Process` promises for content the name and quota checks
      have let through: 413 over the cap, the archive's own 400, and 500 when
      every candidate slug is taken. */
  predicate ProcessOutcome(cfg: UploadSettings, env: UploadEnv, content: seq<Byte>,
                           filesBefore: map<string, Repository.FileRecord>, r: Result<FileCreateResponse, Failure>)
  {
    (!WithinCap(content, cfg.maxUploadBytes) ==> r == Err(TooLarge))
    && (WithinCap(content, cfg.maxUploadBytes) && Files.DetectZip(env.zipRead(content)).Err? ==>
          r == Err(Files.DetectZip(env.zipRead(content)).error))
    && (WithinCap(content, cfg.maxUploadBytes) && Files.DetectZip(env.zipRead(content)).Ok?
        && (forall k :: 0 <= k < SlugAttempts ==> Candidate(env, k) in filesBefore) ==>
          r == Err(NoFreeSlug))
  }

  /** From a classified archive on: pick a slug, upload the object, insert
      the record, answer. */
  method StoreFile(cfg: UploadSettings, env: UploadEnv, filename: string, content: seq<Byte>,
                   fileType: Files.FileType, uploaderHash: string,
                   repo: Repository.FileRepository, store: S3Storage.ObjectStore)
    returns (r: Result<FileCreateResponse, Failure>)
    requires repo.Valid()
    modifies repo, store
    ensures repo.Valid()
    ensures (forall k :: 0 <= k < SlugAttempts ==> Candidate(env, k) in old(repo.files)) ==>
              r == Err(NoFreeSlug) && store.objects == old(store.objects)
    ensures r.Ok? ==> Stored(cfg, env, filename, content, fileType, uploaderHash,
                             old(repo.files), repo.files, old(store.objects), store.objects, r.value)
    ensures r.Err? ==> repo.files == old(repo.files)
    ensures r.Err? && r.error.HttpError? ==> r.error == NoFreeSlug && store.objects == old(store.objects)
  {
    var picked := AllocateSlug(repo, env);
    FirstFreeSlugIsFirst(env, repo.files);
    if picked.Err? {
      return Err(picked.error);
    }
    var slug := picked.value;
    var rec := NewRecord(cfg, env, filename, slug, fileType, content, uploaderHash);
    var uploaded := store.UploadFile(rec.s3Key, content, env.createUpload, env.uploadPart, env.complete);
    if uploaded.Failed? {
      return Err(Raised(uploaded.message));
    }
    var added := repo.Add(rec);
    if added.Err? {
      return Err(added.error);
    }
    return Ok(CreatedResponse(cfg, env, slug, fileType, env.sha1(content)));
  }

  /** The body of the `try`: stream, hash, classify, then store. */
  method Process(cfg: UploadSettings, env: UploadEnv, filename: string, content: seq<Byte>, uploaderHash: string,
                 repo: Repository.FileRepository, store: S3Storage.ObjectStore) returns (r: Result<FileCreateResponse, Failure>)
    requires repo.Valid()
    modifies repo, store
    ensures repo.Valid()
    ensures !WithinCap(content, cfg.maxUploadBytes) ==> r == Err(TooLarge)
    ensures WithinCap(content, cfg.maxUploadBytes) && Files.DetectZip(env.zipRead(content)).Err? ==>
              r == Err(Files.DetectZip(env.zipRead(content)).error)
    ensures WithinCap(content, cfg.maxUploadBytes) && Files.DetectZip(env.zipRead(content)).Ok?
            && (forall k :: 0 <= k < SlugAttempts ==> Candidate(env, k) in old(repo.files)) ==>
              r == Err(NoFreeSlug)
    ensures r.Ok? ==> StoredAsSpecified(cfg, env, filename, content, uploaderHash, old(repo.files), repo.files,
                                        old(store.objects), store.objects, r.value)
    ensures r.Err? ==> repo.files == old(repo.files)
    ensures r.Err? && r.error.HttpError? ==> store.objects == old(store.objects)
  {
    var streamed := StreamToTemp(content, cfg.maxUploadBytes);
    if streamed.Err? {
      return Err(streamed.error);
    }
    var written := streamed.value;
    var detected := Files.DetectZip(env.zipRead(written));
    if detected.Err? {
      return Err(detected.error);
    }
    r := StoreFile(cfg, env, filename, written, detected.value, uploaderHash, repo, store);
  }

  /** The temporary-file part of `handle_upload`: the file is created, the
      body runs, and the `finally` closes the upload and removes the file
      whatever the outcome. */
  method ProcessInTempFile(cfg: UploadSettings, env: UploadEnv, filename: string, uploaderHash: string,
                           upload: Upload, tmp: TempDir, tmpName: string,
                           repo: Repository.FileRepository, store: S3Storage.ObjectStore)
    returns (r: Result<FileCreateResponse, Failure>)
    requires repo.Valid() && tmpName !in tmp.paths
    modifies upload, tmp, repo, store
    ensures repo.Valid()
    ensures upload.closed && tmp.paths == old(tmp.paths)
    ensures ProcessOutcome(cfg, env, upload.content, old(repo.files), r)
    ensures r.Ok? ==> StoredAsSpecified(cfg, env, filename, upload.content, uploaderHash,
                                        old(repo.files), repo.files, old(store.objects), store.objects, r.value)
    ensures r.Err? ==> repo.files == old(repo.files)
    ensures r.Err? && r.error.HttpError? ==> store.objects == old(store.objects)
  {
    tmp.paths := tmp.paths + {tmpName};
    r := Process(cfg, env, filename, upload.content, uploaderHash, repo, store);
    ghost var files1, objects1 := repo.files, store.objects;
    upload.closed := true;
    tmp.paths := tmp.paths - {tmpName};
    assert repo.files == files1 && store.objects == objects1;
  }

  /** `handle_upload`. `tmpName` is the fresh name `NamedTemporaryFile` picks. */
  method HandleUpload(cfg: UploadSettings, env: UploadEnv, upload: Upload, tmp: TempDir, tmpName: string,
                      repo: Repository.FileRepository, store: S3Storage.ObjectStore)
    returns (r: Result<FileCreateResponse, Failure>)
    requires repo.Valid() && tmpName !in tmp.paths
    modifies upload, tmp, repo, store
    ensures repo.Valid()
    ensures upload.filename.None? ==> r == Err(MissingFilename)
    ensures upload.filename.Some? && !Files.AllowedExtension(Basename(upload.filename.value)) ==> r == Err(OnlyZip)
    ensures upload.filename.Some? && Files.AllowedExtension(Basename(upload.filename.value))
            && old(repo.CountByUploaderIpHash(Ip.ClientIpHash(env.request, cfg.ipHashSecret, env.hmac))) >= MaxFilesPerIp
            ==> r == Err(LimitReached)
    ensures !PassesChecks(upload.filename, old(repo.CountByUploaderIpHash(Ip.ClientIpHash(env.request, cfg.ipHashSecret, env.hmac))))
            ==> unchanged(upload, tmp, repo, store)
    ensures PassesChecks(upload.filename, old(repo.CountByUploaderIpHash(Ip.ClientIpHash(env.request, cfg.ipHashSecret, env.hmac))))
            ==> upload.closed && tmp.paths == old(tmp.paths)
    ensures PassesChecks(upload.filename, old(repo.CountByUploaderIpHash(Ip.ClientIpHash(env.request, cfg.ipHashSecret, env.hmac))))
            ==> ProcessOutcome(cfg, env, upload.content, old(repo.files), r)
    ensures r.Err? ==> repo.files == old(repo.files)
    ensures r.Err? && r.error.HttpError? ==> store.objects == old(store.objects)
    ensures r.Ok? ==> StoredAsSpecified(cfg, env, Basename(upload.filename.value), upload.content,
                                        Ip.ClientIpHash(env.request, cfg.ipHashSecret, env.hmac),
                                        old(repo.files), repo.files, old(store.objects), store.objects, r.value)
  {
    ghost var count0 := repo.CountByUploaderIpHash(Ip.ClientIpHash(env.request, cfg.ipHashSecret, env.hmac));
    if upload.filename.None? {
      return Err(MissingFilename);
    }
    var filename := Basename(upload.filename.value);
    if !Files.AllowedExtension(filename) {
      return Err(OnlyZip);
    }
    var uploaderHash := Ip.ClientIpHash(env.request, cfg.ipHashSecret, env.hmac);
    var existingCount := repo.CountByUploaderIpHash(uploaderHash);
    if existingCount >= MaxFilesPerIp {
      return Err(LimitReached);
    }
    assert PassesChecks(upload.filename, count0);
    r := ProcessInTempFile(cfg, env, filename, uploaderHash, upload, tmp, tmpName, repo, store);
  }
}
