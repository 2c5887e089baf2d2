/** `DownloadService.create_download_redirect` of
    `backend/app/services/download_service.py`: a download bumps the counter,
    slides the expiry forward, logs one row and answers with a presigned link. */
module DownloadService {
  import opened Common
  import Ip
  import S3Storage
  import Repository

  datatype DownloadSettings = DownloadSettings(
    fileExpireDays: int,
    ipHashSecret: string,
    presign: S3Storage.PresignSettings)

  const NotFound: Failure := HttpError(404, "File not found")

  /** The record after one download at `now`. */
  function Touched(f: Repository.FileRecord, now: int, expireDays: int): (g: Repository.FileRecord)
    ensures g.downloadCount == f.downloadCount + 1
    ensures g.lastDownload == Some(now)
    ensures g.expireAt == now + expireDays * SecondsPerDay
    ensures g.slug == f.slug && g.s3Key == f.s3Key && g.sha1Hash == f.sha1Hash
            && g.fileSize == f.fileSize && g.createdAt == f.createdAt && g.id == f.id
            && g.deleteTokenHash == f.deleteTokenHash && g.uploaderIpHash == f.uploaderIpHash
  {
    f.(downloadCount := f.downloadCount + 1,
       lastDownload := Some(now),
       expireAt := now + expireDays * SecondsPerDay)
  }

  /** Two downloads count two, and the expiry follows the later one only:
      the previous expiry plays no part. */
  lemma TwoDownloads(f: Repository.FileRecord, t1: int, t2: int, days: int)
    ensures Touched(Touched(f, t1, days), t2, days).downloadCount == f.downloadCount + 2
    ensures Touched(Touched(f, t1, days), t2, days).expireAt == Touched(f, t2, days).expireAt
    ensures Touched(Touched(f, t1, days), t2, days).lastDownload == Some(t2)
  {
  }

  /** `create_download_redirect`. */
  method CreateDownloadRedirect(cfg: DownloadSettings, request: Ip.Request, hmac: (string, string) -> string,
                                now: int, sign: (Option<string>, string, string, int) -> string, slug: string,
                                repo: Repository.FileRepository, log: Repository.DownloadLog)
    returns (r: Result<string, Failure>)
    requires repo.Valid()
    modifies repo, log
    ensures repo.Valid()
    ensures slug !in old(repo.files) ==> r == Err(NotFound) && unchanged(repo, log)
    ensures slug in old(repo.files) ==>
              var f := old(repo.files)[slug];
              r == Ok(S3Storage.CreatePresignedDownloadUrl(cfg.presign, f.s3Key, sign))
              && repo.files == old(repo.files)[slug := Touched(f, now, cfg.fileExpireDays)]
              && log.rows == old(log.rows)
                             + [Repository.DownloadRow(f.id, Ip.ClientIpHash(request, cfg.ipHashSecret, hmac), now)]
  {
    var found := repo.GetBySlug(slug);
    if found.None? {
      return Err(NotFound);
    }
    var file := found.value;
    // The ORM writes the changed attributes back into the table on commit.
    repo.files := repo.files[slug := Touched(file, now, cfg.fileExpireDays)];
    var ipHash := Ip.ClientIpHash(request, cfg.ipHashSecret, hmac);
    log.Add(Repository.DownloadRow(file.id, ipHash, now));
    return Ok(S3Storage.CreatePresignedDownloadUrl(cfg.presign, file.s3Key, sign));
  }
}
