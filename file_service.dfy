/** `FileService` of `backend/app/services/file_service.py`: the public view of
    a record, and deletion with the token handed out at upload. */
module FileService {
  import opened Common
  import Files
  import Repository
  import S3Storage

  const NotFound: Failure := HttpError(404, "File not found")
  const InvalidDeleteToken: Failure := HttpError(403, "Invalid delete token")

  /** `FilePublic`: the record without its object key, uploader hash and
      delete-token hash. */
  datatype FilePublic = FilePublic(
    id: string,
    filename: string,
    slug: string,
    fileType: string,
    minecraftVersion: Option<string>,
    loader: Option<string>,
    description: Option<string>,
    tags: Option<string>,
    fileSize: nat,
    sha1Hash: string,
    downloadCount: int,
    createdAt: int,
    lastDownload: Option<int>,
    expireAt: int)

  function ToPublic(f: Repository.FileRecord): (p: FilePublic)
    ensures p.slug == f.slug && p.id == f.id && p.sha1Hash == f.sha1Hash
    ensures p.fileType == Files.FileTypeName(f.fileType)
  {
    FilePublic(f.id, f.filename, f.slug, Files.FileTypeName(f.fileType), f.minecraftVersion, f.loader,
               f.description, f.tags, f.fileSize, f.sha1Hash, f.downloadCount, f.createdAt,
               f.lastDownload, f.expireAt)
  }

  /** `get_public_by_slug`. */
  function GetPublicBySlug(repo: Repository.FileRepository, slug: string): (r: Result<FilePublic, Failure>)
    reads repo
    requires repo.Valid()
    ensures r.Ok? <==> slug in repo.files
    ensures r.Ok? ==> r.value == ToPublic(repo.files[slug]) && r.value.slug == slug
    ensures r.Err? ==> r.error == NotFound
  {
    match repo.GetBySlug(slug)
    case None => Err(NotFound)
    case Some(f) => Ok(ToPublic(f))
  }

  /** `delete_by_slug`: 404 for an unknown slug before any token is looked at,
      403 when the token's HMAC is not the stored hash; otherwise the object
      and then the record are removed. */
  method DeleteBySlug(secret: string, hmac: (string, string) -> string, slug: string, deleteToken: string,
                      repo: Repository.FileRepository, store: S3Storage.ObjectStore) returns (r: Result<(), Failure>)
    requires repo.Valid()
    modifies repo, store
    ensures repo.Valid()
    ensures slug !in old(repo.files) ==> r == Err(NotFound) && unchanged(repo, store)
    ensures slug in old(repo.files) && hmac(secret, deleteToken) != old(repo.files)[slug].deleteTokenHash ==>
              r == Err(InvalidDeleteToken) && unchanged(repo, store)
    ensures slug in old(repo.files) && hmac(secret, deleteToken) == old(repo.files)[slug].deleteTokenHash ==>
              r == Ok(())
              && repo.files == old(repo.files) - {slug}
              && store.objects == old(store.objects) - {old(repo.files)[slug].s3Key}
  {
    var found := repo.GetBySlug(slug);
    if found.None? {
      return Err(NotFound);
    }
    var file := found.value;
    var tokenHash := hmac(secret, deleteToken);
    if tokenHash != file.deleteTokenHash {
      return Err(InvalidDeleteToken);
    }
    store.DeleteObject(file.s3Key);
    repo.Delete(file);
    return Ok(());
  }

  /** After a successful delete the public lookup answers 404, and every other
      slug answers as before. */
  lemma DeletedIsGone(before: map<string, Repository.FileRecord>, slug: string, other: string)
    requires Repository.KeyedBySlug(before) && slug in before && other != slug
    ensures Repository.KeyedBySlug(before - {slug})
    ensures slug !in before - {slug}
    ensures (other in before - {slug}) == (other in before)
    ensures other in before ==> (before - {slug})[other] == before[other]
  {
  }
}
