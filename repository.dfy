/** The `files` and `downloads` tables as the services see them: the records of
    `backend/app/models/file.py` and `backend/app/models/download.py`, and the
    operations of `backend/app/repositories/file_repository.py`. The `files`
    table is a map keyed by slug, the column the schema declares unique.
    Times are seconds since the epoch, in UTC. */
module Repository {
  import opened Common
  import Files

  datatype FileRecord = FileRecord(
    id: string,
    filename: string,
    slug: string,
    fileType: Files.FileType,
    minecraftVersion: Option<string>,
    loader: Option<string>,
    description: Option<string>,
    tags: Option<string>,
    fileSize: nat,
    s3Key: string,
    sha1Hash: string,
    downloadCount: int,
    createdAt: int,
    lastDownload: Option<int>,
    expireAt: int,
    uploaderIpHash: string,
    deleteTokenHash: string)

  /** One row of the download log. */
  datatype DownloadRow = DownloadRow(fileId: string, ipHash: string, timestamp: int)

  /** Every record sits under its own slug. */
  predicate KeyedBySlug(files: map<string, FileRecord>)
  {
    forall s :: s in files ==> files[s].slug == s
  }

  predicate IdTaken(files: map<string, FileRecord>, id: string)
  {
    exists s :: s in files && files[s].id == id
  }

  /** The slugs of the records carrying an uploader hash. */
  function SlugsWithHash(files: map<string, FileRecord>, h: string): set<string>
  {
    set s | s in files && files[s].uploaderIpHash == h
  }

  /** Inserting a record under a new slug counts it once, for its own hash only. */
  lemma CountAfterInsert(files: map<string, FileRecord>, f: FileRecord, h: string)
    requires f.slug !in files
    ensures |SlugsWithHash(files[f.slug := f], h)|
            == |SlugsWithHash(files, h)| + (if f.uploaderIpHash == h then 1 else 0)
  {
    var before := SlugsWithHash(files, h);
    var after := SlugsWithHash(files[f.slug := f], h);
    if f.uploaderIpHash == h {
      assert after == before + {f.slug};
    } else {
      assert after == before;
    }
  }

  /** Removing a record uncounts it, for its own hash only. */
  lemma CountAfterRemove(files: map<string, FileRecord>, slug: string, h: string)
    requires slug in files
    ensures |SlugsWithHash(files - {slug}, h)|
            == |SlugsWithHash(files, h)| - (if files[slug].uploaderIpHash == h then 1 else 0)
  {
    var before := SlugsWithHash(files, h);
    var after := SlugsWithHash(files - {slug}, h);
    if files[slug].uploaderIpHash == h {
      assert after == before - {slug};
    } else {
      assert after == before;
    }
  }

  /** What the flush raises when a constraint refuses the row. */
  const IntegrityError: Failure := Raised("IntegrityError")

  /** `FileRepository` over the session's `files` table. */
  class FileRepository {
    var files: map<string, FileRecord>

    ghost predicate Valid()
      reads this
    {
      KeyedBySlug(files)
    }

    constructor()
      ensures files == map[] && Valid()
    {
      files := map[];
    }

    /** `get_by_slug`: the one record with that slug, or none. */
    function GetBySlug(slug: string): (r: Option<FileRecord>)
      reads this
      requires Valid()
      ensures r.Some? ==> r.value.slug == slug && r.value in files.Values
      ensures r.None? ==> forall s :: s in files ==> files[s].slug != slug
      ensures r.None? <==> slug !in files
    {
      if slug in files then Some(files[slug]) else None
    }

    /** `count_by_uploader_ip_hash`: how many records carry the hash. */
    function CountByUploaderIpHash(h: string): (n: nat)
      reads this
      ensures n == |SlugsWithHash(files, h)|
      ensures n <= |files|
    {
      var slugs := SlugsWithHash(files, h);
      assert slugs <= files.Keys;
      SubsetCard(slugs, files.Keys);
      |slugs|
    }

    /** `add` followed by the flush: the insert fails on a taken slug or id,
        as the unique and primary-key constraints refuse it. */
    method Add(f: FileRecord) returns (r: Result<FileRecord, Failure>)
      requires Valid()
      modifies this
      ensures Valid()
      ensures r.Err? <==> f.slug in old(files) || IdTaken(old(files), f.id)
      ensures r.Err? ==> r.error == IntegrityError && files == old(files)
      ensures r.Ok? ==> r.value == f && files == old(files)[f.slug := f]
      ensures r.Ok? ==> GetBySlug(f.slug) == Some(f)
      ensures r.Ok? ==> forall s :: s != f.slug ==> GetBySlug(s) == old(GetBySlug(s))
    {
      if f.slug in files || IdTaken(files, f.id) {
        return Err(IntegrityError);
      }
      files := files[f.slug := f];
      return Ok(f);
    }

    /** `delete` of a record the session holds. */
    method Delete(f: FileRecord)
      requires Valid() && f.slug in files && files[f.slug] == f
      modifies this
      ensures Valid()
      ensures files == old(files) - {f.slug}
      ensures GetBySlug(f.slug) == None
      ensures forall s :: s != f.slug ==> GetBySlug(s) == old(GetBySlug(s))
    {
      files := files - {f.slug};
    }
  }

  lemma SubsetCard<T>(a: set<T>, b: set<T>)
    requires a <= b
    ensures |a| <= |b|
  {
    if a != {} {
      var x :| x in a;
      SubsetCard(a - {x}, b - {x});
    }
  }

  /** The `downloads` table. */
  class DownloadLog {
    var rows: seq<DownloadRow>

    constructor()
      ensures rows == []
    {
      rows := [];
    }

    /** `DownloadRepository.add`. */
    method Add(row: DownloadRow)
      modifies this
      ensures rows == old(rows) + [row]
    {
      rows := rows + [row];
    }
  }
}
