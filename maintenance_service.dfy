/** `MaintenanceService` of `backend/app/services/maintenance_service.py`: the
    periodic removal of expired files and of old download-log rows. */
module MaintenanceService {
  import opened Common
  import Repository
  import S3Storage

  const CleanupBatch: nat := 200

  predicate IsExpired(f: Repository.FileRecord, now: int) { f.expireAt < now }

  /** The slugs of the expired records. */
  function ExpiredSlugs(files: map<string, Repository.FileRecord>, now: int): set<string>
  {
    set s | s in files && IsExpired(files[s], now)
  }

  /** A possible answer to `select(File).where(File.expire_at < now).limit(200)`:
      distinct expired records, all of them or 200 of them. The query fixes no
      order, so which 200 is left open. */
  predicate ExpiredBatch(files: map<string, Repository.FileRecord>, now: int, batch: seq<string>)
  {
    (forall i :: 0 <= i < |batch| ==> batch[i] in ExpiredSlugs(files, now))
    && (forall i, j :: 0 <= i < j < |batch| ==> batch[i] != batch[j])
    && |batch| <= CleanupBatch
    && (|batch| == CleanupBatch || (forall s :: s in ExpiredSlugs(files, now) ==> s in batch))
  }

  function Prefix(batch: seq<string>, n: nat): set<string>
    requires n <= |batch|
  {
    set i | 0 <= i < n :: batch[i]
  }

  function KeysOf(files: map<string, Repository.FileRecord>, slugs: set<string>): set<string>
    requires slugs <= files.Keys
  {
    set s | s in slugs :: files[s].s3Key
  }

  lemma PrefixStep(batch: seq<string>, i: nat)
    requires i < |batch|
    requires forall a, b :: 0 <= a < b < |batch| ==> batch[a] != batch[b]
    ensures Prefix(batch, i + 1) == Prefix(batch, i) + {batch[i]}
    ensures batch[i] !in Prefix(batch, i)
  {
  }

  lemma MapMinusStep<K, V>(m: map<K, V>, gone: set<K>, k: K)
    ensures (m - gone) - {k} == m - (gone + {k})
  {
  }

  lemma KeysOfAdd(files: map<string, Repository.FileRecord>, slugs: set<string>, s: string)
    requires slugs <= files.Keys && s in files
    ensures KeysOf(files, slugs + {s}) == KeysOf(files, slugs) + {files[s].s3Key}
  {
  }

  /** `cleanup_expired_files`: every record of the batch loses its object and
      is deleted; the result is the batch size. */
  method CleanupExpiredFiles(now: int, batch: seq<string>, repo: Repository.FileRepository,
                             store: S3Storage.ObjectStore) returns (n: nat)
    requires repo.Valid() && ExpiredBatch(repo.files, now, batch)
    modifies repo, store
    ensures repo.Valid()
    ensures n == |batch|
    ensures repo.files == old(repo.files) - Prefix(batch, |batch|)
    ensures store.objects == old(store.objects) - KeysOf(old(repo.files), Prefix(batch, |batch|))
  {
    ghost var files0 := repo.files;
    ghost var objects0 := store.objects;
    var i := 0;
    while i < |batch|
      invariant 0 <= i <= |batch|
      invariant repo.Valid()
      invariant Prefix(batch, i) <= files0.Keys
      invariant repo.files == files0 - Prefix(batch, i)
      invariant store.objects == objects0 - KeysOf(files0, Prefix(batch, i))
    {
      var slug := batch[i];
      PrefixStep(batch, i);
      KeysOfAdd(files0, Prefix(batch, i), slug);
      MapMinusStep(files0, Prefix(batch, i), slug);
      MapMinusStep(objects0, KeysOf(files0, Prefix(batch, i)), files0[slug].s3Key);
      var f := repo.files[slug];
      store.DeleteObject(f.s3Key);
      repo.Delete(f);
      i := i + 1;
    }
    return |batch|;
  }

  /** A cleanup run deletes at most 200 files, only expired ones, and leaves
      every other record as it was; a record expiring exactly now survives. */
  lemma CleanupBounds(files: map<string, Repository.FileRecord>, now: int, batch: seq<string>)
    requires ExpiredBatch(files, now, batch)
    ensures |Prefix(batch, |batch|)| <= CleanupBatch
    ensures forall s :: s in Prefix(batch, |batch|) ==> s in files && files[s].expireAt < now
    ensures forall s :: s in files && files[s].expireAt >= now ==> s !in Prefix(batch, |batch|)
  {
    DistinctCard(batch);
  }

  lemma {:induction false} DistinctCard(batch: seq<string>)
    requires forall i, j :: 0 <= i < j < |batch| ==> batch[i] != batch[j]
    ensures |Prefix(batch, |batch|)| == |batch|
    decreases |batch|
  {
    if batch != [] {
      var init := batch[..|batch| - 1];
      DistinctCard(init);
      assert Prefix(init, |init|) == Prefix(batch, |batch| - 1);
      assert Prefix(batch, |batch|) == Prefix(batch, |batch| - 1) + {batch[|batch| - 1]};
    }
  }

  // ---------------------------------------------------------------- log pruning

  /** The rows `prune_download_logs` keeps: those at or after the cutoff. */
  function KeepRecent(rows: seq<Repository.DownloadRow>, cutoff: int): (r: seq<Repository.DownloadRow>)
    ensures forall i :: 0 <= i < |r| ==> r[i].timestamp >= cutoff && r[i] in rows
  {
    if rows == [] then []
    else (if rows[0].timestamp >= cutoff then [rows[0]] else []) + KeepRecent(rows[1..], cutoff)
  }

  /** Pruning a concatenation prunes each part and keeps them in order. */
  lemma {:induction false} KeepRecentAppend(a: seq<Repository.DownloadRow>, b: seq<Repository.DownloadRow>, cutoff: int)
    ensures KeepRecent(a + b, cutoff) == KeepRecent(a, cutoff) + KeepRecent(b, cutoff)
    decreases |a|
  {
    if a == [] {
      assert a + b == b;
    } else {
      assert (a + b)[0] == a[0] && (a + b)[1..] == a[1..] + b;
      KeepRecentAppend(a[1..], b, cutoff);
    }
  }

  /** One row is kept exactly when it is at or after the cutoff. */
  lemma KeepRecentSingle(row: Repository.DownloadRow, cutoff: int)
    ensures KeepRecent([row], cutoff) == (if row.timestamp >= cutoff then [row] else [])
  {
    assert [row][1..] == [];
    assert KeepRecent([row][1..], cutoff) == [];
  }

  /** How many rows fall before the cutoff. */
  function CountOld(rows: seq<Repository.DownloadRow>, cutoff: int): nat
  {
    if rows == [] then 0
    else (if rows[0].timestamp < cutoff then 1 else 0) + CountOld(rows[1..], cutoff)
  }

  /** Every row is either kept or counted as removed. */
  lemma {:induction false} KeptPlusRemoved(rows: seq<Repository.DownloadRow>, cutoff: int)
    ensures |KeepRecent(rows, cutoff)| + CountOld(rows, cutoff) == |rows|
    decreases |rows|
  {
    if rows != [] {
      KeptPlusRemoved(rows[1..], cutoff);
    }
  }

  /** Every row at or after the cutoff is kept. */
  lemma {:induction false} RecentRowsKept(rows: seq<Repository.DownloadRow>, cutoff: int)
    ensures forall row :: row in rows && row.timestamp >= cutoff ==> row in KeepRecent(rows, cutoff)
    decreases |rows|
  {
    if rows != [] {
      RecentRowsKept(rows[1..], cutoff);
      forall row | row in rows && row.timestamp >= cutoff
        ensures row in KeepRecent(rows, cutoff)
      {
        if row != rows[0] {
          assert row in rows[1..];
        }
      }
    }
  }

  /** `prune_download_logs`: bulk delete of the rows older than the retention
      period; the result is how many went. */
  method PruneDownloadLogs(now: int, retentionDays: int, log: Repository.DownloadLog) returns (n: nat)
    modifies log
    ensures log.rows == KeepRecent(old(log.rows), now - retentionDays * SecondsPerDay)
    ensures n == CountOld(old(log.rows), now - retentionDays * SecondsPerDay)
    ensures n == |old(log.rows)| - |log.rows|
  {
    var cutoff := now - retentionDays * SecondsPerDay;
    KeptPlusRemoved(log.rows, cutoff);
    n := CountOld(log.rows, cutoff);
    log.rows := KeepRecent(log.rows, cutoff);
  }
}
