/** `AnalyticsService.get_file_analytics` of
    `backend/app/services/analytics_service.py`: a read-only count of today's
    downloads of one file. */
module AnalyticsService {
  import opened Common
  import Repository

  const NotFound: Failure := HttpError(404, "File not found")

  /** `FileAnalytics`; `today` is `date.today()`, the server's local date,
      passed through as given. */
  datatype FileAnalytics = FileAnalytics(
    slug: string,
    downloadCount: int,
    lastDownload: Option<int>,
    todayDownloads: nat,
    today: string)

  /** UTC midnight of the day holding `now`. */
  function StartOfDay(now: int): (start: int)
    ensures start <= now < start + SecondsPerDay
    ensures start % SecondsPerDay == 0
  {
    now - now % SecondsPerDay
  }

  /** Rows of file `fileId` at or after `start`. */
  function CountSince(rows: seq<Repository.DownloadRow>, fileId: string, start: int): nat
  {
    if rows == [] then 0
    else (if rows[0].fileId == fileId && rows[0].timestamp >= start then 1 else 0)
         + CountSince(rows[1..], fileId, start)
  }

  /** All rows of file `fileId`. */
  function CountFor(rows: seq<Repository.DownloadRow>, fileId: string): nat
  {
    if rows == [] then 0
    else (if rows[0].fileId == fileId then 1 else 0) + CountFor(rows[1..], fileId)
  }

  /** Today's count never exceeds the file's total rows. */
  lemma {:induction false} TodayAtMostTotal(rows: seq<Repository.DownloadRow>, fileId: string, start: int)
    ensures CountSince(rows, fileId, start) <= CountFor(rows, fileId)
    decreases |rows|
  {
    if rows != [] {
      TodayAtMostTotal(rows[1..], fileId, start);
    }
  }

  /** Rows appended for another file, or from before the start of the day, do
      not change the count. */
  lemma {:induction false} OtherRowsIgnored(rows: seq<Repository.DownloadRow>, row: Repository.DownloadRow,
                                            fileId: string, start: int)
    requires row.fileId != fileId || row.timestamp < start
    ensures CountSince(rows + [row], fileId, start) == CountSince(rows, fileId, start)
    decreases |rows|
  {
    if rows == [] {
      assert [] + [row] == [row];
      assert [row][1..] == [];
    } else {
      OtherRowsIgnored(rows[1..], row, fileId, start);
      assert (rows + [row])[1..] == rows[1..] + [row];
    }
  }

  /** A download logged now counts for today. */
  lemma {:induction false} NewRowCounted(rows: seq<Repository.DownloadRow>, fileId: string, ipHash: string, now: int)
    ensures CountSince(rows + [Repository.DownloadRow(fileId, ipHash, now)], fileId, StartOfDay(now))
            == CountSince(rows, fileId, StartOfDay(now)) + 1
    decreases |rows|
  {
    var row := Repository.DownloadRow(fileId, ipHash, now);
    if rows == [] {
      assert [] + [row] == [row];
      assert [row][1..] == [];
    } else {
      NewRowCounted(rows[1..], fileId, ipHash, now);
      assert (rows + [row])[1..] == rows[1..] + [row];
    }
  }

  /** `get_file_analytics`. */
  function GetFileAnalytics(repo: Repository.FileRepository, log: Repository.DownloadLog, slug: string,
                            now: int, today: string): (r: Result<FileAnalytics, Failure>)
    reads repo, log
    requires repo.Valid()
    ensures r.Err? <==> slug !in repo.files
    ensures r.Err? ==> r.error == NotFound
    ensures r.Ok? ==> var f := repo.files[slug];
      r.value.slug == slug && r.value.downloadCount == f.downloadCount && r.value.lastDownload == f.lastDownload
      && r.value.todayDownloads == CountSince(log.rows, f.id, StartOfDay(now))
      && r.value.todayDownloads <= CountFor(log.rows, f.id)
      && r.value.today == today
  {
    match repo.GetBySlug(slug)
    case None => Err(NotFound)
    case Some(f) =>
      TodayAtMostTotal(log.rows, f.id, StartOfDay(now));
      Ok(FileAnalytics(f.slug, f.downloadCount, f.lastDownload, CountSince(log.rows, f.id, StartOfDay(now)), today))
  }
}
