/**
 * `WatchHistoryRepository` and `WatchHistoryService`: the viewing progress of
 * a profile, one record per title (or per episode), upserted on every
 * progress report and read back grouped by title, latest first.
 */
module WatchHistory {
  import opened Wrappers
  import opened Clock
  import opened Decimal
  import opened Sequences
  import opened Repository
  import opened Entities
  import opened Profiles
  import opened Catalogue

  /** `WatchHistoryCreateDto`. */
  datatype WatchReport = WatchReport(
    profileId: int, contentId: int, episodeId: Option<int>,
    watchedPercentage: real, watchedDuration: Duration, isCompleted: bool)

  /** `WatchHistoryUpdateDto`. */
  datatype WatchUpdate = WatchUpdate(watchedPercentage: real, watchedDuration: Duration, isCompleted: bool)

  /**
   * `WatchHistoryResponseDto`. A title that is not live leaves the default
   * summary in place; here that default is `None`.
   */
  datatype WatchView = WatchView(
    id: int, userId: int, profileId: int, contentId: int, episodeId: Option<int>,
    watchedPercentage: real, lastWatched: Instant, watchedDuration: Duration, isCompleted: bool,
    content: Option<ContentSummary>, episode: Option<EpisodeView>)

  /** `ContinueWatchingDto`. */
  datatype ContinueItem = ContinueItem(
    contentId: int, episodeId: Option<int>, title: string, thumbnailUrl: string,
    contentType: string, watchedPercentage: real, lastWatched: Instant)

  /** `OrderByDescending(LastWatched)`. */
  function LatestOrder(w: Row<WatchData>): Key {
    Key(-w.data.lastWatched, 0)
  }

  /** The selector of a profile's live records. */
  function OfProfile(profileId: int): Row<WatchData> -> bool {
    (w: Row<WatchData>) => w.data.profileId == profileId && !w.isDeleted
  }

  /** The selector of a profile's live, unfinished records. */
  function Resumable(profileId: int): Row<WatchData> -> bool {
    (w: Row<WatchData>) => w.data.profileId == profileId && !w.data.isCompleted && !w.isDeleted
  }

  function IsDone(w: Row<WatchData>): bool {
    w.data.isCompleted
  }

  /** The latest-first grouping before its final ordering. */
  function Groups(records: seq<Row<WatchData>>): seq<Row<WatchData>> {
    FirstPerKey(SortBy(records, LatestOrder), ContentIdOf)
  }

  lemma GroupsInRecords(records: seq<Row<WatchData>>)
    ensures forall w :: w in Groups(records) ==> w in records
  {
    var sorted := SortBy(records, LatestOrder);
    assert forall e :: e in sorted ==> e in multiset(records);
  }

  lemma GroupsSorted(records: seq<Row<WatchData>>)
    ensures SortedBy(Groups(records), LatestOrder)
  {
    FirstPerKeySorted(SortBy(records, LatestOrder), ContentIdOf, LatestOrder);
  }

  lemma GroupsCover(records: seq<Row<WatchData>>)
    ensures forall e :: e in records ==> exists i :: 0 <= i < |Groups(records)| && Groups(records)[i].data.contentId == e.data.contentId
  {
    var sorted := SortBy(records, LatestOrder);
    forall e | e in records
      ensures exists i :: 0 <= i < |Groups(records)| && Groups(records)[i].data.contentId == e.data.contentId
    {
      assert e in multiset(sorted);
      FirstPerKeyCovers(sorted, ContentIdOf, e);
      var j :| 0 <= j < |FirstPerKey(sorted, ContentIdOf)| && ContentIdOf(FirstPerKey(sorted, ContentIdOf)[j]) == ContentIdOf(e);
      assert Groups(records)[j].data.contentId == e.data.contentId;
    }
  }

  lemma GroupsLatest(records: seq<Row<WatchData>>)
    ensures forall i, e :: 0 <= i < |Groups(records)| && e in records && e.data.contentId == Groups(records)[i].data.contentId ==>
      Groups(records)[i].data.lastWatched >= e.data.lastWatched
  {
    var sorted := SortBy(records, LatestOrder);
    var groups := Groups(records);
    forall i, e | 0 <= i < |groups| && e in records && e.data.contentId == groups[i].data.contentId
      ensures groups[i].data.lastWatched >= e.data.lastWatched
    {
      assert e in multiset(sorted);
      FirstPerKeyLeast(sorted, ContentIdOf, LatestOrder, i, e);
    }
  }

  /**
   * `OrderByDescending(LastWatched).GroupBy(ContentId).Select(g => g.First())
   * .OrderByDescending(LastWatched)`: the latest record of each title, latest
   * first.
   */
  function LatestPerContent(records: seq<Row<WatchData>>): (r: seq<Row<WatchData>>)
    ensures forall w :: w in r ==> w in records
    ensures forall i, j :: 0 <= i < j < |r| ==> r[i].data.contentId != r[j].data.contentId
    ensures forall i, j :: 0 <= i < j < |r| ==> r[i].data.lastWatched >= r[j].data.lastWatched
  {
    GroupsSorted(records);
    SortByOfSorted(Groups(records), LatestOrder);
    FirstPerKeyDistinct(SortBy(records, LatestOrder), ContentIdOf);
    GroupsInRecords(records);
    SortBy(Groups(records), LatestOrder)
  }

  /**
   * Every title among the records is represented, and by a record watched no
   * earlier than any other record of that title.
   */
  lemma LatestPerContentIsLatest(records: seq<Row<WatchData>>)
    ensures forall e :: e in records ==>
      exists i :: 0 <= i < |LatestPerContent(records)| && LatestPerContent(records)[i].data.contentId == e.data.contentId
    ensures forall i, e :: (0 <= i < |LatestPerContent(records)| && e in records
      && e.data.contentId == LatestPerContent(records)[i].data.contentId) ==>
      LatestPerContent(records)[i].data.lastWatched >= e.data.lastWatched
  {
    GroupsSorted(records);
    SortByOfSorted(Groups(records), LatestOrder);
    assert LatestPerContent(records) == Groups(records);
    GroupsCover(records);
    GroupsLatest(records);
  }

  /** `GetWatchHistoryByProfileIdAsync` in the repository: the latest live record of each title the profile watched. */
  function ByProfile(db: Db, profileId: int): (r: seq<Row<WatchData>>)
    ensures forall w :: w in r ==> w in db.watchHistory.rows && OfProfile(profileId)(w)
    ensures forall i, j :: 0 <= i < j < |r| ==> r[i].data.contentId != r[j].data.contentId
    ensures forall i, j :: 0 <= i < j < |r| ==> r[i].data.lastWatched >= r[j].data.lastWatched
  {
    LatestPerContent(Filter(db.watchHistory.rows, OfProfile(profileId)))
  }

  /**
   * Every title the profile has a live record of appears in its history, and
   * by a record watched no earlier than any live record of that title.
   */
  lemma ByProfileIsLatest(db: Db, profileId: int, e: Row<WatchData>) returns (k: int)
    requires e in db.watchHistory.rows && OfProfile(profileId)(e)
    ensures 0 <= k < |ByProfile(db, profileId)| && ByProfile(db, profileId)[k].data.contentId == e.data.contentId
    ensures forall i :: 0 <= i < |ByProfile(db, profileId)| && ByProfile(db, profileId)[i].data.contentId == e.data.contentId ==>
      ByProfile(db, profileId)[i].data.lastWatched >= e.data.lastWatched
  {
    var records := Filter(db.watchHistory.rows, OfProfile(profileId));
    var r := ByProfile(db, profileId);
    assert e in records;
    k := GroupOf(records, e);
    assert r == LatestPerContent(records);
    forall i | 0 <= i < |r| && r[i].data.contentId == e.data.contentId
      ensures r[i].data.lastWatched >= e.data.lastWatched
    {
      assert i == k;
    }
  }

  /**
   * `GetContinueWatchingAsync` in the repository: the latest unfinished record
   * of each title, latest first, cut to `limit`. Finished records are dropped
   * before grouping.
   */
  function ContinueWatching(db: Db, profileId: int, limit: int): (r: seq<Row<WatchData>>)
    ensures limit >= 0 ==> |r| <= limit
    ensures limit <= 0 ==> r == []
    ensures var all := LatestPerContent(Filter(db.watchHistory.rows, Resumable(profileId)));
      limit >= 0 ==> |r| == (if limit < |all| then limit else |all|)
    ensures forall w :: w in r ==> w in db.watchHistory.rows && Resumable(profileId)(w)
    ensures forall i, j :: 0 <= i < j < |r| ==> r[i].data.contentId != r[j].data.contentId
    ensures forall i, j :: 0 <= i < j < |r| ==> r[i].data.lastWatched >= r[j].data.lastWatched
    ensures |r| <= |LatestPerContent(Filter(db.watchHistory.rows, Resumable(profileId)))|
    ensures r == LatestPerContent(Filter(db.watchHistory.rows, Resumable(profileId)))[..|r|]
  {
    var all := LatestPerContent(Filter(db.watchHistory.rows, Resumable(profileId)));
    var r := Take(all, limit);
    PrefixOfLatest(all, r);
    r
  }

  /** A prefix of a latest-first list of distinct titles is itself one, and holds only its records. */
  lemma PrefixOfLatest(all: seq<Row<WatchData>>, r: seq<Row<WatchData>>)
    requires |r| <= |all| && r == all[..|r|]
    requires forall i, j :: 0 <= i < j < |all| ==> all[i].data.contentId != all[j].data.contentId
    requires forall i, j :: 0 <= i < j < |all| ==> all[i].data.lastWatched >= all[j].data.lastWatched
    ensures forall w :: w in r ==> w in all
    ensures forall i, j :: 0 <= i < j < |r| ==> r[i].data.contentId != r[j].data.contentId
    ensures forall i, j :: 0 <= i < j < |r| ==> r[i].data.lastWatched >= r[j].data.lastWatched
  {
  }

  /** The position of the record that represents `e`'s title. */
  lemma GroupOf(records: seq<Row<WatchData>>, e: Row<WatchData>) returns (k: int)
    requires e in records
    ensures 0 <= k < |LatestPerContent(records)|
    ensures LatestPerContent(records)[k].data.contentId == e.data.contentId
    ensures LatestPerContent(records)[k].data.lastWatched >= e.data.lastWatched
  {
    LatestPerContentIsLatest(records);
    k :| 0 <= k < |LatestPerContent(records)| && LatestPerContent(records)[k].data.contentId == e.data.contentId;
  }

  /** In a latest-first list, a prefix that misses the title at `k` holds only records watched no earlier. */
  lemma PrefixBeforeGroup(all: seq<Row<WatchData>>, n: int, k: int, contentId: int)
    requires 0 <= n <= |all| && 0 <= k < |all| && all[k].data.contentId == contentId
    requires forall i, j :: 0 <= i < j < |all| ==> all[i].data.lastWatched >= all[j].data.lastWatched
    requires forall i :: 0 <= i < n ==> all[i].data.contentId != contentId
    ensures forall i :: 0 <= i < n ==> all[i].data.lastWatched >= all[k].data.lastWatched
  {
    assert n <= k;
  }

  /**
   * A title the profile has an unfinished record of, missing from the
   * continue-watching list, was watched no later than every title on it.
   */
  lemma ContinueWatchingIsLatest(db: Db, profileId: int, limit: int, e: Row<WatchData>)
    requires e in db.watchHistory.rows && Resumable(profileId)(e)
    requires forall i :: 0 <= i < |ContinueWatching(db, profileId, limit)| ==>
      ContinueWatching(db, profileId, limit)[i].data.contentId != e.data.contentId
    ensures forall i :: 0 <= i < |ContinueWatching(db, profileId, limit)| ==>
      ContinueWatching(db, profileId, limit)[i].data.lastWatched >= e.data.lastWatched
    ensures limit >= 0 ==> |ContinueWatching(db, profileId, limit)| == limit
  {
    var records := Filter(db.watchHistory.rows, Resumable(profileId));
    var all := LatestPerContent(records);
    var r := ContinueWatching(db, profileId, limit);
    var k := GroupOf(records, e);
    assert limit >= 0 ==> |r| == limit by {
      if limit >= 0 && |r| != limit {
        assert false;
      }
    }
    assert forall i :: 0 <= i < |r| ==> r[i] == all[i];
    PrefixBeforeGroup(all, |r|, k, e.data.contentId);
    forall i | 0 <= i < |r|
      ensures r[i].data.lastWatched >= e.data.lastWatched
    {
      assert r[i] == all[i];
      assert all[i].data.lastWatched >= all[k].data.lastWatched;
    }
  }

  /** `GetCompletedWatchHistoryAsync`: the by-profile records that are finished. */
  function Completed(db: Db, profileId: int): (r: seq<Row<WatchData>>)
    ensures forall w :: w in r <==> w in ByProfile(db, profileId) && w.data.isCompleted
  {
    Filter(ByProfile(db, profileId), IsDone)
  }

  /**
   * Only the latest record of a title decides whether it is finished: a
   * title whose strictly latest record is unfinished is not in the completed
   * list, even when an older record of it is finished.
   */
  lemma LatestUnfinishedHidesOlderCompletion(db: Db, profileId: int, e: Row<WatchData>)
    requires e in db.watchHistory.rows && OfProfile(profileId)(e) && !e.data.isCompleted
    requires forall w :: w in db.watchHistory.rows && OfProfile(profileId)(w) && w.data.contentId == e.data.contentId && w != e ==>
      w.data.lastWatched < e.data.lastWatched
    ensures forall w :: w in Completed(db, profileId) ==> w.data.contentId != e.data.contentId
  {
    var r := ByProfile(db, profileId);
    var k := ByProfileIsLatest(db, profileId, e);
    assert r[k] == e by {
      assert r[k] in r;
    }
    forall w | w in Completed(db, profileId)
      ensures w.data.contentId != e.data.contentId
    {
      assert w in r && w.data.isCompleted;
      var m :| 0 <= m < |r| && r[m] == w;
      assert m != k;
    }
  }

  /** The selector of `GetWatchHistoryByContentAndProfileAsync`: no episode given matches any episode. */
  function Matches(contentId: int, profileId: int, episodeId: Option<int>): Row<WatchData> -> bool {
    (w: Row<WatchData>) =>
      w.data.contentId == contentId && w.data.profileId == profileId
      && (episodeId.None? || w.data.episodeId == episodeId) && !w.isDeleted
  }

  /** `GetWatchHistoryByContentAndProfileAsync` in the repository: the first live match, in table order. */
  function FindRecord(db: Db, contentId: int, profileId: int, episodeId: Option<int>): (r: Option<Row<WatchData>>)
    ensures r.None? <==> forall w :: w in db.watchHistory.rows ==> !Matches(contentId, profileId, episodeId)(w)
    ensures r.Some? ==> r.value in db.watchHistory.rows && Matches(contentId, profileId, episodeId)(r.value)
  {
    FirstWhere(db.watchHistory.rows, Matches(contentId, profileId, episodeId))
  }

  /** A record found for a given episode is also found when no episode is given. */
  lemma WildcardFindsEveryEpisode(db: Db, contentId: int, profileId: int, episodeId: int)
    requires FindRecord(db, contentId, profileId, Some(episodeId)).Some?
    ensures FindRecord(db, contentId, profileId, None).Some?
    ensures FindRecord(db, contentId, profileId, None).value.data.contentId == contentId
  {
    var w := FindRecord(db, contentId, profileId, Some(episodeId)).value;
    assert Matches(contentId, profileId, None)(w);
  }

  /** `MapWatchHistoryToResponseDto`: the live title and the live episode are looked up again. */
  function ViewRecord(db: Db, w: Row<WatchData>): (v: WatchView)
    ensures v.id == w.id && v.contentId == w.data.contentId && v.episodeId == w.data.episodeId
    ensures v.userId == w.data.userId && v.profileId == w.data.profileId
    ensures v.lastWatched == w.data.lastWatched && v.isCompleted == w.data.isCompleted
    ensures v.watchedPercentage == w.data.watchedPercentage && v.watchedDuration == w.data.watchedDuration
    ensures v.content.Some? <==> Live(db.contents, w.data.contentId)
    ensures v.episode.Some? <==> w.data.episodeId.Some? && Live(db.episodes, w.data.episodeId.value)
  {
    var content := match GetById(db.contents, w.data.contentId)
      case None => None
      case Some(c) => Some(Summarize(c));
    var episode := if w.data.episodeId.None? then None
      else match GetById(db.episodes, w.data.episodeId.value)
        case None => None
        case Some(e) => Some(EpisodeView(e.id, e.data));
    WatchView(w.id, w.data.userId, w.data.profileId, w.data.contentId, w.data.episodeId,
      w.data.watchedPercentage, w.data.lastWatched, w.data.watchedDuration, w.data.isCompleted, content, episode)
  }

  function ViewRecords(db: Db, ws: seq<Row<WatchData>>): (r: seq<WatchView>)
    ensures |r| == |ws| && forall i :: 0 <= i < |ws| ==> r[i] == ViewRecord(db, ws[i])
  {
    seq(|ws|, i requires 0 <= i < |ws| => ViewRecord(db, ws[i]))
  }

  /** `GetWatchHistoryByProfileIdAsync` in the service: one view per title, latest first. */
  function GetWatchHistoryByProfileId(db: Db, profileId: int): (r: seq<WatchView>)
    ensures |r| == |ByProfile(db, profileId)|
    ensures forall i :: 0 <= i < |r| ==> r[i].profileId == profileId && r[i].id == ByProfile(db, profileId)[i].id
    ensures forall i :: 0 <= i < |r| ==> exists w :: w in db.watchHistory.rows && !w.isDeleted && w.id == r[i].id
    ensures forall i, j :: 0 <= i < j < |r| ==> r[i].contentId != r[j].contentId && r[i].lastWatched >= r[j].lastWatched
  {
    var ws := ByProfile(db, profileId);
    var r := ViewRecords(db, ws);
    ViewsOfHistory(db, profileId, ws, r);
    r
  }

  /** Views of a profile's latest-first records with distinct titles keep those properties. */
  lemma ViewsOfHistory(db: Db, profileId: int, ws: seq<Row<WatchData>>, r: seq<WatchView>)
    requires |r| == |ws| && forall i :: 0 <= i < |ws| ==> r[i] == ViewRecord(db, ws[i])
    requires forall w :: w in ws ==> w in db.watchHistory.rows && OfProfile(profileId)(w)
    requires forall i, j :: 0 <= i < j < |ws| ==> ws[i].data.contentId != ws[j].data.contentId
    requires forall i, j :: 0 <= i < j < |ws| ==> ws[i].data.lastWatched >= ws[j].data.lastWatched
    ensures forall i :: 0 <= i < |r| ==> r[i].profileId == profileId && r[i].id == ws[i].id
    ensures forall i :: 0 <= i < |r| ==> ws[i] in db.watchHistory.rows && !ws[i].isDeleted
    ensures forall i, j :: 0 <= i < j < |r| ==> r[i].contentId != r[j].contentId && r[i].lastWatched >= r[j].lastWatched
  {
    forall i | 0 <= i < |r|
      ensures r[i].profileId == profileId && ws[i] in db.watchHistory.rows && !ws[i].isDeleted
    {
      assert ws[i] in ws;
    }
  }

  /** `GetCompletedWatchHistoryAsync` in the service: one view per finished title. */
  function GetCompletedWatchHistory(db: Db, profileId: int): (r: seq<WatchView>)
    ensures |r| == |Completed(db, profileId)|
    ensures forall i :: 0 <= i < |r| ==> r[i].isCompleted && r[i].profileId == profileId
  {
    var ws := Completed(db, profileId);
    assert forall i :: 0 <= i < |ws| ==> ws[i] in ws;
    ViewRecords(db, ws)
  }

  function NoRecordFor(contentId: int, profileId: int): Exception {
    KeyNotFound("Watch history not found for content " + IntToString(contentId) + " and profile " + IntToString(profileId))
  }

  /** `GetWatchHistoryByContentAndProfileAsync` in the service: the found record's view, or not-found. */
  function GetWatchHistoryByContentAndProfile(db: Db, contentId: int, profileId: int, episodeId: Option<int>): (r: Result<WatchView>)
    ensures r.Err? <==> forall w :: w in db.watchHistory.rows ==> !Matches(contentId, profileId, episodeId)(w)
    ensures r.Err? ==> r.error == NoRecordFor(contentId, profileId)
    ensures r.Ok? ==> r.value.contentId == contentId && r.value.profileId == profileId
    ensures r.Ok? && episodeId.Some? ==> r.value.episodeId == episodeId
  {
    match FindRecord(db, contentId, profileId, episodeId)
    case None => Err(NoRecordFor(contentId, profileId))
    case Some(w) => Ok(ViewRecord(db, w))
  }

  /** The progress fields of a record after a report or an update at `now`. */
  function Progress(w: Row<WatchData>, percentage: real, duration: Duration, completed: bool, now: Instant): (r: Row<WatchData>)
    ensures r.id == w.id && r.isDeleted == w.isDeleted && r.createdAt == w.createdAt
    ensures r.data.contentId == w.data.contentId && r.data.profileId == w.data.profileId
    ensures r.data.episodeId == w.data.episodeId && r.data.userId == w.data.userId
  {
    w.(data := w.data.(watchedPercentage := percentage, watchedDuration := duration, isCompleted := completed,
                       lastWatched := now),
       updatedAt := Some(now))
  }

  /** Why a report is refused: the first of the profile, the title and the episode that is not live. */
  function ReportError(db: Db, dto: WatchReport): Option<Exception> {
    if !Live(db.profiles, dto.profileId) then Some(NotFound("Profile", dto.profileId))
    else if !Live(db.contents, dto.contentId) then Some(NotFound("Content", dto.contentId))
    else if dto.episodeId.Some? && !Live(db.episodes, dto.episodeId.value) then Some(NotFound("Episode", dto.episodeId.value))
    else None
  }

  /**
   * `CreateOrUpdateWatchHistoryAsync`: after the profile, title and episode
   * checks, the record the lookup finds is overwritten in place; otherwise a
   * record is added for the profile's owner. Either way it is stamped `now`.
   */
  function CreateOrUpdate(db: Db, dto: WatchReport, now: Instant): (r: (Result<WatchView>, Db))
    ensures r.0.Err? <==> ReportError(db, dto).Some?
    ensures r.0.Err? ==> r.0.error == ReportError(db, dto).value && r.1 == db
    ensures r.1 == db.(watchHistory := r.1.watchHistory)
    ensures r.0.Ok? ==> r.0.value.lastWatched == now && r.0.value.isCompleted == dto.isCompleted
    ensures r.0.Ok? ==> r.0.value.contentId == dto.contentId && r.0.value.profileId == dto.profileId
    ensures r.0.Ok? && FindRecord(db, dto.contentId, dto.profileId, dto.episodeId).Some? ==>
      var found := FindRecord(db, dto.contentId, dto.profileId, dto.episodeId).value;
      r.1.watchHistory == Put(db.watchHistory, Progress(found, dto.watchedPercentage, dto.watchedDuration, dto.isCompleted, now))
    ensures r.0.Ok? && FindRecord(db, dto.contentId, dto.profileId, dto.episodeId).None? ==>
      var owner := GetById(db.profiles, dto.profileId).value.data.userId;
      r.1.watchHistory.rows == db.watchHistory.rows + [Row(r.0.value.id, now, None, false,
        WatchData(owner, dto.profileId, dto.contentId, dto.episodeId, dto.watchedPercentage, dto.watchedDuration, now, dto.isCompleted))]
    ensures Valid(db.watchHistory) ==> Valid(r.1.watchHistory)
  {
    match ReportError(db, dto)
    case Some(error) => (Err(error), db)
    case None =>
      var owner := GetById(db.profiles, dto.profileId).value.data.userId;
      match FindRecord(db, dto.contentId, dto.profileId, dto.episodeId)
      case Some(found) =>
        var updated := Progress(found, dto.watchedPercentage, dto.watchedDuration, dto.isCompleted, now);
        var db' := db.(watchHistory := Put(db.watchHistory, updated));
        (Ok(ViewRecord(db', updated)), db')
      case None =>
        var data := WatchData(owner, dto.profileId, dto.contentId, dto.episodeId,
          dto.watchedPercentage, dto.watchedDuration, now, dto.isCompleted);
        var (table, row) := Add(db.watchHistory, data, now);
        var db' := db.(watchHistory := table);
        (Ok(ViewRecord(db', row)), db')
  }

  /** Number of live records the lookup for a key can find. */
  function MatchCount(db: Db, contentId: int, profileId: int, episodeId: Option<int>): nat {
    Count(db.watchHistory.rows, Matches(contentId, profileId, episodeId))
  }

  /**
   * An upsert never adds a second record for its key: with at most one
   * matching record before, there is exactly one after.
   */
  lemma UpsertLeavesOneMatch(db: Db, dto: WatchReport, now: Instant)
    requires Valid(db.watchHistory) && MatchCount(db, dto.contentId, dto.profileId, dto.episodeId) <= 1
    requires CreateOrUpdate(db, dto, now).0.Ok?
    ensures MatchCount(CreateOrUpdate(db, dto, now).1, dto.contentId, dto.profileId, dto.episodeId) == 1
  {
    var db' := CreateOrUpdate(db, dto, now).1;
    var p := Matches(dto.contentId, dto.profileId, dto.episodeId);
    var xs := db.watchHistory.rows;
    var ys := db'.watchHistory.rows;
    CountZero(xs, p);
    match FindRecord(db, dto.contentId, dto.profileId, dto.episodeId)
    case Some(found) =>
      var updated := Progress(found, dto.watchedPercentage, dto.watchedDuration, dto.isCompleted, now);
      var k :| 0 <= k < |xs| && xs[k] == found;
      forall i | 0 <= i < |xs|
        ensures p(xs[i]) <==> p(ys[i])
      {
        if xs[i].id == found.id {
          assert i == k;
        }
      }
      CountAgree(xs, ys, p);
    case None =>
      var x := ys[|ys| - 1];
      assert ys == xs + [x];
      CountAppend(xs, x, p);
  }

  /** Reporting the same progress twice for a title never seen before leaves one record for it. */
  lemma UpsertTwiceLeavesOne(db: Db, dto: WatchReport, now: Instant, later: Instant)
    requires Valid(db.watchHistory) && FindRecord(db, dto.contentId, dto.profileId, dto.episodeId).None?
    requires CreateOrUpdate(db, dto, now).0.Ok?
    ensures var db' := CreateOrUpdate(db, dto, now).1;
      && CreateOrUpdate(db', dto, later).0.Ok?
      && MatchCount(CreateOrUpdate(db', dto, later).1, dto.contentId, dto.profileId, dto.episodeId) == 1
  {
    var db' := CreateOrUpdate(db, dto, now).1;
    CountZero(db.watchHistory.rows, Matches(dto.contentId, dto.profileId, dto.episodeId));
    UpsertLeavesOneMatch(db, dto, now);
    UpsertLeavesOneMatch(db', dto, later);
  }

  /**
   * A report that names no episode overwrites the first record of the title,
   * whatever episode that record is about, and keeps that episode.
   */
  lemma ReportWithoutEpisodeOverwritesEpisodeRecord(db: Db, dto: WatchReport, now: Instant, w: Row<WatchData>)
    requires dto.episodeId.None? && ReportError(db, dto).None?
    requires FindRecord(db, dto.contentId, dto.profileId, None) == Some(w) && w.data.episodeId.Some?
    ensures CreateOrUpdate(db, dto, now).0.value.episodeId == w.data.episodeId
    ensures |CreateOrUpdate(db, dto, now).1.watchHistory.rows| == |db.watchHistory.rows|
  {
  }

  /** `UpdateWatchHistoryAsync`: overwrites the progress of a live record, or not-found. */
  function UpdateWatchHistory(db: Db, watchHistoryId: int, u: WatchUpdate, now: Instant): (r: (Result<WatchView>, Db))
    ensures r.0.Err? <==> !Live(db.watchHistory, watchHistoryId)
    ensures r.0.Err? ==> r.0.error == NotFound("Watch history", watchHistoryId) && r.1 == db
    ensures r.1 == db.(watchHistory := r.1.watchHistory)
    ensures r.0.Ok? ==> var before := GetById(db.watchHistory, watchHistoryId).value;
      r.1.watchHistory == Put(db.watchHistory, Progress(before, u.watchedPercentage, u.watchedDuration, u.isCompleted, now))
  {
    match GetById(db.watchHistory, watchHistoryId)
    case None => (Err(NotFound("Watch history", watchHistoryId)), db)
    case Some(w) =>
      var updated := Progress(w, u.watchedPercentage, u.watchedDuration, u.isCompleted, now);
      var db' := db.(watchHistory := Put(db.watchHistory, updated));
      (Ok(ViewRecord(db', updated)), db')
  }

  /** `GetWatchHistoryByIdAsync`. */
  function GetWatchHistoryById(db: Db, watchHistoryId: int): (r: Result<WatchView>)
    ensures r.Err? <==> !Live(db.watchHistory, watchHistoryId)
    ensures r.Err? ==> r.error == NotFound("Watch history", watchHistoryId)
    ensures r.Ok? ==> r.value.id == watchHistoryId
    ensures r.Ok? ==> exists w :: (w in db.watchHistory.rows && !w.isDeleted && w.id == watchHistoryId
                                   && r.value == ViewRecord(db, w))
  {
    match GetById(db.watchHistory, watchHistoryId)
    case None => Err(NotFound("Watch history", watchHistoryId))
    case Some(w) =>
      assert w in db.watchHistory.rows && !w.isDeleted && w.id == watchHistoryId;
      Ok(ViewRecord(db, w))
  }

  /** `DeleteWatchHistoryAsync`: a soft delete. */
  function DeleteWatchHistory(db: Db, watchHistoryId: int, now: Instant): (r: (bool, Db))
    ensures r.0 <==> Live(db.watchHistory, watchHistoryId)
    ensures !r.0 ==> r.1 == db
    ensures r.1 == db.(watchHistory := r.1.watchHistory)
    ensures r.0 ==> Stored(r.1.watchHistory, watchHistoryId) && !Live(r.1.watchHistory, watchHistoryId)
    ensures forall other :: other != watchHistoryId ==> GetById(r.1.watchHistory, other) == GetById(db.watchHistory, other)
  {
    var (ok, table) := SoftDelete(db.watchHistory, watchHistoryId, now);
    (ok, db.(watchHistory := table))
  }

  /** After a delete the record is not found; every other record reads as before. */
  lemma DeleteWatchHistoryThenNotFound(db: Db, watchHistoryId: int, now: Instant)
    requires Live(db.watchHistory, watchHistoryId)
    ensures var db' := DeleteWatchHistory(db, watchHistoryId, now).1;
      && GetWatchHistoryById(db', watchHistoryId) == Err(NotFound("Watch history", watchHistoryId))
      && forall other :: other != watchHistoryId ==> GetById(db'.watchHistory, other) == GetById(db.watchHistory, other)
  {
  }

  /** The continue-watching title: the show's title with the season, number and title of the episode, if any. */
  function ContinueTitle(contentTitle: string, episode: Option<EpisodeData>): (t: string)
    ensures episode.None? ==> t == contentTitle
    ensures |t| >= |contentTitle| && t[..|contentTitle|] == contentTitle
    ensures episode.Some? ==> |t| >= |episode.value.title| && t[|t| - |episode.value.title|..] == episode.value.title
  {
    match episode
    case None => contentTitle
    case Some(e) =>
      var t := contentTitle + ": S" + IntToString(e.seasonNumber) + "E" + IntToString(e.episodeNumber) + " - " + e.title;
      assert t[..|contentTitle|] == contentTitle;
      assert t[|t| - |e.title|..] == e.title;
      t
  }

  /** The continue-watching picture: the episode's, when there is one and it is not empty; else the title's. */
  function ContinueThumbnail(contentThumbnail: string, episode: Option<EpisodeData>): (u: string)
    ensures u == contentThumbnail || (episode.Some? && u == episode.value.thumbnailUrl && |u| > 0)
    ensures episode.Some? && |episode.value.thumbnailUrl| > 0 ==> u == episode.value.thumbnailUrl
  {
    if episode.Some? && !IsNullOrEmpty(Some(episode.value.thumbnailUrl)) then episode.value.thumbnailUrl
    else contentThumbnail
  }

  /**
   * One continue-watching entry. The title and episode are the records'
   * navigation properties, loaded whether or not they are soft-deleted; a
   * record whose title row is gone dereferences null.
   */
  function ContinueEntry(db: Db, w: Row<WatchData>): (r: Result<ContinueItem>)
    ensures r.Err? <==> !Stored(db.contents, w.data.contentId)
    ensures r.Err? ==> r.error == NullReference
    ensures r.Ok? ==> r.value.contentId == w.data.contentId && r.value.episodeId == w.data.episodeId
    ensures r.Ok? ==> r.value.lastWatched == w.data.lastWatched && r.value.watchedPercentage == w.data.watchedPercentage
  {
    match Navigate(db.contents, w.data.contentId)
    case None => Err(NullReference)
    case Some(c) =>
      var episode := if w.data.episodeId.None? then None
        else match Navigate(db.episodes, w.data.episodeId.value)
          case None => None
          case Some(e) => Some(e.data);
      Ok(ContinueItem(w.data.contentId, w.data.episodeId, ContinueTitle(c.data.title, episode),
        ContinueThumbnail(c.data.thumbnailUrl, episode), c.data.contentType, w.data.watchedPercentage, w.data.lastWatched))
  }

  /** The entries of the loop in `GetContinueWatchingAsync`: the first record without a title row throws. */
  function ContinueEntries(db: Db, ws: seq<Row<WatchData>>): (r: Result<seq<ContinueItem>>)
    ensures r.Err? <==> exists i :: 0 <= i < |ws| && !Stored(db.contents, ws[i].data.contentId)
    ensures r.Err? ==> r.error == NullReference
    ensures r.Ok? ==> |r.value| == |ws| && forall i :: 0 <= i < |ws| ==> Ok(r.value[i]) == ContinueEntry(db, ws[i])
    ensures r.Ok? ==> forall i :: 0 <= i < |ws| ==> (r.value[i].contentId == ws[i].data.contentId
      && r.value[i].episodeId == ws[i].data.episodeId && r.value[i].lastWatched == ws[i].data.lastWatched)
  {
    if exists i :: 0 <= i < |ws| && !Stored(db.contents, ws[i].data.contentId) then Err(NullReference)
    else Ok(seq(|ws|, i requires 0 <= i < |ws| => ContinueEntry(db, ws[i]).value))
  }

  /** `GetContinueWatchingAsync` in the service. */
  function GetContinueWatching(db: Db, profileId: int, limit: int): (r: Result<seq<ContinueItem>>)
    ensures r.Err? <==> exists i :: (0 <= i < |ContinueWatching(db, profileId, limit)|
      && !Stored(db.contents, ContinueWatching(db, profileId, limit)[i].data.contentId))
    ensures r.Err? ==> r.error == NullReference
    ensures r.Ok? ==> |r.value| == |ContinueWatching(db, profileId, limit)|
    ensures r.Ok? ==> forall i :: 0 <= i < |r.value| ==> (r.value[i].contentId == ContinueWatching(db, profileId, limit)[i].data.contentId
      && r.value[i].episodeId == ContinueWatching(db, profileId, limit)[i].data.episodeId)
    ensures r.Ok? && limit >= 0 ==> |r.value| <= limit
    ensures r.Ok? ==> forall i, j :: 0 <= i < j < |r.value| ==> r.value[i].lastWatched >= r.value[j].lastWatched
  {
    var ws := ContinueWatching(db, profileId, limit);
    var r := ContinueEntries(db, ws);
    assert r.Ok? ==> forall i :: 0 <= i < |r.value| ==> r.value[i].lastWatched == ws[i].data.lastWatched;
    r
  }
}
