/**
 * `ContentRepository` and `ContentService`: the catalogue of films and shows,
 * its filter and ranking queries, and the partial update of a title.
 */
module Catalogue {
  import opened Wrappers
  import opened Clock
  import opened Text
  import opened Sequences
  import opened Repository
  import opened Entities
  import opened Profiles

  /** Window of the trending ranking, in days. */
  const TrendingWindowDays: int := 30

  /** `EpisodeResponseDto`. */
  datatype EpisodeView = EpisodeView(id: int, episode: EpisodeData)

  /**
   * `ContentResponseDto`. The mapping never fills in the creation and update
   * instants, so they keep their defaults.
   */
  datatype ContentView = ContentView(
    id: int, content: ContentData, createdAt: Instant, updatedAt: Option<Instant>, episodes: seq<EpisodeView>)

  /** `ContentSummaryDto`: the update instant falls back to the creation instant. */
  datatype ContentSummary = ContentSummary(id: int, content: ContentData, createdAt: Instant, updatedAt: Instant)

  /** `UpdateContentDto`. Its content type is accepted and ignored. */
  datatype ContentUpdate = ContentUpdate(
    title: Option<string>, description: Option<string>, releaseYear: Option<int>,
    maturityRating: Option<string>, duration: Option<string>, totalSeasons: Option<int>,
    thumbnailUrl: Option<string>, coverImageUrl: Option<string>, videoUrl: Option<string>,
    contentType: Option<string>, genre: Option<string>, director: Option<string>, cast: Option<string>)

  function ViewEpisodes(episodes: seq<Row<EpisodeData>>): (r: seq<EpisodeView>)
    ensures |r| == |episodes|
    ensures forall i :: 0 <= i < |r| ==> r[i] == EpisodeView(episodes[i].id, episodes[i].data)
  {
    seq(|episodes|, i requires 0 <= i < |episodes| => EpisodeView(episodes[i].id, episodes[i].data))
  }

  /** `MapContentToContentResponseDto` of a title whose loaded episodes are `episodes`. */
  function ViewContent(c: Row<ContentData>, episodes: seq<Row<EpisodeData>>): ContentView {
    ContentView(c.id, c.data, MinValue, None, ViewEpisodes(episodes))
  }

  /** `MapContentToContentSummaryDto`. */
  function Summarize(c: Row<ContentData>): ContentSummary {
    ContentSummary(c.id, c.data, c.createdAt, c.updatedAt.GetOr(c.createdAt))
  }

  /** `GetContentByGenreAsync`: an ordinal substring test on the genre. */
  function ByGenre(db: Db, genre: string): (r: seq<Row<ContentData>>)
    ensures forall c :: c in r <==> c in db.contents.rows && !c.isDeleted && Contains(c.data.genre, genre)
  {
    Filter(db.contents.rows, (c: Row<ContentData>) => Contains(c.data.genre, genre) && !c.isDeleted)
  }

  /** `GetContentByTypeAsync`: exact equality of the content type. */
  function ByType(db: Db, contentType: string): (r: seq<Row<ContentData>>)
    ensures forall c :: c in r <==> c in db.contents.rows && !c.isDeleted && c.data.contentType == contentType
  {
    Filter(db.contents.rows, (c: Row<ContentData>) => c.data.contentType == contentType && !c.isDeleted)
  }

  /** The selector of the live episodes of a title. */
  function OfContent(contentId: int): Row<EpisodeData> -> bool {
    (e: Row<EpisodeData>) => e.data.contentId == contentId && !e.isDeleted
  }

  /** The live episodes of a title, in table order. */
  function EpisodesOf(db: Db, contentId: int): (r: seq<Row<EpisodeData>>)
    ensures forall e :: e in r <==> e in db.episodes.rows && !e.isDeleted && e.data.contentId == contentId
  {
    Filter(db.episodes.rows, OfContent(contentId))
  }

  /** `GetContentWithEpisodesAsync`: a live title with its live episodes. */
  function WithEpisodes(db: Db, contentId: int): (r: Option<(Row<ContentData>, seq<Row<EpisodeData>>)>)
    ensures r.Some? <==> Live(db.contents, contentId)
    ensures r.Some? ==> r.value.0 in db.contents.rows && r.value.0.id == contentId && !r.value.0.isDeleted
    ensures r.Some? ==> r.value.1 == EpisodesOf(db, contentId)
  {
    match GetById(db.contents, contentId)
    case None => None
    case Some(c) => Some((c, EpisodesOf(db, contentId)))
  }

  /** Newest first by release year, ties by creation instant. */
  function ReleaseKey(c: Row<ContentData>): Key {
    Key(-c.data.releaseYear, -c.createdAt)
  }

  /** Newest first by release year alone. */
  function YearKey(c: Row<ContentData>): Key {
    Key(-c.data.releaseYear, 0)
  }

  /** `GetNewReleasesAsync`: the `limit` newest live titles. */
  function NewReleases(db: Db, limit: int): (r: seq<Row<ContentData>>)
    ensures limit >= 0 ==> |r| == (if limit < |GetAll(db.contents)| then limit else |GetAll(db.contents)|)
    ensures limit <= 0 ==> r == []
    ensures multiset(r) <= multiset(GetAll(db.contents))
    ensures SortedBy(r, ReleaseKey)
    ensures forall c :: c in r ==> c in db.contents.rows && !c.isDeleted
  {
    var sorted := SortBy(GetAll(db.contents), ReleaseKey);
    var r := Take(sorted, limit);
    assert forall c :: c in r ==> c in multiset(sorted);
    r
  }

  /** A live title left out of the new releases is no newer than any title in them. */
  lemma NewReleasesAreNewest(db: Db, limit: int, c: Row<ContentData>)
    requires c in db.contents.rows && !c.isDeleted && c !in NewReleases(db, limit)
    ensures limit >= 0 ==> |NewReleases(db, limit)| == limit
    ensures forall i :: 0 <= i < |NewReleases(db, limit)| ==> KeyLe(ReleaseKey(NewReleases(db, limit)[i]), ReleaseKey(c))
  {
    var sorted := SortBy(GetAll(db.contents), ReleaseKey);
    assert c in multiset(GetAll(db.contents));
    assert c in sorted by {
      assert c in multiset(sorted);
    }
    TakeLeast(sorted, ReleaseKey, limit, c);
  }

  /** The watch records of the last thirty days; soft-deleted records are not skipped. */
  function RecentWatches(db: Db, now: Instant): (r: seq<Row<WatchData>>)
    ensures forall w :: w in r <==> w in db.watchHistory.rows && w.data.lastWatched >= AddDays(now, -TrendingWindowDays)
  {
    Filter(db.watchHistory.rows, (w: Row<WatchData>) => w.data.lastWatched >= AddDays(now, -TrendingWindowDays))
  }

  /** Number of the given records that are about one title. */
  function WatchCount(recent: seq<Row<WatchData>>, contentId: int): nat {
    Count(recent, (w: Row<WatchData>) => w.data.contentId == contentId)
  }

  function ContentIdOf(w: Row<WatchData>): int {
    w.data.contentId
  }

  /** Most watched first. */
  function PopularityKey(recent: seq<Row<WatchData>>): Row<WatchData> -> Key {
    (w: Row<WatchData>) => Key(-(WatchCount(recent, w.data.contentId) as int), 0)
  }

  /** One recent record per title watched in the window, in order of first record. */
  function RecentTitles(db: Db, now: Instant): (r: seq<Row<WatchData>>)
    ensures DistinctBy(r, ContentIdOf)
    ensures forall w :: w in r ==> w in RecentWatches(db, now)
    ensures forall w :: w in RecentWatches(db, now) ==> exists j :: 0 <= j < |r| && r[j].data.contentId == w.data.contentId
    ensures |r| == 0 <==> |RecentWatches(db, now)| == 0
  {
    var recent := RecentWatches(db, now);
    var r := FirstPerKey(recent, ContentIdOf);
    FirstPerKeyDistinct(recent, ContentIdOf);
    forall w | w in recent
      ensures exists j :: 0 <= j < |r| && r[j].data.contentId == w.data.contentId
    {
      FirstPerKeyCovers(recent, ContentIdOf, w);
    }
    r
  }

  /**
   * One recent record per watched title, most watched first: the groups of
   * `GroupBy(ContentId).OrderByDescending(Count)`, cut to `limit`. Titles with
   * equal counts keep the order of their first record.
   */
  function TopGroups(db: Db, limit: int, now: Instant): (r: seq<Row<WatchData>>)
    ensures limit >= 0 ==> |r| == (if limit < |RecentTitles(db, now)| then limit else |RecentTitles(db, now)|)
    ensures limit <= 0 ==> r == []
    ensures forall w :: w in r ==> w in RecentWatches(db, now)
    ensures DistinctBy(r, ContentIdOf)
    ensures SortedBy(r, PopularityKey(RecentWatches(db, now)))
  {
    var recent := RecentWatches(db, now);
    var groups := RecentTitles(db, now);
    var ranked := SortBy(groups, PopularityKey(recent));
    SortByDistinct(groups, PopularityKey(recent), ContentIdOf);
    SortByMembers(groups, PopularityKey(recent));
    TakeKeeps(ranked, limit, PopularityKey(recent), ContentIdOf);
    Take(ranked, limit)
  }

  /** The title of each record, in order. */
  function TitleIds(ws: seq<Row<WatchData>>): (ids: seq<int>)
    ensures |ids| == |ws|
    ensures forall i :: 0 <= i < |ids| ==> ids[i] == ws[i].data.contentId
  {
    seq(|ws|, i requires 0 <= i < |ws| => ws[i].data.contentId)
  }

  /** Ranked distinct records give distinct, equally ranked titles. */
  lemma RankedTitleIds(ws: seq<Row<WatchData>>, recent: seq<Row<WatchData>>)
    requires DistinctBy(ws, ContentIdOf) && SortedBy(ws, PopularityKey(recent))
    requires forall w :: w in ws ==> w in recent
    ensures forall i, j :: 0 <= i < j < |TitleIds(ws)| ==> TitleIds(ws)[i] != TitleIds(ws)[j]
    ensures forall i :: 0 <= i < |TitleIds(ws)| ==> TitleIds(ws)[i] in TitleIds(recent)
    ensures forall i, j :: 0 <= i < j < |TitleIds(ws)| ==> WatchCount(recent, TitleIds(ws)[i]) >= WatchCount(recent, TitleIds(ws)[j])
  {
    var ids := TitleIds(ws);
    forall i | 0 <= i < |ids|
      ensures ids[i] in TitleIds(recent)
    {
      assert ws[i] in ws;
      var m :| 0 <= m < |recent| && recent[m] == ws[i];
      assert TitleIds(recent)[m] == ids[i];
    }
    forall i, j | 0 <= i < j < |ids|
      ensures ids[i] != ids[j] && WatchCount(recent, ids[i]) >= WatchCount(recent, ids[j])
    {
      assert ContentIdOf(ws[i]) != ContentIdOf(ws[j]);
      assert KeyLe(PopularityKey(recent)(ws[i]), PopularityKey(recent)(ws[j]));
    }
  }

  /**
   * The trending title ids: distinct titles watched in the window, most
   * watched first, as many as `limit` allows.
   */
  function TrendingIds(db: Db, limit: int, now: Instant): (ids: seq<int>)
    ensures |ids| == |TopGroups(db, limit, now)|
    ensures forall i :: 0 <= i < |ids| ==> ids[i] == TopGroups(db, limit, now)[i].data.contentId
    ensures forall i, j :: 0 <= i < j < |ids| ==> ids[i] != ids[j]
    ensures forall i :: 0 <= i < |ids| ==> ids[i] in TitleIds(RecentWatches(db, now))
    ensures forall i, j :: 0 <= i < j < |ids| ==>
      WatchCount(RecentWatches(db, now), ids[i]) >= WatchCount(RecentWatches(db, now), ids[j])
    ensures |ids| == 0 <==> limit <= 0 || |RecentWatches(db, now)| == 0
  {
    var top := TopGroups(db, limit, now);
    RankedTitleIds(top, RecentWatches(db, now));
    TitleIds(top)
  }

  /**
   * `GetTrendingContentAsync`: the live titles among the `limit` most watched
   * of the last thirty days, in table order; with no recent watching, the
   * `limit` newest titles by release year.
   */
  function Trending(db: Db, limit: int, now: Instant): (r: seq<Row<ContentData>>)
    ensures limit <= 0 || |RecentWatches(db, now)| == 0 ==> r == Take(SortBy(GetAll(db.contents), YearKey), limit)
    ensures limit > 0 && |RecentWatches(db, now)| > 0 ==>
      forall c :: c in r <==> c in db.contents.rows && !c.isDeleted && c.id in TrendingIds(db, limit, now)
    ensures limit <= 0 ==> r == []
  {
    var ids := TrendingIds(db, limit, now);
    if |ids| == 0 then Take(SortBy(GetAll(db.contents), YearKey), limit)
    else Find(db.contents, IdIn(ids))
  }

  /** The trending list never holds more than `limit` titles. */
  lemma TrendingBound(db: Db, limit: int, now: Instant)
    requires Valid(db.contents) && limit >= 0
    ensures |Trending(db, limit, now)| <= limit
  {
    FindByIdsBound(db.contents, TrendingIds(db, limit, now));
  }

  /** The first record of a title left out of the trending ids is among the ranked groups but not in the cut. */
  lemma TrendingCut(db: Db, limit: int, now: Instant, w: Row<WatchData>) returns (g: Row<WatchData>)
    requires w in RecentWatches(db, now) && w.data.contentId !in TrendingIds(db, limit, now)
    ensures g.data.contentId == w.data.contentId
    ensures g in SortBy(RecentTitles(db, now), PopularityKey(RecentWatches(db, now)))
    ensures g !in TopGroups(db, limit, now)
  {
    var recent := RecentWatches(db, now);
    var groups := RecentTitles(db, now);
    var j :| 0 <= j < |groups| && groups[j].data.contentId == w.data.contentId;
    g := groups[j];
    assert g in SortBy(groups, PopularityKey(recent)) by {
      SortByMembers(groups, PopularityKey(recent));
    }
    CutTitleLeftOut(TopGroups(db, limit, now), TrendingIds(db, limit, now), g);
  }

  /** A record whose title is not among the ids of a cut is not in that cut. */
  lemma CutTitleLeftOut(top: seq<Row<WatchData>>, ids: seq<int>, g: Row<WatchData>)
    requires |ids| == |top| && forall i :: 0 <= i < |ids| ==> ids[i] == top[i].data.contentId
    requires g.data.contentId !in ids
    ensures g !in top
  {
    forall k | 0 <= k < |top|
      ensures top[k] != g
    {
      assert ids[k] in ids;
    }
  }

  /**
   * The ranking is by popularity: a recently watched title that did not make
   * the cut was watched no more often than any title that did, and the cut is
   * then full.
   */
  lemma TrendingIsMostWatched(db: Db, limit: int, now: Instant, w: Row<WatchData>)
    requires w in RecentWatches(db, now) && w.data.contentId !in TrendingIds(db, limit, now)
    ensures forall i :: 0 <= i < |TrendingIds(db, limit, now)| ==>
      WatchCount(RecentWatches(db, now), TrendingIds(db, limit, now)[i]) >= WatchCount(RecentWatches(db, now), w.data.contentId)
    ensures limit >= 0 ==> |TrendingIds(db, limit, now)| == limit
  {
    var recent := RecentWatches(db, now);
    var ranked := SortBy(RecentTitles(db, now), PopularityKey(recent));
    var g := TrendingCut(db, limit, now, w);
    var top := TopGroups(db, limit, now);
    assert top == Take(ranked, limit);
    TakeLeast(ranked, PopularityKey(recent), limit, g);
    var ids := TrendingIds(db, limit, now);
    forall i | 0 <= i < |ids|
      ensures WatchCount(recent, ids[i]) >= WatchCount(recent, w.data.contentId)
    {
      assert KeyLe(PopularityKey(recent)(top[i]), PopularityKey(recent)(g));
    }
  }

  /** Without recent watching, trending is the newest titles by release year, cut to `limit`. */
  lemma TrendingFallback(db: Db, limit: int, now: Instant)
    requires forall i :: 0 <= i < |db.watchHistory.rows| ==> db.watchHistory.rows[i].data.lastWatched < AddDays(now, -TrendingWindowDays)
    ensures Trending(db, limit, now) == Take(SortBy(GetAll(db.contents), YearKey), limit)
  {
    var recent := RecentWatches(db, now);
    FilterNone(db.watchHistory.rows, (w: Row<WatchData>) => w.data.lastWatched >= AddDays(now, -TrendingWindowDays));
    assert recent == [];
  }

  /** `GetContentByIdAsync`: a live title with its live episodes, or not-found. */
  function GetContentById(db: Db, contentId: int): (r: Result<ContentView>)
    ensures r.Err? <==> !Live(db.contents, contentId)
    ensures r.Err? ==> r.error == NotFound("Content", contentId)
    ensures r.Ok? ==> r.value.id == contentId && r.value.episodes == ViewEpisodes(EpisodesOf(db, contentId))
  {
    match WithEpisodes(db, contentId)
    case None => Err(NotFound("Content", contentId))
    case Some((c, episodes)) => Ok(ViewContent(c, episodes))
  }

  /** `CreateContentAsync`: every field of the request is stored as given. */
  function CreateContent(db: Db, dto: ContentData, now: Instant): (r: (ContentView, Db))
    ensures r.0.content == dto && r.0.episodes == []
    ensures r.1 == db.(contents := r.1.contents)
    ensures Valid(db.contents) ==> GetById(r.1.contents, r.0.id).Some? && GetById(r.1.contents, r.0.id).value.data == dto
    ensures r.1.contents.rows == db.contents.rows + [Row(r.0.id, now, None, false, dto)]
    ensures Valid(db.contents) ==> Valid(r.1.contents) && !Stored(db.contents, r.0.id)
  {
    var (contents, row) := Add(db.contents, dto, now);
    assert Valid(db.contents) ==> GetById(contents, row.id) == Some(row) by {
      if Valid(db.contents) {
        AddThenGetById(db.contents, dto, now);
      }
    }
    (ViewContent(row, []), db.(contents := contents))
  }

  /** `UpdateContentAsync`'s merge: non-empty strings and supplied numbers replace the stored values. */
  function MergeContent(c: ContentData, u: ContentUpdate): (r: ContentData)
    ensures r.contentType == c.contentType
    ensures r.title == MergeString(c.title, u.title) && r.description == MergeString(c.description, u.description)
    ensures r.releaseYear == u.releaseYear.GetOr(c.releaseYear)
    ensures r.totalSeasons == (if u.totalSeasons.Some? then u.totalSeasons else c.totalSeasons)
    ensures r.genre == MergeString(c.genre, u.genre) && r.cast == MergeString(c.cast, u.cast)
    ensures r.maturityRating == MergeString(c.maturityRating, u.maturityRating) && r.duration == MergeString(c.duration, u.duration)
    ensures r.thumbnailUrl == MergeString(c.thumbnailUrl, u.thumbnailUrl) && r.coverImageUrl == MergeString(c.coverImageUrl, u.coverImageUrl)
    ensures r.videoUrl == MergeString(c.videoUrl, u.videoUrl) && r.director == MergeString(c.director, u.director)
  {
    c.(title := MergeString(c.title, u.title),
       description := MergeString(c.description, u.description),
       releaseYear := u.releaseYear.GetOr(c.releaseYear),
       maturityRating := MergeString(c.maturityRating, u.maturityRating),
       duration := MergeString(c.duration, u.duration),
       totalSeasons := if u.totalSeasons.Some? then u.totalSeasons else c.totalSeasons,
       thumbnailUrl := MergeString(c.thumbnailUrl, u.thumbnailUrl),
       coverImageUrl := MergeString(c.coverImageUrl, u.coverImageUrl),
       videoUrl := MergeString(c.videoUrl, u.videoUrl),
       genre := MergeString(c.genre, u.genre),
       director := MergeString(c.director, u.director),
       cast := MergeString(c.cast, u.cast))
  }

  /** `UpdateContentAsync`: merges into a live title and returns it reloaded with its episodes. */
  function UpdateContent(db: Db, contentId: int, u: ContentUpdate, now: Instant): (r: (Result<ContentView>, Db))
    ensures r.0.Err? <==> !Live(db.contents, contentId)
    ensures r.0.Err? ==> r.0.error == NotFound("Content", contentId) && r.1 == db
    ensures r.1 == db.(contents := r.1.contents)
    ensures r.0.Ok? ==> var before := GetById(db.contents, contentId).value;
      && r.1.contents == Put(db.contents, before.(data := MergeContent(before.data, u), updatedAt := Some(now)))
      && r.0.value.content == MergeContent(before.data, u)
      && r.0.value.episodes == ViewEpisodes(EpisodesOf(db, contentId))
  {
    match GetById(db.contents, contentId)
    case None => (Err(NotFound("Content", contentId)), db)
    case Some(c) =>
      var c' := c.(data := MergeContent(c.data, u), updatedAt := Some(now));
      var db' := db.(contents := Put(db.contents, c'));
      var k :| 0 <= k < |db.contents.rows| && db.contents.rows[k] == c;
      assert db'.contents.rows[k] == c';
      match WithEpisodes(db', contentId)
      case Some((reloaded, episodes)) =>
        assert reloaded == c' by {
          var i :| 0 <= i < |db'.contents.rows| && db'.contents.rows[i] == reloaded;
        }
        (Ok(ViewContent(reloaded, episodes)), db')
  }

  /** `DeleteContentAsync`: a soft delete. */
  function DeleteContent(db: Db, contentId: int, now: Instant): (r: (bool, Db))
    ensures r.0 <==> Live(db.contents, contentId)
    ensures !r.0 ==> r.1 == db
    ensures r.1 == db.(contents := r.1.contents)
    ensures r.0 ==> Stored(r.1.contents, contentId) && !Live(r.1.contents, contentId)
    ensures forall other :: other != contentId ==> GetById(r.1.contents, other) == GetById(db.contents, other)
  {
    var (ok, contents) := SoftDelete(db.contents, contentId, now);
    (ok, db.(contents := contents))
  }

  /** After a delete the title is not found, and every other title is found as before, with the same episodes. */
  lemma DeleteContentThenNotFound(db: Db, contentId: int, now: Instant)
    requires Live(db.contents, contentId)
    ensures var db' := DeleteContent(db, contentId, now).1;
      && GetContentById(db', contentId) == Err(NotFound("Content", contentId))
      && forall other :: other != contentId ==> GetContentById(db', other) == GetContentById(db, other)
  {
    var db' := DeleteContent(db, contentId, now).1;
    forall other | other != contentId
      ensures GetContentById(db', other) == GetContentById(db, other)
    {
      assert GetById(db'.contents, other) == GetById(db.contents, other);
      assert EpisodesOf(db', other) == EpisodesOf(db, other);
    }
  }

  /**
   * `SearchContentsAsync`: no term finds nothing; otherwise the live titles
   * whose title, description, cast or director contains the term.
   */
  function Search(db: Db, term: Option<string>): (r: seq<Row<ContentData>>)
    ensures IsNullOrEmpty(term) ==> r == []
    ensures !IsNullOrEmpty(term) ==> forall c :: c in r <==> (c in db.contents.rows && !c.isDeleted
      && (Contains(c.data.title, term.value) || Contains(c.data.description, term.value)
          || Contains(c.data.cast, term.value) || Contains(c.data.director, term.value)))
  {
    if IsNullOrEmpty(term) then []
    else Find(db.contents, (c: Row<ContentData>) =>
      Contains(c.data.title, term.value) || Contains(c.data.description, term.value)
      || Contains(c.data.cast, term.value) || Contains(c.data.director, term.value))
  }

  /** The empty genre is a substring of every genre, so it selects every live title. */
  lemma EmptyGenreSelectsAll(db: Db)
    ensures forall c :: c in ByGenre(db, "") <==> c in GetAll(db.contents)
  {
    forall c | c in db.contents.rows {
      ContainsEmpty(c.data.genre);
    }
  }

  /** Repeating an update leaves the title as the first update left it. */
  lemma MergeContentIdempotent(c: ContentData, u: ContentUpdate)
    ensures MergeContent(MergeContent(c, u), u) == MergeContent(c, u)
  {
  }

  /** An update that supplies nothing changes only the update instant, even when it names a content type. */
  lemma EmptyUpdateTouchesOnlyStamp(db: Db, contentId: int, contentType: Option<string>, now: Instant)
    requires Valid(db.contents) && Live(db.contents, contentId)
    ensures var u := ContentUpdate(None, None, None, None, None, None, None, None, None, contentType, None, None, None);
      var before := GetById(db.contents, contentId).value;
      UpdateContent(db, contentId, u, now).1.contents == Put(db.contents, before.(updatedAt := Some(now)))
  {
  }
}
