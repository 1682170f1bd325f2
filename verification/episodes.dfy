/**
 * `EpisodeRepository` and `EpisodeService`: the episodes of a show, listed by
 * season and number, looked up by id or by their three keys, added only to
 * TV shows and partially updated.
 */
module Episodes {
  import opened Wrappers
  import opened Clock
  import opened Decimal
  import opened Sequences
  import opened Repository
  import opened Entities
  import opened Profiles
  import opened Catalogue

  /** The one content type that may have episodes. */
  const TvShow: string := "TV Show"
  const TvShowsOnly: string := "Episodes can only be added to TV Shows"

  /** `UpdateEpisodeDto`. Its season and episode numbers are accepted and ignored. */
  datatype EpisodeUpdate = EpisodeUpdate(
    title: Option<string>, description: Option<string>, seasonNumber: Option<int>, episodeNumber: Option<int>,
    duration: Option<string>, thumbnailUrl: Option<string>, videoUrl: Option<string>)

  /** `OrderBy(SeasonNumber).ThenBy(EpisodeNumber)`. */
  function SeasonOrder(e: Row<EpisodeData>): Key {
    Key(e.data.seasonNumber, e.data.episodeNumber)
  }

  /** `OrderBy(EpisodeNumber)`. */
  function NumberOrder(e: Row<EpisodeData>): Key {
    Key(e.data.episodeNumber, 0)
  }

  function HasSeason(seasonNumber: int): Row<EpisodeData> -> bool {
    (e: Row<EpisodeData>) => e.data.seasonNumber == seasonNumber
  }

  /** The selector of `GetEpisodesBySeasonAsync`. */
  function InSeason(contentId: int, seasonNumber: int): Row<EpisodeData> -> bool {
    (e: Row<EpisodeData>) => e.data.contentId == contentId && e.data.seasonNumber == seasonNumber && !e.isDeleted
  }

  /** The selector of `GetEpisodeByContentAndNumberAsync`. */
  function IsEpisode(contentId: int, seasonNumber: int, episodeNumber: int): Row<EpisodeData> -> bool {
    (e: Row<EpisodeData>) =>
      e.data.contentId == contentId && e.data.seasonNumber == seasonNumber
      && e.data.episodeNumber == episodeNumber && !e.isDeleted
  }

  /** `GetEpisodesByContentIdAsync`: the live episodes of a title, by season, then by number. */
  function ByContent(db: Db, contentId: int): (r: seq<Row<EpisodeData>>)
    ensures SortedBy(r, SeasonOrder)
    ensures multiset(r) == multiset(EpisodesOf(db, contentId))
    ensures forall e :: e in r <==> e in db.episodes.rows && !e.isDeleted && e.data.contentId == contentId
  {
    var r := SortBy(EpisodesOf(db, contentId), SeasonOrder);
    assert forall e :: e in r <==> e in multiset(EpisodesOf(db, contentId));
    r
  }

  /** `GetEpisodesBySeasonAsync`: the live episodes of one season of a title, by number. */
  function BySeason(db: Db, contentId: int, seasonNumber: int): (r: seq<Row<EpisodeData>>)
    ensures SortedBy(r, NumberOrder)
    ensures forall e :: e in r <==> (e in db.episodes.rows && !e.isDeleted
      && e.data.contentId == contentId && e.data.seasonNumber == seasonNumber)
  {
    var live := Filter(db.episodes.rows, InSeason(contentId, seasonNumber));
    var r := SortBy(live, NumberOrder);
    assert forall e :: e in r <==> e in multiset(live);
    r
  }

  /**
   * The season listing is the season's part of the title listing, in the
   * same order: within one season, ordering by (season, number) is ordering by number.
   */
  lemma BySeasonIsPartOfByContent(db: Db, contentId: int, seasonNumber: int)
    ensures BySeason(db, contentId, seasonNumber) == Filter(ByContent(db, contentId), HasSeason(seasonNumber))
  {
    var all := EpisodesOf(db, contentId);
    var live := Filter(db.episodes.rows, InSeason(contentId, seasonNumber));
    FilterSortCommute(all, SeasonOrder, HasSeason(seasonNumber));
    FilterComposes(db.episodes.rows, OfContent(contentId), HasSeason(seasonNumber), InSeason(contentId, seasonNumber));
    assert Filter(all, HasSeason(seasonNumber)) == live;
    SortBySameOrder(live, SeasonOrder, NumberOrder);
  }

  /** `GetEpisodeByContentAndNumberAsync` in the repository: the first live match of all three keys. */
  function ByNumber(db: Db, contentId: int, seasonNumber: int, episodeNumber: int): (r: Option<Row<EpisodeData>>)
    ensures r.None? <==> forall e :: e in db.episodes.rows ==> !IsEpisode(contentId, seasonNumber, episodeNumber)(e)
    ensures r.Some? ==> r.value in db.episodes.rows && !r.value.isDeleted
    ensures r.Some? ==> IsEpisode(contentId, seasonNumber, episodeNumber)(r.value)
  {
    FirstWhere(db.episodes.rows, IsEpisode(contentId, seasonNumber, episodeNumber))
  }

  /** `GetEpisodeByIdAsync`. */
  function GetEpisodeById(db: Db, episodeId: int): (r: Result<EpisodeView>)
    ensures r.Err? <==> !Live(db.episodes, episodeId)
    ensures r.Err? ==> r.error == NotFound("Episode", episodeId)
    ensures r.Ok? ==> r.value.id == episodeId
    ensures r.Ok? ==> exists e :: e in db.episodes.rows && e.id == episodeId && !e.isDeleted && e.data == r.value.episode
  {
    match GetById(db.episodes, episodeId)
    case None => Err(NotFound("Episode", episodeId))
    case Some(e) => Ok(EpisodeView(e.id, e.data))
  }

  function NoSuchEpisode(contentId: int, seasonNumber: int, episodeNumber: int): Exception {
    KeyNotFound("Episode with season " + IntToString(seasonNumber) + ", episode " + IntToString(episodeNumber)
      + " not found for content " + IntToString(contentId))
  }

  /** `GetEpisodeByContentAndNumberAsync` in the service: the match, or not-found. */
  function GetEpisodeByNumber(db: Db, contentId: int, seasonNumber: int, episodeNumber: int): (r: Result<EpisodeView>)
    ensures r.Err? <==> forall e :: e in db.episodes.rows ==> !IsEpisode(contentId, seasonNumber, episodeNumber)(e)
    ensures r.Err? ==> r.error == NoSuchEpisode(contentId, seasonNumber, episodeNumber)
    ensures r.Ok? ==> (r.value.episode.contentId == contentId
      && r.value.episode.seasonNumber == seasonNumber && r.value.episode.episodeNumber == episodeNumber)
  {
    match ByNumber(db, contentId, seasonNumber, episodeNumber)
    case None => Err(NoSuchEpisode(contentId, seasonNumber, episodeNumber))
    case Some(e) => Ok(EpisodeView(e.id, e.data))
  }

  /** `GetEpisodesByContentIdAsync` and `GetEpisodesBySeasonAsync` in the service. */
  function ListByContent(db: Db, contentId: int): seq<EpisodeView> {
    ViewEpisodes(ByContent(db, contentId))
  }

  function ListBySeason(db: Db, contentId: int, seasonNumber: int): seq<EpisodeView> {
    ViewEpisodes(BySeason(db, contentId, seasonNumber))
  }

  /**
   * `CreateEpisodeAsync`: the title must be live and exactly of type "TV Show";
   * the episode is then stored as given, with no check for an episode already
   * holding the same season and number.
   */
  function CreateEpisode(db: Db, dto: EpisodeData, now: Instant): (r: (Result<EpisodeView>, Db))
    ensures r.0.Err? <==> (!Live(db.contents, dto.contentId)
      || GetById(db.contents, dto.contentId).value.data.contentType != TvShow)
    ensures r.0.Err? ==> r.1 == db
    ensures r.0.Err? && !Live(db.contents, dto.contentId) ==> r.0.error == NotFound("Content", dto.contentId)
    ensures r.0.Err? && Live(db.contents, dto.contentId) ==> r.0.error == InvalidOperation(TvShowsOnly)
    ensures r.0.Ok? ==> r.0.value.episode == dto && r.1 == db.(episodes := r.1.episodes)
    ensures r.0.Ok? ==> r.1.episodes.rows == db.episodes.rows + [Row(r.0.value.id, now, None, false, dto)]
    ensures r.0.Ok? && Valid(db.episodes) ==> Valid(r.1.episodes) && !Stored(db.episodes, r.0.value.id)
  {
    match GetById(db.contents, dto.contentId)
    case None => (Err(NotFound("Content", dto.contentId)), db)
    case Some(c) =>
      if c.data.contentType != TvShow then (Err(InvalidOperation(TvShowsOnly)), db)
      else
        var (episodes, row) := Add(db.episodes, dto, now);
        (Ok(EpisodeView(row.id, row.data)), db.(episodes := episodes))
  }

  /** A created episode is listed with its show's episodes and found by its identity. */
  lemma CreateThenListed(db: Db, dto: EpisodeData, now: Instant)
    requires Valid(db.episodes) && CreateEpisode(db, dto, now).0.Ok?
    ensures var (r, db') := CreateEpisode(db, dto, now);
      && GetEpisodeById(db', r.value.id) == r
      && Row(r.value.id, now, None, false, dto) in ByContent(db', dto.contentId)
  {
    AddThenGetById(db.episodes, dto, now);
  }

  /**
   * No duplicate check: an episode whose season and number are already taken
   * is still added, and the lookup by number keeps finding the older one.
   */
  lemma DuplicateNumberShadowed(db: Db, dto: EpisodeData, now: Instant)
    requires Valid(db.episodes)
    requires Live(db.contents, dto.contentId) && GetById(db.contents, dto.contentId).value.data.contentType == TvShow
    requires ByNumber(db, dto.contentId, dto.seasonNumber, dto.episodeNumber).Some?
    ensures var (r, db') := CreateEpisode(db, dto, now);
      && r.Ok?
      && Row(r.value.id, now, None, false, dto) in db'.episodes.rows
      && r.value.id != ByNumber(db, dto.contentId, dto.seasonNumber, dto.episodeNumber).value.id
      && ByNumber(db', dto.contentId, dto.seasonNumber, dto.episodeNumber)
         == ByNumber(db, dto.contentId, dto.seasonNumber, dto.episodeNumber)
  {
    var (r, db') := CreateEpisode(db, dto, now);
    var older := ByNumber(db, dto.contentId, dto.seasonNumber, dto.episodeNumber).value;
    FirstWhereAppend(db.episodes.rows, Row(r.value.id, now, None, false, dto), IsEpisode(dto.contentId, dto.seasonNumber, dto.episodeNumber));
    assert Stored(db.episodes, older.id);
  }

  /**
   * `UpdateEpisodeAsync`'s merge: non-empty strings replace the stored ones;
   * the show, season and number of the episode never change.
   */
  function MergeEpisode(e: EpisodeData, u: EpisodeUpdate): (r: EpisodeData)
    ensures r.contentId == e.contentId && r.seasonNumber == e.seasonNumber && r.episodeNumber == e.episodeNumber
    ensures r.title == MergeString(e.title, u.title) && r.description == MergeString(e.description, u.description)
    ensures r.duration == MergeString(e.duration, u.duration)
    ensures r.thumbnailUrl == MergeString(e.thumbnailUrl, u.thumbnailUrl) && r.videoUrl == MergeString(e.videoUrl, u.videoUrl)
  {
    e.(title := MergeString(e.title, u.title),
       description := MergeString(e.description, u.description),
       duration := MergeString(e.duration, u.duration),
       thumbnailUrl := MergeString(e.thumbnailUrl, u.thumbnailUrl),
       videoUrl := MergeString(e.videoUrl, u.videoUrl))
  }

  /** `UpdateEpisodeAsync`: merges into a live episode and stamps it. */
  function UpdateEpisode(db: Db, episodeId: int, u: EpisodeUpdate, now: Instant): (r: (Result<EpisodeView>, Db))
    ensures r.0.Err? <==> !Live(db.episodes, episodeId)
    ensures r.0.Err? ==> r.0.error == NotFound("Episode", episodeId) && r.1 == db
    ensures r.1 == db.(episodes := r.1.episodes)
    ensures r.0.Ok? ==> var before := GetById(db.episodes, episodeId).value;
      && r.0.value == EpisodeView(episodeId, MergeEpisode(before.data, u))
      && r.1.episodes == Put(db.episodes, before.(data := MergeEpisode(before.data, u), updatedAt := Some(now)))
  {
    match GetById(db.episodes, episodeId)
    case None => (Err(NotFound("Episode", episodeId)), db)
    case Some(e) =>
      var e' := e.(data := MergeEpisode(e.data, u), updatedAt := Some(now));
      (Ok(EpisodeView(e'.id, e'.data)), db.(episodes := Put(db.episodes, e')))
  }

  /** Repeating an update leaves the episode as the first update left it. */
  lemma MergeEpisodeIdempotent(e: EpisodeData, u: EpisodeUpdate)
    ensures MergeEpisode(MergeEpisode(e, u), u) == MergeEpisode(e, u)
  {
  }

  /**
   * Whatever numbers an update supplies, the episode stays live under its
   * identity with its show, season and number, so the lookup by those keys
   * finds it.
   */
  lemma UpdateKeepsKeys(db: Db, episodeId: int, u: EpisodeUpdate, now: Instant)
    requires Valid(db.episodes) && Live(db.episodes, episodeId)
    ensures var before := GetById(db.episodes, episodeId).value;
      var db' := UpdateEpisode(db, episodeId, u, now).1;
      && GetById(db'.episodes, episodeId).Some?
      && GetById(db'.episodes, episodeId).value.data.contentId == before.data.contentId
      && GetById(db'.episodes, episodeId).value.data.seasonNumber == before.data.seasonNumber
      && GetById(db'.episodes, episodeId).value.data.episodeNumber == before.data.episodeNumber
      && ByNumber(db', before.data.contentId, before.data.seasonNumber, before.data.episodeNumber).Some?
  {
    var before := GetById(db.episodes, episodeId).value;
    var db' := UpdateEpisode(db, episodeId, u, now).1;
    var after := before.(data := MergeEpisode(before.data, u), updatedAt := Some(now));
    var m :| 0 <= m < |db.episodes.rows| && db.episodes.rows[m] == before;
    assert db'.episodes.rows[m] == after;
    var found := GetById(db'.episodes, episodeId).value;
    var k :| 0 <= k < |db'.episodes.rows| && db'.episodes.rows[k] == found;
    assert k == m;
    assert IsEpisode(before.data.contentId, before.data.seasonNumber, before.data.episodeNumber)(db'.episodes.rows[m]);
  }

  /** `DeleteEpisodeAsync`: a soft delete. */
  function DeleteEpisode(db: Db, episodeId: int, now: Instant): (r: (bool, Db))
    ensures r.0 <==> Live(db.episodes, episodeId)
    ensures !r.0 ==> r.1 == db
    ensures r.1 == db.(episodes := r.1.episodes)
  {
    var (ok, episodes) := SoftDelete(db.episodes, episodeId, now);
    (ok, db.(episodes := episodes))
  }

  /** A deleted episode is no longer found by its identity, and no longer listed. */
  lemma DeleteThenNotFound(db: Db, episodeId: int, now: Instant, contentId: int)
    requires Valid(db.episodes) && Live(db.episodes, episodeId)
    ensures var db' := DeleteEpisode(db, episodeId, now).1;
      && GetEpisodeById(db', episodeId) == Err(NotFound("Episode", episodeId))
      && forall e :: e in ByContent(db', contentId) ==> e.id != episodeId
  {
    SoftDeleteEffect(db.episodes, episodeId, now);
  }
}
