/**
 * `MyListRepository` and `MyListService`: the titles a profile saved for
 * later. Adding is idempotent, removing is a soft delete of one entry.
 */
module MyList {
  import opened Wrappers
  import opened Clock
  import opened Sequences
  import opened Repository
  import opened Entities
  import opened Profiles
  import opened Catalogue

  /**
   * `MyListResponseDto`. A missing title leaves the default summary in
   * place; here that default is `None`.
   */
  datatype MyListView = MyListView(
    id: int, userId: int, profileId: int, contentId: int, addedAt: Instant, content: Option<ContentSummary>)

  /** The selector of a profile's live entries. */
  function OfProfile(profileId: int): Row<MyListData> -> bool {
    (m: Row<MyListData>) => m.data.profileId == profileId && !m.isDeleted
  }

  /** The selector of the live entries of one title in one profile's list. */
  function InList(contentId: int, profileId: int): Row<MyListData> -> bool {
    (m: Row<MyListData>) => m.data.contentId == contentId && m.data.profileId == profileId && !m.isDeleted
  }

  /** Most recently added first. */
  function AddedOrder(m: Row<MyListData>): Key {
    Key(-m.data.addedAt, 0)
  }

  /** `GetMyListByProfileIdAsync` in the repository: a profile's live entries, newest first. */
  function ListOf(db: Db, profileId: int): (r: seq<Row<MyListData>>)
    ensures forall m :: m in r <==> m in db.myList.rows && !m.isDeleted && m.data.profileId == profileId
    ensures multiset(r) == multiset(Filter(db.myList.rows, OfProfile(profileId)))
    ensures forall i, j :: 0 <= i < j < |r| ==> r[i].data.addedAt >= r[j].data.addedAt
  {
    var live := Filter(db.myList.rows, OfProfile(profileId));
    var r := SortBy(live, AddedOrder);
    SortByMembers(live, AddedOrder);
    assert SortedBy(r, AddedOrder);
    r
  }

  /** `IsContentInMyListAsync`: some live entry holds the pair. */
  function IsContentInMyList(db: Db, contentId: int, profileId: int): (b: bool)
    ensures b <==> exists m :: m in db.myList.rows && InList(contentId, profileId)(m)
  {
    var i := IndexWhere(db.myList.rows, InList(contentId, profileId));
    assert i.Some? ==> db.myList.rows[i.value] in db.myList.rows;
    i.Some?
  }

  /** `GetMyListItemAsync`: the first live entry holding the pair. */
  function GetMyListItem(db: Db, contentId: int, profileId: int): (r: Option<Row<MyListData>>)
    ensures r.Some? <==> IsContentInMyList(db, contentId, profileId)
    ensures r.Some? ==> r.value in db.myList.rows && InList(contentId, profileId)(r.value)
  {
    FirstWhere(db.myList.rows, InList(contentId, profileId))
  }

  /** A title is in a profile's list exactly when the profile's listing shows an entry for it. */
  lemma InListIffListed(db: Db, contentId: int, profileId: int)
    ensures IsContentInMyList(db, contentId, profileId)
      <==> exists i :: 0 <= i < |ListOf(db, profileId)| && ListOf(db, profileId)[i].data.contentId == contentId
  {
    var r := ListOf(db, profileId);
    if IsContentInMyList(db, contentId, profileId) {
      var m :| m in db.myList.rows && InList(contentId, profileId)(m);
      assert m in r;
    }
  }

  /** The title of an entry as the listing includes it: soft-deleted titles are still loaded. */
  function StoredContent(db: Db, contentId: int): (r: Option<ContentSummary>)
    ensures r.Some? <==> Stored(db.contents, contentId)
  {
    match Navigate(db.contents, contentId)
    case None => None
    case Some(c) => Some(Summarize(c))
  }

  /** `MapMyListToResponseDto`, for the listing. */
  function ListView(db: Db, m: Row<MyListData>): MyListView {
    MyListView(m.id, m.data.userId, m.data.profileId, m.data.contentId, m.data.addedAt, StoredContent(db, m.data.contentId))
  }

  /** `MapMyListToResponseDtoWithContent`, after an add: the title is looked up among the live ones. */
  function AddedView(db: Db, m: Row<MyListData>): MyListView {
    var content := match GetById(db.contents, m.data.contentId)
      case None => None
      case Some(c) => Some(Summarize(c));
    MyListView(m.id, m.data.userId, m.data.profileId, m.data.contentId, m.data.addedAt, content)
  }

  /** `GetMyListByProfileIdAsync` in the service. */
  function GetMyList(db: Db, profileId: int): (r: seq<MyListView>)
    ensures |r| == |ListOf(db, profileId)|
    ensures forall i :: 0 <= i < |r| ==> r[i].profileId == profileId
    ensures forall i :: 0 <= i < |r| ==>
      r[i].id == ListOf(db, profileId)[i].id && r[i].contentId == ListOf(db, profileId)[i].data.contentId
    ensures forall i :: 0 <= i < |r| ==> (r[i].content.Some? <==> Stored(db.contents, r[i].contentId))
    ensures forall i, j :: 0 <= i < j < |r| ==> r[i].addedAt >= r[j].addedAt
  {
    var entries := ListOf(db, profileId);
    seq(|entries|, i requires 0 <= i < |entries| => ListView(db, entries[i]))
  }

  /**
   * `AddToMyListAsync`: the profile and the title must be live. A pair already
   * in the list gives back its entry and adds nothing; otherwise one entry is
   * added for the profile's owner, stamped `now`.
   */
  function AddToMyList(db: Db, profileId: int, contentId: int, now: Instant): (r: (Result<MyListView>, Db))
    ensures r.0.Err? <==> !Live(db.profiles, profileId) || !Live(db.contents, contentId)
    ensures r.0.Err? ==> r.1 == db
    ensures !Live(db.profiles, profileId) ==> r.0 == Err(NotFound("Profile", profileId))
    ensures Live(db.profiles, profileId) && !Live(db.contents, contentId) ==> r.0 == Err(NotFound("Content", contentId))
    ensures r.0.Ok? && IsContentInMyList(db, contentId, profileId) ==>
      r.1 == db && r.0.value == AddedView(db, GetMyListItem(db, contentId, profileId).value)
    ensures r.0.Ok? && !IsContentInMyList(db, contentId, profileId) ==> r.1 == db.(myList := r.1.myList)
    ensures r.0.Ok? && !IsContentInMyList(db, contentId, profileId) ==>
      var owner := GetById(db.profiles, profileId).value.data.userId;
      r.1.myList.rows == db.myList.rows + [Row(r.0.value.id, now, None, false, MyListData(owner, profileId, contentId, now))]
    ensures Valid(db.myList) ==> Valid(r.1.myList)
  {
    match GetById(db.profiles, profileId)
    case None => (Err(NotFound("Profile", profileId)), db)
    case Some(profile) =>
      if !Live(db.contents, contentId) then (Err(NotFound("Content", contentId)), db)
      else match GetMyListItem(db, contentId, profileId)
        case Some(existing) => (Ok(AddedView(db, existing)), db)
        case None =>
          var (myList, row) := Add(db.myList, MyListData(profile.data.userId, profileId, contentId, now), now);
          var db' := db.(myList := myList);
          (Ok(AddedView(db', row)), db')
  }

  /** After a successful add, the title is in the profile's list. */
  lemma AddThenContains(db: Db, profileId: int, contentId: int, now: Instant)
    requires AddToMyList(db, profileId, contentId, now).0.Ok?
    ensures IsContentInMyList(AddToMyList(db, profileId, contentId, now).1, contentId, profileId)
  {
    var db' := AddToMyList(db, profileId, contentId, now).1;
    if !IsContentInMyList(db, contentId, profileId) {
      assert db'.myList.rows[|db'.myList.rows| - 1] in db'.myList.rows;
    }
  }

  /** Number of live entries holding the pair. */
  function EntryCount(db: Db, contentId: int, profileId: int): nat {
    Count(db.myList.rows, InList(contentId, profileId))
  }

  /** A list with at most one entry for the pair has exactly one after a successful add. */
  lemma AddLeavesOneEntry(db: Db, profileId: int, contentId: int, now: Instant)
    requires EntryCount(db, contentId, profileId) <= 1
    requires AddToMyList(db, profileId, contentId, now).0.Ok?
    ensures EntryCount(AddToMyList(db, profileId, contentId, now).1, contentId, profileId) == 1
  {
    var db' := AddToMyList(db, profileId, contentId, now).1;
    var p := InList(contentId, profileId);
    CountZero(db.myList.rows, p);
    if !IsContentInMyList(db, contentId, profileId) {
      var x := db'.myList.rows[|db'.myList.rows| - 1];
      assert db'.myList.rows == db.myList.rows + [x];
      CountAppend(db.myList.rows, x, p);
    } else {
      var m :| m in db.myList.rows && p(m);
    }
  }

  /** Adding the same title twice to a list without it leaves exactly one entry. */
  lemma AddTwiceLeavesOne(db: Db, profileId: int, contentId: int, now: Instant, later: Instant)
    requires !IsContentInMyList(db, contentId, profileId)
    requires AddToMyList(db, profileId, contentId, now).0.Ok?
    ensures var db' := AddToMyList(db, profileId, contentId, now).1;
      var db'' := AddToMyList(db', profileId, contentId, later).1;
      && AddToMyList(db', profileId, contentId, later).0.Ok?
      && db'' == db'
      && EntryCount(db'', contentId, profileId) == 1
  {
    var db' := AddToMyList(db, profileId, contentId, now).1;
    CountZero(db.myList.rows, InList(contentId, profileId));
    AddLeavesOneEntry(db, profileId, contentId, now);
    AddThenContains(db, profileId, contentId, now);
  }

  /** `RemoveFromMyListAsync`: soft-deletes the first live entry holding the pair, if any. */
  function RemoveFromMyList(db: Db, contentId: int, profileId: int, now: Instant): (r: (bool, Db))
    ensures r.0 <==> IsContentInMyList(db, contentId, profileId)
    ensures !r.0 ==> r.1 == db
    ensures r.1 == db.(myList := r.1.myList)
    ensures r.0 ==> r.1.myList == SoftDelete(db.myList, GetMyListItem(db, contentId, profileId).value.id, now).1
  {
    match GetMyListItem(db, contentId, profileId)
    case None => (false, db)
    case Some(m) =>
      assert Live(db.myList, m.id) by {
        var k :| 0 <= k < |db.myList.rows| && db.myList.rows[k] == m;
      }
      var (ok, myList) := SoftDelete(db.myList, m.id, now);
      (ok, db.(myList := myList))
  }

  /**
   * A removal takes exactly one entry of the pair out of the list and touches
   * no other entry; so a title added once is out of the list afterwards.
   */
  lemma RemoveDropsOneEntry(db: Db, contentId: int, profileId: int, now: Instant)
    requires Valid(db.myList) && IsContentInMyList(db, contentId, profileId)
    ensures var db' := RemoveFromMyList(db, contentId, profileId, now).1;
      && EntryCount(db', contentId, profileId) + 1 == EntryCount(db, contentId, profileId)
      && (forall c, p :: (c, p) != (contentId, profileId) ==> EntryCount(db', c, p) == EntryCount(db, c, p))
  {
    var m := GetMyListItem(db, contentId, profileId).value;
    var db' := RemoveFromMyList(db, contentId, profileId, now).1;
    var xs := db.myList.rows;
    var ys := db'.myList.rows;
    var k :| 0 <= k < |xs| && xs[k] == m;
    assert |ys| == |xs| && ys[k] == m.(isDeleted := true, updatedAt := Some(now))
        && forall i :: 0 <= i < |xs| && i != k ==> ys[i] == xs[i] by {
      SoftDeleteEffect(db.myList, m.id, now);
      assert forall i :: 0 <= i < |xs| && i != k ==> xs[i].id != m.id;
    }
    CountDrop(xs, ys, InList(contentId, profileId), k);
    forall c, p | (c, p) != (contentId, profileId)
      ensures EntryCount(db', c, p) == EntryCount(db, c, p)
    {
      forall i | 0 <= i < |xs|
        ensures InList(c, p)(xs[i]) <==> InList(c, p)(ys[i])
      {
        if i == k {
          assert !InList(c, p)(xs[i]) && !InList(c, p)(ys[i]);
        }
      }
      CountAgree(xs, ys, InList(c, p));
    }
  }

  /** With a single entry for the pair, the title is out of the list after a removal. */
  lemma RemoveSingleEntry(db: Db, contentId: int, profileId: int, now: Instant)
    requires Valid(db.myList) && EntryCount(db, contentId, profileId) == 1
    ensures RemoveFromMyList(db, contentId, profileId, now).0
    ensures !IsContentInMyList(RemoveFromMyList(db, contentId, profileId, now).1, contentId, profileId)
  {
    var p := InList(contentId, profileId);
    CountZero(db.myList.rows, p);
    var db' := RemoveFromMyList(db, contentId, profileId, now).1;
    RemoveDropsOneEntry(db, contentId, profileId, now);
    CountZero(db'.myList.rows, p);
  }
}
