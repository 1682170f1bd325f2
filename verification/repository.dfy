/**
 * `BaseRepository<T>`: every entity carries the `BaseEntity` columns (identity,
 * creation and update instants, soft-delete flag), and every read hides the
 * soft-deleted rows.
 */
module Repository {
  import opened Wrappers
  import opened Clock
  import opened Sequences

  /** A stored entity: the `BaseEntity` columns around the entity's own fields. */
  datatype Row<T> = Row(id: int, createdAt: Instant, updatedAt: Option<Instant>, isDeleted: bool, data: T)

  /** A table: its rows in insertion order and the next identity value. */
  datatype Table<T> = Table(rows: seq<Row<T>>, nextId: int)

  function EmptyTable<T>(): Table<T> {
    Table([], 1)
  }

  /** Identities are positive, distinct, and below the next identity value. */
  predicate Valid<T>(t: Table<T>) {
    && t.nextId >= 1
    && (forall i :: 0 <= i < |t.rows| ==> 1 <= t.rows[i].id < t.nextId)
    && (forall i, j :: 0 <= i < j < |t.rows| ==> t.rows[i].id != t.rows[j].id)
  }

  /** Some stored row, deleted or not, has identity `id`. */
  predicate Stored<T>(t: Table<T>, id: int) {
    exists i :: 0 <= i < |t.rows| && t.rows[i].id == id
  }

  /** A non-deleted row with identity `id` is stored. */
  predicate Live<T>(t: Table<T>, id: int) {
    exists i :: 0 <= i < |t.rows| && t.rows[i].id == id && !t.rows[i].isDeleted
  }

  /** `GetAllAsync`: the non-deleted rows, in table order. */
  function GetAll<T(!new)>(t: Table<T>): (r: seq<Row<T>>)
    ensures forall e :: e in r <==> e in t.rows && !e.isDeleted
  {
    Filter(t.rows, (e: Row<T>) => !e.isDeleted)
  }

  /** `FindAsync(p)`: the non-deleted rows satisfying `p`, in table order. */
  function Find<T(!new)>(t: Table<T>, p: Row<T> -> bool): (r: seq<Row<T>>)
    ensures forall e :: e in r <==> e in t.rows && !e.isDeleted && p(e)
  {
    Filter(GetAll(t), p)
  }

  /** `GetByIdAsync`: the non-deleted row with identity `id`, if any. */
  function GetById<T(!new)>(t: Table<T>, id: int): (r: Option<Row<T>>)
    ensures r.Some? <==> Live(t, id)
    ensures r.Some? ==> r.value in t.rows && r.value.id == id && !r.value.isDeleted
  {
    FirstWhere(t.rows, (e: Row<T>) => e.id == id && !e.isDeleted)
  }

  /** A navigation property (`Include`): the stored row with identity `id`, deleted or not. */
  function Navigate<T(!new)>(t: Table<T>, id: int): (r: Option<Row<T>>)
    ensures r.Some? <==> Stored(t, id)
    ensures r.Some? ==> r.value in t.rows && r.value.id == id
  {
    FirstWhere(t.rows, (e: Row<T>) => e.id == id)
  }

  /** `ExistsAsync`. */
  function Exists<T(!new)>(t: Table<T>, id: int): (b: bool)
    ensures b <==> Live(t, id)
  {
    GetById(t, id).Some?
  }

  /** `AddAsync`: appends a new non-deleted row under the next identity value. */
  function Add<T>(t: Table<T>, data: T, now: Instant): (r: (Table<T>, Row<T>))
    ensures Valid(t) ==> Valid(r.0) && !Stored(t, r.1.id) && r.1.id >= 1
    ensures r.0.rows == t.rows + [r.1]
    ensures r.1.data == data && !r.1.isDeleted && r.1.createdAt == now && r.1.updatedAt.None?
  {
    var row := Row(t.nextId, now, None, false, data);
    (Table(t.rows + [row], t.nextId + 1), row)
  }

  /** Writes `row` back over the stored row with the same identity (a tracked entity saved). */
  function Put<T>(t: Table<T>, row: Row<T>): (r: Table<T>)
    ensures |r.rows| == |t.rows| && r.nextId == t.nextId
    ensures forall i :: 0 <= i < |t.rows| && t.rows[i].id != row.id ==> r.rows[i] == t.rows[i]
    ensures forall i :: 0 <= i < |t.rows| && t.rows[i].id == row.id ==> r.rows[i] == row
    ensures Valid(t) ==> Valid(r)
  {
    Table(seq(|t.rows|, i requires 0 <= i < |t.rows| => if t.rows[i].id == row.id then row else t.rows[i]), t.nextId)
  }

  /** `DeleteAsync`: physical removal of a live row; false when there is none. */
  function Delete<T(!new)>(t: Table<T>, id: int): (r: (bool, Table<T>))
    ensures r.0 <==> Live(t, id)
    ensures !r.0 ==> r.1 == t
    ensures r.0 ==> !Stored(r.1, id)
    ensures r.0 ==> forall e :: e in r.1.rows <==> e in t.rows && e.id != id
    ensures Valid(t) ==> Valid(r.1)
  {
    if GetById(t, id).None? then (false, t)
    else
      var rows := Filter(t.rows, (e: Row<T>) => e.id != id);
      FilterKeepsValid(t, (e: Row<T>) => e.id != id);
      assert forall i :: 0 <= i < |rows| ==> rows[i] in rows;
      (true, Table(rows, t.nextId))
  }

  /** Dropping rows keeps identities distinct and below the next identity value. */
  lemma FilterKeepsValid<T(!new)>(t: Table<T>, p: Row<T> -> bool)
    ensures Valid(t) ==> Valid(Table(Filter(t.rows, p), t.nextId))
  {
    if Valid(t) {
      var f := Filter(t.rows, p);
      assert DistinctBy(t.rows, RowId);
      FilterDistinct(t.rows, p, RowId);
      forall i | 0 <= i < |f| ensures 1 <= f[i].id < t.nextId {
        assert f[i] in t.rows;
      }
      forall i, j | 0 <= i < j < |f| ensures f[i].id != f[j].id {
        assert RowId(f[i]) != RowId(f[j]);
      }
    }
  }

  /** `SoftDeleteAsync`: marks a live row deleted and stamps its update instant. */
  function SoftDelete<T(!new)>(t: Table<T>, id: int, now: Instant): (r: (bool, Table<T>))
    ensures r.0 <==> Live(t, id)
    ensures !r.0 ==> r.1 == t
    ensures r.0 ==> Stored(r.1, id) && !Live(r.1, id)
    ensures forall other :: other != id ==> GetById(r.1, other) == GetById(t, other)
    ensures Valid(t) ==> Valid(r.1)
  {
    match GetById(t, id)
    case None => (false, t)
    case Some(row) =>
      var row' := row.(isDeleted := true, updatedAt := Some(now));
      PutKeepsOtherIds(t, row');
      (true, Put(t, row'))
  }

  function RowId<T>(r: Row<T>): int {
    r.id
  }

  /** In a valid table, the live rows have distinct identities. */
  lemma LiveIdsDistinct<T(!new)>(t: Table<T>)
    requires Valid(t)
    ensures DistinctBy(GetAll(t), RowId)
  {
    assert DistinctBy(t.rows, RowId);
    FilterDistinct(t.rows, (e: Row<T>) => !e.isDeleted, RowId);
  }

  /** The selector of `ids.Contains(e.Id)`. */
  function IdIn<T>(ids: seq<int>): Row<T> -> bool {
    (e: Row<T>) => e.id in ids
  }

  /** Selecting rows by a list of identities finds at most one live row per listed identity. */
  lemma FindByIdsBound<T(!new)>(t: Table<T>, ids: seq<int>)
    requires Valid(t)
    ensures |Find(t, IdIn(ids))| <= |ids|
  {
    LiveIdsDistinct(t);
    FilterMemberBound(GetAll(t), RowId, ids);
    FilterAgree(GetAll(t), IdIn(ids), KeyIn(RowId, ids));
  }

  /** After `Add`, the new row is what `GetById` finds under its identity. */
  lemma AddThenGetById<T(!new)>(t: Table<T>, data: T, now: Instant)
    requires Valid(t)
    ensures GetById(Add(t, data, now).0, Add(t, data, now).1.id) == Some(Add(t, data, now).1)
  {
    var (t', row) := Add(t, data, now);
    var found := GetById(t', row.id);
    assert t'.rows[|t.rows|] == row;
    assert Live(t', row.id);
    var m :| 0 <= m < |t'.rows| && t'.rows[m] == found.value;
  }

  /**
   * A successful soft delete keeps the row stored, flagged and stamped, hides it
   * from `GetById`, and leaves every other row as it was.
   */
  lemma SoftDeleteEffect<T(!new)>(t: Table<T>, id: int, now: Instant)
    requires Valid(t) && Live(t, id)
    ensures var t' := SoftDelete(t, id, now).1;
      && |t'.rows| == |t.rows|
      && (forall i :: 0 <= i < |t.rows| && t.rows[i].id != id ==> t'.rows[i] == t.rows[i])
      && (forall i :: 0 <= i < |t.rows| && t.rows[i].id == id ==>
            t'.rows[i] == t.rows[i].(isDeleted := true, updatedAt := Some(now)))
      && Stored(t', id)
      && GetById(t', id).None?
  {
    var row := GetById(t, id).value;
    var t' := SoftDelete(t, id, now).1;
    var m :| 0 <= m < |t.rows| && t.rows[m] == row;
    forall i | 0 <= i < |t.rows| && t.rows[i].id == id
      ensures t.rows[i] == row
    {
      assert i == m;
    }
    assert t'.rows[m].id == id;
  }

  /** A second soft delete of the same identity reports false and changes nothing. */
  lemma SoftDeleteTwice<T(!new)>(t: Table<T>, id: int, now: Instant, later: Instant)
    requires Valid(t)
    ensures var t' := SoftDelete(t, id, now).1;
      SoftDelete(t', id, later) == (false, t')
  {
    if Live(t, id) {
      SoftDeleteEffect(t, id, now);
    }
  }

  /** `GetById` of any other identity is unaffected by writing back a row. */
  lemma PutKeepsOthers<T(!new)>(t: Table<T>, row: Row<T>, other: int)
    requires other != row.id
    ensures GetById(Put(t, row), other) == GetById(t, other)
  {
    var t' := Put(t, row);
    var p := (e: Row<T>) => e.id == other && !e.isDeleted;
    forall i | 0 <= i < |t.rows| ensures p(t'.rows[i]) <==> p(t.rows[i]) && (p(t.rows[i]) ==> t'.rows[i] == t.rows[i]) {
    }
    FirstWhereAgree(t.rows, t'.rows, p);
  }

  /** Writing back a row leaves `GetById` of every other identity as it was. */
  lemma PutKeepsOtherIds<T(!new)>(t: Table<T>, row: Row<T>)
    ensures forall other :: other != row.id ==> GetById(Put(t, row), other) == GetById(t, other)
  {
    forall other | other != row.id
      ensures GetById(Put(t, row), other) == GetById(t, other)
    {
      PutKeepsOthers(t, row, other);
    }
  }

  /** Reading back after an in-place update: `id` now reads as `row`, every other identity as before. */
  ghost predicate UpdatedTo<T(!new)>(t: Table<T>, t': Table<T>, id: int, row: Row<T>) {
    GetById(t', id) == Some(row) && forall other :: other != id ==> GetById(t', other) == GetById(t, other)
  }

  /** Writing back a live row, still live, updates exactly that identity. */
  lemma PutUpdates<T(!new)>(t: Table<T>, row: Row<T>)
    requires Live(t, row.id) && !row.isDeleted
    ensures UpdatedTo(t, Put(t, row), row.id, row)
  {
    var t' := Put(t, row);
    var i :| 0 <= i < |t.rows| && t.rows[i].id == row.id && !t.rows[i].isDeleted;
    assert t'.rows[i] == row;
    assert Live(t', row.id);
    PutKeepsOtherIds(t, row);
  }

  /** Two sequences that agree wherever `p` holds in either have the same first `p`-element. */
  lemma {:induction false} FirstWhereAgree<T(!new)>(xs: seq<T>, ys: seq<T>, p: T -> bool)
    requires |xs| == |ys|
    requires forall i :: 0 <= i < |xs| ==> (p(ys[i]) <==> p(xs[i])) && (p(xs[i]) ==> ys[i] == xs[i])
    ensures FirstWhere(ys, p) == FirstWhere(xs, p)
    decreases |xs|
  {
    if |xs| > 0 {
      FirstWhereAgree(xs[1..], ys[1..], p);
      IndexWhereAgree(xs, ys, p);
    }
  }

  lemma {:induction false} IndexWhereAgree<T(!new)>(xs: seq<T>, ys: seq<T>, p: T -> bool)
    requires |xs| == |ys|
    requires forall i :: 0 <= i < |xs| ==> (p(ys[i]) <==> p(xs[i]))
    ensures IndexWhere(ys, p) == IndexWhere(xs, p)
    decreases |xs|
  {
    if |xs| > 0 {
      IndexWhereAgree(xs[1..], ys[1..], p);
    }
  }
}
