/**
 * `PasswordResetService`: six-digit reset codes kept in the `PasswordResets`
 * table, one per address once issued, checked against their creation instant.
 */
module PasswordReset {
  import opened Wrappers
  import opened Clock
  import opened Sequences
  import opened Repository
  import opened Entities
  import opened CodeGeneration

  /** Lifetime of a reset code, in minutes, used for both the stored expiry and the check. */
  const ResetCodeLifetimeMinutes: int := 10

  /** `Users.FirstOrDefaultAsync(u => u.Email == email)`: soft-deleted accounts are not skipped. */
  function AnyUserWithEmail(db: Db, email: string): (r: Option<Row<UserData>>)
    ensures r.Some? ==> r.value in db.users.rows && r.value.data.email == email
    ensures r.None? <==> forall i :: 0 <= i < |db.users.rows| ==> db.users.rows[i].data.email != email
  {
    FirstWhere(db.users.rows, (u: Row<UserData>) => u.data.email == email)
  }

  predicate ForEmail(email: string, r: Row<ResetData>) {
    r.data.email == email
  }

  predicate Matches(email: string, code: string, r: Row<ResetData>) {
    r.data.email == email && r.data.resetCode == code
  }

  /** The reset records of one address. */
  function ResetsFor(db: Db, email: string): (r: seq<Row<ResetData>>)
    ensures forall e :: e in r <==> e in db.passwordResets.rows && e.data.email == email
  {
    Filter(db.passwordResets.rows, (e: Row<ResetData>) => ForEmail(email, e))
  }

  /** The record `Create` adds is the last row of the reset table. */
  function Newest(db: Db): Row<ResetData>
    requires |db.passwordResets.rows| > 0
  {
    db.passwordResets.rows[|db.passwordResets.rows| - 1]
  }

  /**
   * `CreatePasswordResetAsync`, with the random draw as a parameter. The
   * address's earlier records are removed and one new record is added, in one
   * save. When there is no user with the address, or the generator rejects the
   * draw, the method returns null before saving, so nothing is removed.
   */
  function Create(db: Db, email: string, random: Int32, now: Instant): (r: (Option<string>, Db))
    ensures r.0.None? <==> AnyUserWithEmail(db, email).None? || random == Int32Min
    ensures r.0.None? ==> r.1 == db
    ensures r.0.Some? ==> r.0 == Some(GenerateSecureCode(random).value) && IsSixDigitCode(r.0.value)
    ensures r.1 == db.(passwordResets := r.1.passwordResets)
    ensures Valid(db.passwordResets) ==> Valid(r.1.passwordResets)
    ensures r.0.Some? ==> |r.1.passwordResets.rows| > 0 && ResetsFor(r.1, email) == [Newest(r.1)]
    ensures r.0.Some? ==> var last := Newest(r.1);
      && last.data == ResetData(AnyUserWithEmail(db, email).value.id, email, r.0.value,
                                AddMinutes(now, ResetCodeLifetimeMinutes), false, None)
      && last.createdAt == now && !last.isDeleted
    ensures r.0.Some? ==> forall e :: e in r.1.passwordResets.rows && e.data.email != email
                                <==> e in db.passwordResets.rows && e.data.email != email
  {
    match AnyUserWithEmail(db, email)
    case None => (None, db)
    case Some(u) =>
      match GenerateSecureCode(random)
      case Err(_) => (None, db)
      case Ok(code) =>
        var kept := Filter(db.passwordResets.rows, (e: Row<ResetData>) => !ForEmail(email, e));
        FilterKeepsValid(db.passwordResets, (e: Row<ResetData>) => !ForEmail(email, e));
        var data := ResetData(u.id, email, code, AddMinutes(now, ResetCodeLifetimeMinutes), false, None);
        var (table, row) := Add(Table(kept, db.passwordResets.nextId), data, now);
        var db' := db.(passwordResets := table);
        ResetsAfterCreate(kept, row, email);
        (Some(code), db')
  }

  /** Filtering the kept rows plus the new one by address leaves only the new one. */
  lemma ResetsAfterCreate(kept: seq<Row<ResetData>>, row: Row<ResetData>, email: string)
    requires forall i :: 0 <= i < |kept| ==> kept[i].data.email != email
    requires row.data.email == email
    ensures Filter(kept + [row], (e: Row<ResetData>) => ForEmail(email, e)) == [row]
  {
    FilterAppend(kept, row, (e: Row<ResetData>) => ForEmail(email, e));
    FilterNone(kept, (e: Row<ResetData>) => ForEmail(email, e));
  }

  predicate Unused(email: string, code: string, r: Row<ResetData>) {
    Matches(email, code, r) && !r.data.isUsed
  }

  /** Row `i` is the first unused record with this address and code. */
  predicate FirstUnusedMatch(rows: seq<Row<ResetData>>, email: string, code: string, i: int) {
    0 <= i < |rows| && Unused(email, code, rows[i]) && forall j :: 0 <= j < i ==> !Unused(email, code, rows[j])
  }

  /** The code of this record is inside its window at `now`, counted from its creation. */
  predicate InWindow(r: Row<ResetData>, now: Instant) {
    !IsCodeExpired(r.createdAt, ResetCodeLifetimeMinutes, now)
  }

  /**
   * `VerifyResetCodeAsync`: the first unused record with this address and code
   * decides, and its expiry is computed from its creation instant; the stored
   * `ExpiresAt` is not consulted.
   */
  function Verify(db: Db, email: string, code: string, now: Instant): (b: bool)
    ensures b <==> exists i :: FirstUnusedMatch(db.passwordResets.rows, email, code, i) && InWindow(db.passwordResets.rows[i], now)
  {
    var rows := db.passwordResets.rows;
    match IndexWhere(rows, (e: Row<ResetData>) => Unused(email, code, e))
    case None =>
      assert forall j :: !FirstUnusedMatch(rows, email, code, j);
      false
    case Some(i) =>
      assert FirstUnusedMatch(rows, email, code, i);
      assert forall j :: FirstUnusedMatch(rows, email, code, j) ==> !(j < i) && !(i < j);
      InWindow(rows[i], now)
  }

  /** Row `i` is the first record with this address and code, used or not. */
  predicate FirstMatchAt(rows: seq<Row<ResetData>>, email: string, code: string, i: int) {
    0 <= i < |rows| && Matches(email, code, rows[i]) && forall j :: 0 <= j < i ==> !Matches(email, code, rows[j])
  }

  /**
   * `MarkResetCodeAsUsedAsync`: the first record with this address and code,
   * used or not, is flagged used and stamped; false when there is none.
   */
  function MarkUsed(db: Db, email: string, code: string, now: Instant): (r: (bool, Db))
    ensures r.0 <==> exists i :: 0 <= i < |db.passwordResets.rows| && Matches(email, code, db.passwordResets.rows[i])
    ensures !r.0 ==> r.1 == db
    ensures r.1 == db.(passwordResets := r.1.passwordResets)
    ensures Valid(db.passwordResets) ==> Valid(r.1.passwordResets)
    ensures |r.1.passwordResets.rows| == |db.passwordResets.rows|
    ensures forall i :: 0 <= i < |db.passwordResets.rows| ==> r.1.passwordResets.rows[i].data.email == db.passwordResets.rows[i].data.email
    ensures forall i :: 0 <= i < |db.passwordResets.rows| ==> r.1.passwordResets.rows[i].data.resetCode == db.passwordResets.rows[i].data.resetCode
    ensures forall i :: FirstMatchAt(db.passwordResets.rows, email, code, i) ==>
      var row := db.passwordResets.rows[i];
      r.1.passwordResets.rows[i] == row.(data := row.data.(isUsed := true, usedAt := Some(now)))
    ensures forall i, k :: FirstMatchAt(db.passwordResets.rows, email, code, i) && 0 <= k < |db.passwordResets.rows| && k != i ==>
      r.1.passwordResets.rows[k] == db.passwordResets.rows[k]
  {
    var rows := db.passwordResets.rows;
    match IndexWhere(rows, (e: Row<ResetData>) => Matches(email, code, e))
    case None => (false, db)
    case Some(i) =>
      var row' := rows[i].(data := rows[i].data.(isUsed := true, usedAt := Some(now)));
      assert forall j :: FirstMatchAt(rows, email, code, j) ==> j == i by {
        forall j | FirstMatchAt(rows, email, code, j)
          ensures j == i
        {
          assert !(j < i) && !(i < j);
        }
      }
      (true, db.(passwordResets := db.passwordResets.(rows := rows[i := row'])))
  }

  /**
   * `IsResetCodeExpiredAsync`: true when no record has this address and code,
   * otherwise the expiry of the first such record, used or not.
   */
  function IsExpired(db: Db, email: string, code: string, now: Instant): (b: bool)
    ensures (forall i :: 0 <= i < |db.passwordResets.rows| ==> !Matches(email, code, db.passwordResets.rows[i])) ==> b
    ensures forall i :: (0 <= i < |db.passwordResets.rows| && Matches(email, code, db.passwordResets.rows[i])
      && forall j :: 0 <= j < i ==> !Matches(email, code, db.passwordResets.rows[j])) ==>
      (b <==> IsCodeExpired(db.passwordResets.rows[i].createdAt, ResetCodeLifetimeMinutes, now))
  {
    match FirstWhere(db.passwordResets.rows, (e: Row<ResetData>) => Matches(email, code, e))
    case None => true
    case Some(row) => IsCodeExpired(row.createdAt, ResetCodeLifetimeMinutes, now)
  }

  /** `CleanupExpiredResetCodesAsync`: physical removal of the records past their stored expiry. */
  function Cleanup(db: Db, now: Instant): (r: Db)
    ensures r == db.(passwordResets := r.passwordResets)
    ensures forall e :: e in r.passwordResets.rows <==> e in db.passwordResets.rows && now <= e.data.expiresAt
    ensures Valid(db.passwordResets) ==> Valid(r.passwordResets)
  {
    FilterKeepsValid(db.passwordResets, (e: Row<ResetData>) => !(now > e.data.expiresAt));
    db.(passwordResets := Table(Filter(db.passwordResets.rows, (e: Row<ResetData>) => !(now > e.data.expiresAt)),
                                db.passwordResets.nextId))
  }

  /** The rows before the newest have other addresses after a successful `Create`. */
  lemma CreateOnlyRecord(db: Db, email: string, random: Int32, now: Instant)
    requires Create(db, email, random, now).0.Some?
    ensures var rows := Create(db, email, random, now).1.passwordResets.rows;
      forall i :: 0 <= i < |rows| - 1 ==> rows[i].data.email != email
  {
    var rows := Create(db, email, random, now).1.passwordResets.rows;
    forall i | 0 <= i < |rows| - 1
      ensures rows[i].data.email != email
    {
      assert rows[i] in ResetsFor(Create(db, email, random, now).1, email) <==> rows[i].data.email == email;
    }
  }

  /**
   * A freshly issued code verifies exactly until the end of its ten-minute
   * window, at every instant from its creation on.
   */
  lemma CreateThenVerify(db: Db, email: string, random: Int32, now: Instant, at: Instant)
    requires Valid(db.passwordResets)
    requires Create(db, email, random, now).0.Some?
    ensures var (code, db') := Create(db, email, random, now);
      Verify(db', email, code.value, at) <==> at <= AddMinutes(now, ResetCodeLifetimeMinutes)
  {
    CreateOnlyRecord(db, email, random, now);
  }

  /** Issuing a second code revokes the first: only the latest code of an address verifies. */
  lemma SecondCreateRevokesFirst(db: Db, email: string, r1: Int32, r2: Int32, now: Instant, later: Instant, at: Instant)
    requires Create(db, email, r1, now).0.Some? && r2 != Int32Min
    requires GenerateSecureCode(r1) != GenerateSecureCode(r2)
    ensures var (first, db1) := Create(db, email, r1, now);
      !Verify(Create(db1, email, r2, later).1, email, first.value, at)
  {
    var (first, db1) := Create(db, email, r1, now);
    assert AnyUserWithEmail(db1, email).Some?;
    CreateOnlyRecord(db1, email, r2, later);
  }

  /** A code marked used no longer verifies, at any instant. */
  lemma MarkUsedThenVerifyFails(db: Db, email: string, random: Int32, now: Instant, usedAt: Instant, at: Instant)
    requires Valid(db.passwordResets)
    requires Create(db, email, random, now).0.Some?
    ensures var (code, db') := Create(db, email, random, now);
      var (marked, db'') := MarkUsed(db', email, code.value, usedAt);
      marked && !Verify(db'', email, code.value, at)
  {
    var (code, db') := Create(db, email, random, now);
    CreateOnlyRecord(db, email, random, now);
    var rows := db'.passwordResets.rows;
    var last := |rows| - 1;
    assert Matches(email, code.value, rows[last]);
    var db'' := MarkUsed(db', email, code.value, usedAt).1;
    var rows'' := db''.passwordResets.rows;
    assert rows''[last].data.isUsed by {
      assert rows''[last] == rows[last].(data := rows[last].data.(isUsed := true, usedAt := Some(usedAt)));
    }
    assert forall i :: 0 <= i < |rows''| ==> !Unused(email, code.value, rows''[i]) by {
      forall i | 0 <= i < |rows''| - 1
        ensures rows''[i].data.email != email
      {
        assert rows''[i].data.email == rows[i].data.email;
      }
    }
  }

  /**
   * After `Create`, the stored expiry is the creation instant plus the lifetime,
   * so `Verify` (which reads the creation instant) and `Cleanup` (which reads
   * the stored expiry) agree on when the code dies.
   */
  lemma StoredExpiryAgrees(db: Db, email: string, random: Int32, now: Instant, at: Instant)
    requires Create(db, email, random, now).0.Some?
    ensures var db' := Create(db, email, random, now).1;
      (IsCodeExpired(Newest(db').createdAt, ResetCodeLifetimeMinutes, at) <==> at > Newest(db').data.expiresAt)
  {
  }

  /** After `Create`, `Verify` and `IsExpired` give opposite answers for the issued code. */
  lemma VerifyIsNotExpired(db: Db, email: string, random: Int32, now: Instant, at: Instant)
    requires Valid(db.passwordResets)
    requires Create(db, email, random, now).0.Some?
    ensures var (code, db') := Create(db, email, random, now);
      Verify(db', email, code.value, at) <==> !IsExpired(db', email, code.value, at)
  {
    CreateOnlyRecord(db, email, random, now);
  }

  function EmailOf(r: Row<ResetData>): string {
    r.data.email
  }

  /** At most one reset record per address: what `Create` leaves behind, and what every other operation keeps. */
  predicate OneResetPerEmail(db: Db) {
    DistinctBy(db.passwordResets.rows, EmailOf)
  }

  lemma CreateKeepsOneReset(db: Db, email: string, random: Int32, now: Instant)
    requires OneResetPerEmail(db)
    ensures OneResetPerEmail(Create(db, email, random, now).1)
  {
    if Create(db, email, random, now).0.Some? {
      var kept := Filter(db.passwordResets.rows, (e: Row<ResetData>) => !ForEmail(email, e));
      FilterDistinct(db.passwordResets.rows, (e: Row<ResetData>) => !ForEmail(email, e), EmailOf);
      var rows := Create(db, email, random, now).1.passwordResets.rows;
      assert rows == kept + [rows[|rows| - 1]];
    }
  }

  lemma MarkUsedKeepsOneReset(db: Db, email: string, code: string, now: Instant)
    requires OneResetPerEmail(db)
    ensures OneResetPerEmail(MarkUsed(db, email, code, now).1)
  {
  }

  lemma CleanupKeepsOneReset(db: Db, now: Instant)
    requires OneResetPerEmail(db)
    ensures OneResetPerEmail(Cleanup(db, now))
  {
    FilterDistinct(db.passwordResets.rows, (e: Row<ResetData>) => !(now > e.data.expiresAt), EmailOf);
  }

  /**
   * With one record per address, marking a code that verifies consumes it: the
   * same code never verifies again.
   */
  lemma MarkUsedConsumes(db: Db, email: string, code: string, now: Instant, usedAt: Instant, at: Instant)
    requires OneResetPerEmail(db) && Verify(db, email, code, now)
    ensures MarkUsed(db, email, code, usedAt).0
    ensures !Verify(MarkUsed(db, email, code, usedAt).1, email, code, at)
  {
    var rows := db.passwordResets.rows;
    var i :| FirstUnusedMatch(rows, email, code, i) && InWindow(rows[i], now);
    assert IndexWhere(rows, (e: Row<ResetData>) => Matches(email, code, e)) == Some(i);
    var rows' := MarkUsed(db, email, code, usedAt).1.passwordResets.rows;
    forall j | 0 <= j < |rows'| ensures !Unused(email, code, rows'[j]) {
      if j != i && Matches(email, code, rows'[j]) {
        assert EmailOf(rows[j]) == EmailOf(rows[i]);
      }
    }
  }

  /** An address no account holds gets no code and changes nothing. */
  lemma UnknownAddressChangesNothing(db: Db, email: string, random: Int32, now: Instant)
    requires forall i :: 0 <= i < |db.users.rows| ==> db.users.rows[i].data.email != email
    ensures Create(db, email, random, now) == (None, db)
  {
  }

  /** `Cleanup` is idempotent at a fixed instant. */
  lemma CleanupIdempotent(db: Db, now: Instant)
    ensures Cleanup(Cleanup(db, now), now) == Cleanup(db, now)
  {
    var kept := Cleanup(db, now).passwordResets.rows;
    FilterAll(kept, (e: Row<ResetData>) => !(now > e.data.expiresAt));
  }
}
