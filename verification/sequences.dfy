/**
 * The LINQ operators the repositories use (`Where`, `OrderBy`/`ThenBy`,
 * `OrderByDescending`, `Take`, `GroupBy(..).First()`, `Count`), over sequences.
 * `OrderBy` is a stable sort; the model uses a stable insertion sort by a
 * two-level key, and a descending order negates the key.
 */
module Sequences {
  import opened Wrappers

  /** A sort key compared lexicographically: `OrderBy(major).ThenBy(minor)`. */
  datatype Key = Key(major: int, minor: int)

  predicate KeyLe(a: Key, b: Key) {
    a.major < b.major || (a.major == b.major && a.minor <= b.minor)
  }

  predicate SortedBy<T(!new)>(xs: seq<T>, key: T -> Key) {
    forall i, j :: 0 <= i < j < |xs| ==> KeyLe(key(xs[i]), key(xs[j]))
  }

  /** `Where`. */
  function Filter<T(!new)>(xs: seq<T>, p: T -> bool): (r: seq<T>)
    ensures |r| <= |xs|
    ensures forall e :: e in r <==> e in xs && p(e)
    ensures forall i :: 0 <= i < |r| ==> p(r[i])
  {
    if |xs| == 0 then []
    else if p(xs[0]) then [xs[0]] + Filter(xs[1..], p)
    else Filter(xs[1..], p)
  }

  /** Position of the first element satisfying `p`. */
  function IndexWhere<T(!new)>(xs: seq<T>, p: T -> bool): (r: Option<nat>)
    ensures r.Some? ==> r.value < |xs| && p(xs[r.value])
    ensures r.Some? ==> forall j :: 0 <= j < r.value ==> !p(xs[j])
    ensures r.None? <==> forall j :: 0 <= j < |xs| ==> !p(xs[j])
  {
    if |xs| == 0 then None
    else if p(xs[0]) then Some(0)
    else match IndexWhere(xs[1..], p)
      case None => None
      case Some(i) => Some(i + 1)
  }

  /** `FirstOrDefault(p)`, with `None` for the default. */
  function FirstWhere<T(!new)>(xs: seq<T>, p: T -> bool): (r: Option<T>)
    ensures r.None? <==> forall j :: 0 <= j < |xs| ==> !p(xs[j])
    ensures r.Some? ==> r.value in xs && p(r.value)
    ensures forall i :: 0 <= i < |xs| && p(xs[i]) && (forall j :: 0 <= j < i ==> !p(xs[j])) ==> r == Some(xs[i])
  {
    match IndexWhere(xs, p)
    case None => None
    case Some(i) => Some(xs[i])
  }

  /** Appending an element does not change the first match of a sequence that already has one. */
  lemma FirstWhereAppend<T(!new)>(xs: seq<T>, x: T, p: T -> bool)
    requires FirstWhere(xs, p).Some?
    ensures FirstWhere(xs + [x], p) == FirstWhere(xs, p)
  {
    var i := IndexWhere(xs, p).value;
    assert (xs + [x])[i] == xs[i];
  }

  /** `Count(p)`. */
  function Count<T(!new)>(xs: seq<T>, p: T -> bool): nat {
    if |xs| == 0 then 0 else (if p(xs[0]) then 1 else 0) + Count(xs[1..], p)
  }

  /** `Count(p)` is the length of `Where(p)`. */
  lemma {:induction false} CountIsFilterLength<T(!new)>(xs: seq<T>, p: T -> bool)
    ensures Count(xs, p) == |Filter(xs, p)|
    decreases |xs|
  {
    if |xs| > 0 {
      CountIsFilterLength(xs[1..], p);
    }
  }

  lemma {:induction false} FilterNone<T(!new)>(xs: seq<T>, p: T -> bool)
    requires forall i :: 0 <= i < |xs| ==> !p(xs[i])
    ensures Filter(xs, p) == []
    decreases |xs|
  {
    if |xs| > 0 {
      FilterNone(xs[1..], p);
    }
  }

  /** A filter every element passes keeps the sequence whole. */
  lemma {:induction false} FilterAll<T(!new)>(xs: seq<T>, p: T -> bool)
    requires forall i :: 0 <= i < |xs| ==> p(xs[i])
    ensures Filter(xs, p) == xs
    decreases |xs|
  {
    if |xs| > 0 {
      FilterAll(xs[1..], p);
    }
  }

  /** No two elements share a key. */
  predicate DistinctBy<T, K(==)>(xs: seq<T>, k: T -> K) {
    forall i, j :: 0 <= i < j < |xs| ==> k(xs[i]) != k(xs[j])
  }

  /** Dropping elements keeps keys distinct. */
  lemma {:induction false} FilterDistinct<T(!new), K>(xs: seq<T>, p: T -> bool, k: T -> K)
    requires DistinctBy(xs, k)
    ensures DistinctBy(Filter(xs, p), k)
    decreases |xs|
  {
    if |xs| > 0 {
      FilterDistinct(xs[1..], p, k);
      var rest := Filter(xs[1..], p);
      forall i | 0 <= i < |rest| ensures k(rest[i]) != k(xs[0]) {
        assert rest[i] in xs[1..];
      }
    }
  }

  /** Filters that agree on every element give the same result. */
  lemma {:induction false} FilterAgree<T(!new)>(xs: seq<T>, p: T -> bool, q: T -> bool)
    requires forall i :: 0 <= i < |xs| ==> p(xs[i]) == q(xs[i])
    ensures Filter(xs, p) == Filter(xs, q)
    decreases |xs|
  {
    if |xs| > 0 {
      FilterAgree(xs[1..], p, q);
    }
  }

  /** A filter that rejects some element is strictly shorter than its input. */
  lemma {:induction false} FilterDropsOne<T(!new)>(xs: seq<T>, p: T -> bool, e: T)
    requires e in xs && !p(e)
    ensures |Filter(xs, p)| < |xs|
    decreases |xs|
  {
    if xs[0] != e {
      FilterDropsOne(xs[1..], p, e);
    }
  }

  /** The selector of the elements whose key is listed. */
  function KeyIn<T>(k: T -> int, keys: seq<int>): T -> bool {
    x => k(x) in keys
  }

  /**
   * Keeping the elements whose key is listed keeps at most as many elements as
   * there are listed keys, when no two elements share a key.
   */
  lemma {:induction false} FilterMemberBound<T(!new)>(xs: seq<T>, k: T -> int, keys: seq<int>)
    requires DistinctBy(xs, k)
    ensures |Filter(xs, KeyIn(k, keys))| <= |keys|
    decreases |xs|
  {
    if |xs| > 0 {
      var rest := xs[1..];
      assert DistinctBy(rest, k);
      if k(xs[0]) in keys {
        var others := Filter(keys, (y: int) => y != k(xs[0]));
        FilterDropsOne(keys, (y: int) => y != k(xs[0]), k(xs[0]));
        forall i | 0 <= i < |rest| ensures (k(rest[i]) in keys) == (k(rest[i]) in others) {
          assert k(rest[i]) != k(xs[0]);
        }
        FilterAgree(rest, KeyIn(k, keys), KeyIn(k, others));
        FilterMemberBound(rest, k, others);
      } else {
        FilterMemberBound(rest, k, keys);
      }
    }
  }

  /**
   * The first `n` elements of a sorted sequence are its least: each of them
   * comes no later in the order than every element left out.
   */
  lemma TakeLeast<T(!new)>(xs: seq<T>, key: T -> Key, n: int, e: T)
    requires SortedBy(xs, key) && e in xs && e !in Take(xs, n)
    ensures SortedBy(Take(xs, n), key)
    ensures forall i :: 0 <= i < |Take(xs, n)| ==> KeyLe(key(Take(xs, n)[i]), key(e))
    ensures n >= 0 ==> |Take(xs, n)| == n
  {
    var j :| 0 <= j < |xs| && xs[j] == e;
  }

  lemma {:induction false} FilterAppend<T(!new)>(xs: seq<T>, x: T, p: T -> bool)
    ensures Filter(xs + [x], p) == Filter(xs, p) + (if p(x) then [x] else [])
    decreases |xs|
  {
    if |xs| == 0 {
      assert xs + [x] == [x];
    } else {
      assert (xs + [x])[1..] == xs[1..] + [x];
      FilterAppend(xs[1..], x, p);
    }
  }

  lemma CountAppend<T(!new)>(xs: seq<T>, x: T, p: T -> bool)
    ensures Count(xs + [x], p) == Count(xs, p) + (if p(x) then 1 else 0)
  {
    CountIsFilterLength(xs + [x], p);
    CountIsFilterLength(xs, p);
    FilterAppend(xs, x, p);
  }

  /** `Count(p) == 0` is `!Any(p)`. */
  lemma {:induction false} CountZero<T(!new)>(xs: seq<T>, p: T -> bool)
    ensures Count(xs, p) == 0 <==> forall i :: 0 <= i < |xs| ==> !p(xs[i])
    decreases |xs|
  {
    if |xs| > 0 {
      CountZero(xs[1..], p);
      assert forall i :: 1 <= i < |xs| ==> xs[i] == xs[1..][i - 1];
    }
  }

  /** Sequences on which `p` holds at the same positions have the same count. */
  lemma {:induction false} CountAgree<T(!new)>(xs: seq<T>, ys: seq<T>, p: T -> bool)
    requires |xs| == |ys|
    requires forall i :: 0 <= i < |xs| ==> (p(xs[i]) <==> p(ys[i]))
    ensures Count(xs, p) == Count(ys, p)
    decreases |xs|
  {
    if |xs| > 0 {
      CountAgree(xs[1..], ys[1..], p);
    }
  }

  /** Turning one counted position into an uncounted one lowers the count by one. */
  lemma {:induction false} CountDrop<T(!new)>(xs: seq<T>, ys: seq<T>, p: T -> bool, k: int)
    requires |xs| == |ys| && 0 <= k < |xs| && p(xs[k]) && !p(ys[k])
    requires forall i :: 0 <= i < |xs| && i != k ==> (p(xs[i]) <==> p(ys[i]))
    ensures Count(ys, p) + 1 == Count(xs, p)
    decreases |xs|
  {
    if k == 0 {
      CountAgree(xs[1..], ys[1..], p);
    } else {
      CountDrop(xs[1..], ys[1..], p, k - 1);
    }
  }

  /** `Take(n)`: the first `n` elements, none when `n` is not positive. */
  function Take<T(!new)>(xs: seq<T>, n: int): (r: seq<T>)
    ensures |r| <= |xs| && (n <= 0 ==> |r| == 0) && (n > 0 ==> |r| <= n)
    ensures r == xs[..|r|]
    ensures n >= |xs| ==> r == xs
    ensures n >= 0 ==> |r| == (if n < |xs| then n else |xs|)
    ensures multiset(r) <= multiset(xs)
  {
    if n <= 0 then []
    else if n >= |xs| then xs
    else
      assert xs == xs[..n] + xs[n..];
      xs[..n]
  }

  /** A prefix keeps the order, the distinct keys and the elements of what it is cut from. */
  lemma TakeKeeps<T(!new)>(xs: seq<T>, n: int, key: T -> Key, k: T -> int)
    requires SortedBy(xs, key) && DistinctBy(xs, k)
    ensures SortedBy(Take(xs, n), key) && DistinctBy(Take(xs, n), k)
    ensures forall e :: e in Take(xs, n) ==> e in xs
  {
    var r := Take(xs, n);
    forall e | e in r
      ensures e in xs
    {
      var i :| 0 <= i < |r| && r[i] == e;
      assert xs[i] == e;
    }
  }

  /**
   * Places `x` before the first element whose key is not below it, so that
   * `x` comes before every element of equal key already in `ys`.
   */
  function Insert<T(!new)>(x: T, ys: seq<T>, key: T -> Key): (r: seq<T>)
    ensures |r| == |ys| + 1
    ensures multiset(r) == multiset(ys) + multiset{x}
    ensures forall e :: e in r <==> e == x || e in ys
  {
    if |ys| == 0 then [x]
    else if KeyLe(key(x), key(ys[0])) then [x] + ys
    else
      assert ys == [ys[0]] + ys[1..];
      [ys[0]] + Insert(x, ys[1..], key)
  }

  lemma {:induction false} InsertSorted<T(!new)>(x: T, ys: seq<T>, key: T -> Key)
    requires SortedBy(ys, key)
    ensures SortedBy(Insert(x, ys, key), key)
    decreases |ys|
  {
    if |ys| > 0 && !KeyLe(key(x), key(ys[0])) {
      var rest := Insert(x, ys[1..], key);
      InsertSorted(x, ys[1..], key);
      forall j | 0 <= j < |rest| ensures KeyLe(key(ys[0]), key(rest[j])) {
        assert rest[j] in rest;
        if rest[j] != x {
          var m :| 0 <= m < |ys[1..]| && ys[1..][m] == rest[j];
          assert ys[m + 1] == rest[j];
        }
      }
      assert Insert(x, ys, key) == [ys[0]] + rest;
    } else if |ys| > 0 {
      forall j | 1 <= j < |ys| ensures KeyLe(key(x), key(ys[j])) {
        KeyLeTransitive(key(x), key(ys[0]), key(ys[j]));
      }
    }
  }

  /** Sorting keeps exactly the elements it was given. */
  lemma SortByMembers<T(!new)>(xs: seq<T>, key: T -> Key)
    ensures forall e :: e in SortBy(xs, key) <==> e in xs
  {
    var r := SortBy(xs, key);
    forall e
      ensures e in r <==> e in xs
    {
      assert e in r <==> e in multiset(r);
      assert e in xs <==> e in multiset(xs);
    }
  }

  /** Inserting an element whose key is new keeps the keys distinct. */
  lemma {:induction false} InsertDistinct<T(!new)>(x: T, ys: seq<T>, key: T -> Key, k: T -> int)
    requires DistinctBy(ys, k)
    requires forall i :: 0 <= i < |ys| ==> k(ys[i]) != k(x)
    ensures DistinctBy(Insert(x, ys, key), k)
    decreases |ys|
  {
    var r := Insert(x, ys, key);
    if |ys| > 0 && !KeyLe(key(x), key(ys[0])) {
      var tail := ys[1..];
      var rest := Insert(x, tail, key);
      InsertDistinct(x, tail, key, k);
      assert r == [ys[0]] + rest;
      forall j | 1 <= j < |r|
        ensures k(r[j]) != k(r[0])
      {
        assert r[j] == rest[j - 1];
        assert rest[j - 1] in rest;
        if rest[j - 1] != x {
          var m :| 0 <= m < |tail| && tail[m] == rest[j - 1];
          assert ys[m + 1] == r[j];
        }
      }
      forall i, j | 0 <= i < j < |r|
        ensures k(r[i]) != k(r[j])
      {
        if i > 0 {
          assert r[i] == rest[i - 1] && r[j] == rest[j - 1];
        }
      }
    } else if |ys| > 0 {
      assert r == [x] + ys;
      forall i, j | 0 <= i < j < |r|
        ensures k(r[i]) != k(r[j])
      {
        if i > 0 {
          assert r[i] == ys[i - 1] && r[j] == ys[j - 1];
        } else {
          assert r[j] == ys[j - 1];
        }
      }
    }
  }

  /** Sorting keeps the keys distinct. */
  lemma {:induction false} SortByDistinct<T(!new)>(xs: seq<T>, key: T -> Key, k: T -> int)
    requires DistinctBy(xs, k)
    ensures DistinctBy(SortBy(xs, key), k)
    decreases |xs|
  {
    if |xs| > 0 {
      var tail := xs[1..];
      assert DistinctBy(tail, k) by {
        forall i, j | 0 <= i < j < |tail|
          ensures k(tail[i]) != k(tail[j])
        {
          assert tail[i] == xs[i + 1] && tail[j] == xs[j + 1];
        }
      }
      SortByDistinct(tail, key, k);
      var s := SortBy(tail, key);
      forall i | 0 <= i < |s|
        ensures k(s[i]) != k(xs[0])
      {
        assert s[i] in multiset(tail) by {
          assert s[i] in multiset(s);
        }
        var m :| 0 <= m < |tail| && tail[m] == s[i];
        assert xs[m + 1] == s[i];
      }
      InsertDistinct(xs[0], s, key, k);
    }
  }

  /** A stable sort: the result is ordered by `key`, and is a permutation of `xs`. */
  function SortBy<T(!new)>(xs: seq<T>, key: T -> Key): (r: seq<T>)
    ensures |r| == |xs|
    ensures multiset(r) == multiset(xs)
    ensures SortedBy(r, key)
  {
    if |xs| == 0 then []
    else
      assert xs == [xs[0]] + xs[1..];
      InsertSorted(xs[0], SortBy(xs[1..], key), key);
      Insert(xs[0], SortBy(xs[1..], key), key)
  }

  /** Sorting an ordered sequence leaves it as it is. */
  lemma {:induction false} SortByOfSorted<T(!new)>(xs: seq<T>, key: T -> Key)
    requires SortedBy(xs, key)
    ensures SortBy(xs, key) == xs
    decreases |xs|
  {
    if |xs| > 0 {
      SortByOfSorted(xs[1..], key);
      assert xs == [xs[0]] + xs[1..];
    }
  }

  /**
   * The first element of each key group, in order of first appearance:
   * `GroupBy(k).Select(g => g.First())`.
   */
  function FirstPerKey<T(!new)>(xs: seq<T>, k: T -> int): (r: seq<T>)
    ensures |r| <= |xs| && (|xs| > 0 ==> |r| > 0)
    ensures forall e :: e in r ==> e in xs
    decreases |xs|
  {
    if |xs| == 0 then []
    else [xs[0]] + FirstPerKey(Filter(xs[1..], y => k(y) != k(xs[0])), k)
  }

  lemma KeyLeTransitive(a: Key, b: Key, c: Key)
    requires KeyLe(a, b) && KeyLe(b, c)
    ensures KeyLe(a, c)
  {
  }

  lemma {:induction false} FilterSorted<T(!new)>(xs: seq<T>, p: T -> bool, key: T -> Key)
    requires SortedBy(xs, key)
    ensures SortedBy(Filter(xs, p), key)
    decreases |xs|
  {
    if |xs| > 0 {
      FilterSorted(xs[1..], p, key);
      var rest := Filter(xs[1..], p);
      assert forall e :: e in rest ==> e in xs[1..];
    }
  }

  /** Two `Where`s in a row select what one `Where` by their conjunction `r` selects. */
  lemma {:induction false} FilterComposes<T(!new)>(xs: seq<T>, p: T -> bool, q: T -> bool, r: T -> bool)
    requires forall i :: 0 <= i < |xs| ==> r(xs[i]) == (p(xs[i]) && q(xs[i]))
    ensures Filter(Filter(xs, p), q) == Filter(xs, r)
    decreases |xs|
  {
    if |xs| > 0 {
      FilterComposes(xs[1..], p, q, r);
    }
  }

  /** The case of `FilterInsert` where `x` goes in front. */
  lemma FilterInsertFront<T(!new)>(x: T, ys: seq<T>, key: T -> Key, p: T -> bool)
    requires SortedBy(ys, key) && |ys| > 0 && KeyLe(key(x), key(ys[0]))
    ensures Filter(Insert(x, ys, key), p)
         == if p(x) then Insert(x, Filter(ys, p), key) else Filter(ys, p)
  {
    var ins := Insert(x, ys, key);
    assert ins == [x] + ys;
    assert ins[1..] == ys;
    var fy := Filter(ys, p);
    if p(x) && |fy| > 0 {
      assert fy[0] in ys;
      var m :| 0 <= m < |ys| && ys[m] == fy[0];
      assert m == 0 || KeyLe(key(ys[0]), key(ys[m]));
      KeyLeTransitive(key(x), key(ys[0]), key(fy[0]));
      assert Insert(x, fy, key) == [x] + fy;
    }
  }

  /** Filtering commutes with inserting into a sorted sequence. */
  lemma {:induction false} FilterInsert<T(!new)>(x: T, ys: seq<T>, key: T -> Key, p: T -> bool)
    requires SortedBy(ys, key)
    ensures Filter(Insert(x, ys, key), p)
         == if p(x) then Insert(x, Filter(ys, p), key) else Filter(ys, p)
    decreases |ys|
  {
    if |ys| == 0 {
    } else if KeyLe(key(x), key(ys[0])) {
      FilterInsertFront(x, ys, key, p);
    } else {
      var ins := Insert(x, ys, key);
      var rest := Insert(x, ys[1..], key);
      assert ins == [ys[0]] + rest;
      assert ins[1..] == rest;
      FilterInsert(x, ys[1..], key, p);
      var fy := Filter(ys, p);
      if p(ys[0]) {
        assert fy == [ys[0]] + Filter(ys[1..], p);
        if p(x) {
          assert fy[0] == ys[0] && fy[1..] == Filter(ys[1..], p);
          assert Insert(x, fy, key) == [ys[0]] + Insert(x, Filter(ys[1..], p), key);
        }
      } else {
        assert fy == Filter(ys[1..], p);
      }
    }
  }

  /** Sorting then filtering equals filtering then sorting: the sort is stable. */
  lemma {:induction false} FilterSortCommute<T(!new)>(xs: seq<T>, key: T -> Key, p: T -> bool)
    ensures Filter(SortBy(xs, key), p) == SortBy(Filter(xs, p), key)
    decreases |xs|
  {
    if |xs| > 0 {
      FilterSortCommute(xs[1..], key, p);
      FilterInsert(xs[0], SortBy(xs[1..], key), key, p);
    }
  }

  /** Two keys that order the elements of `ys` and `x` alike produce the same insertion. */
  lemma {:induction false} InsertSameOrder<T(!new)>(x: T, ys: seq<T>, k1: T -> Key, k2: T -> Key)
    requires forall a, b :: a in ys && b == x ==> (KeyLe(k1(b), k1(a)) <==> KeyLe(k2(b), k2(a)))
    ensures Insert(x, ys, k1) == Insert(x, ys, k2)
    decreases |ys|
  {
    if |ys| > 0 {
      assert ys[0] in ys;
      InsertSameOrder(x, ys[1..], k1, k2);
    }
  }

  /** Two keys that order the elements of `xs` alike sort `xs` identically. */
  lemma {:induction false} SortBySameOrder<T(!new)>(xs: seq<T>, k1: T -> Key, k2: T -> Key)
    requires forall a, b :: a in xs && b in xs ==> (KeyLe(k1(a), k1(b)) <==> KeyLe(k2(a), k2(b)))
    ensures SortBy(xs, k1) == SortBy(xs, k2)
    decreases |xs|
  {
    if |xs| > 0 {
      SortBySameOrder(xs[1..], k1, k2);
      var s := SortBy(xs[1..], k1);
      assert forall a :: a in s ==> a in xs[1..] by {
        forall a | a in s ensures a in xs[1..] {
          assert a in multiset(s);
        }
      }
      InsertSameOrder(xs[0], s, k1, k2);
    }
  }

  lemma {:induction false} FirstPerKeyDistinct<T(!new)>(xs: seq<T>, k: T -> int)
    ensures forall i, j :: 0 <= i < j < |FirstPerKey(xs, k)| ==> k(FirstPerKey(xs, k)[i]) != k(FirstPerKey(xs, k)[j])
    decreases |xs|
  {
    if |xs| > 0 {
      var rest := Filter(xs[1..], y => k(y) != k(xs[0]));
      FirstPerKeyDistinct(rest, k);
      var r := FirstPerKey(xs, k);
      assert r[1..] == FirstPerKey(rest, k);
      forall j | 1 <= j < |r| ensures k(r[j]) != k(r[0]) {
        assert r[j] in FirstPerKey(rest, k);
      }
    }
  }

  /** Every key present in `xs` has its group's first element in the result. */
  lemma {:induction false} FirstPerKeyCovers<T(!new)>(xs: seq<T>, k: T -> int, e: T)
    requires e in xs
    ensures exists j :: 0 <= j < |FirstPerKey(xs, k)| && k(FirstPerKey(xs, k)[j]) == k(e)
    decreases |xs|
  {
    var r := FirstPerKey(xs, k);
    if k(e) == k(xs[0]) {
      assert k(r[0]) == k(e);
    } else {
      var rest := Filter(xs[1..], y => k(y) != k(xs[0]));
      assert e in rest;
      FirstPerKeyCovers(rest, k, e);
      var j :| 0 <= j < |FirstPerKey(rest, k)| && k(FirstPerKey(rest, k)[j]) == k(e);
      assert r[j + 1] == FirstPerKey(rest, k)[j];
    }
  }

  /** Grouping keeps the relative order of `xs`, so a sorted input gives a sorted result. */
  lemma {:induction false} FirstPerKeySorted<T(!new)>(xs: seq<T>, k: T -> int, key: T -> Key)
    requires SortedBy(xs, key)
    ensures SortedBy(FirstPerKey(xs, k), key)
    decreases |xs|
  {
    if |xs| > 0 {
      var rest := Filter(xs[1..], y => k(y) != k(xs[0]));
      FilterSorted(xs[1..], y => k(y) != k(xs[0]), key);
      FirstPerKeySorted(rest, k, key);
      var r := FirstPerKey(xs, k);
      forall j | 1 <= j < |r| ensures KeyLe(key(r[0]), key(r[j])) {
        assert r[j] in FirstPerKey(rest, k);
        assert r[j] in xs[1..];
      }
    }
  }

  /** On a sorted input, each kept element has the least key of its group. */
  lemma {:induction false} FirstPerKeyLeast<T(!new)>(xs: seq<T>, k: T -> int, key: T -> Key, i: int, e: T)
    requires SortedBy(xs, key)
    requires 0 <= i < |FirstPerKey(xs, k)| && e in xs && k(e) == k(FirstPerKey(xs, k)[i])
    ensures KeyLe(key(FirstPerKey(xs, k)[i]), key(e))
    decreases |xs|
  {
    var r := FirstPerKey(xs, k);
    if i == 0 {
      var m :| 0 <= m < |xs| && xs[m] == e;
      assert m == 0 || KeyLe(key(xs[0]), key(xs[m]));
    } else {
      var rest := Filter(xs[1..], y => k(y) != k(xs[0]));
      FilterSorted(xs[1..], y => k(y) != k(xs[0]), key);
      FirstPerKeyDistinct(xs, k);
      assert r[0] == xs[0];
      assert r[i - 1 + 1] == FirstPerKey(rest, k)[i - 1];
      assert k(e) != k(xs[0]);
      assert e in rest;
      FirstPerKeyLeast(rest, k, key, i - 1, e);
    }
  }
}
