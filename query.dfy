/** The query shapes the source uses over its tables and lists: `.filter(...).first()`
    and `Array.prototype.find` (first match), `.filter(...)` (order-preserving
    selection), `.exists()`/`.some` and `order_by`/`sort` (stable sort by a key). */
module Query {
  import opened Wrappers

  /** Index of the first element satisfying p, if any. */
  function FirstIndex<T>(s: seq<T>, p: T -> bool): (r: Option<nat>)
    ensures r.None? <==> forall i :: 0 <= i < |s| ==> !p(s[i])
    ensures r.Some? ==> r.value < |s| && p(s[r.value]) && forall j :: 0 <= j < r.value ==> !p(s[j])
  {
    if s == [] then None
    else if p(s[0]) then Some(0)
    else match FirstIndex(s[1..], p)
      case None => None
      case Some(k) => Some(k + 1)
  }

  /** The first element satisfying p, if any (`.first()` on a filtered query, `find`). */
  function First<T>(s: seq<T>, p: T -> bool): (r: Option<T>)
    ensures r.None? <==> forall i :: 0 <= i < |s| ==> !p(s[i])
    ensures r.Some? ==> exists i :: 0 <= i < |s| && s[i] == r.value && p(s[i]) && forall j :: 0 <= j < i ==> !p(s[j])
  {
    match FirstIndex(s, p)
    case None => None
    case Some(k) => Some(s[k])
  }

  /** r is s with some elements dropped and the rest kept in order. */
  ghost predicate IsSubsequence<T>(r: seq<T>, s: seq<T>)
    decreases |s|
  {
    if r == [] then true
    else if s == [] then false
    else (r[0] == s[0] && IsSubsequence(r[1..], s[1..])) || IsSubsequence(r, s[1..])
  }

  function Filter<T>(s: seq<T>, p: T -> bool): (r: seq<T>)
    ensures |r| <= |s|
    ensures forall i :: 0 <= i < |r| ==> r[i] in s && p(r[i])
    ensures forall i :: 0 <= i < |s| && p(s[i]) ==> s[i] in r
    ensures IsSubsequence(r, s)
    ensures |r| == Count(s, p)
  {
    if s == [] then []
    else if p(s[0]) then
      assert s == [s[0]] + s[1..];
      [s[0]] + Filter(s[1..], p)
    else
      assert s == [s[0]] + s[1..];
      Filter(s[1..], p)
  }

  /** A filter keeps each matching element as often as it occurs and drops the rest. */
  lemma {:induction false} FilterMultiset<T>(s: seq<T>, p: T -> bool)
    ensures multiset(Filter(s, p)) <= multiset(s)
    ensures forall x | x in s :: multiset(Filter(s, p))[x] == (if p(x) then multiset(s)[x] else 0)
  {
    if s != [] {
      var t := Filter(s[1..], p);
      FilterMultiset(s[1..], p);
      assert s == [s[0]] + s[1..];
      assert multiset(s) == multiset{s[0]} + multiset(s[1..]);
      assert multiset(Filter(s, p)) == (if p(s[0]) then multiset{s[0]} else multiset{}) + multiset(t);
      forall x | x in s
        ensures multiset(Filter(s, p))[x] == (if p(x) then multiset(s)[x] else 0)
      {
        if x !in s[1..] {
          assert multiset(s[1..])[x] == 0;
        }
      }
    }
  }

  /** A filter that keeps everything is the identity. */
  lemma {:induction false} FilterAll<T>(s: seq<T>, p: T -> bool)
    requires forall i :: 0 <= i < |s| ==> p(s[i])
    ensures Filter(s, p) == s
  {
    if s != [] {
      FilterAll(s[1..], p);
      assert s == [s[0]] + s[1..];
    }
  }

  function Count<T>(s: seq<T>, p: T -> bool): nat {
    if s == [] then 0 else (if p(s[0]) then 1 else 0) + Count(s[1..], p)
  }

  lemma {:induction false} CountNone<T>(s: seq<T>, p: T -> bool)
    requires forall i :: 0 <= i < |s| ==> !p(s[i])
    ensures Count(s, p) == 0
  {
    if s != [] { CountNone(s[1..], p); }
  }

  /** Two complementary filters split the sequence: every element goes to exactly one
      side, and the two sides' sizes add up. */
  lemma {:induction false} FilterPartition<T>(s: seq<T>, p: T -> bool, q: T -> bool)
    requires forall x :: q(x) == !p(x)
    ensures |Filter(s, p)| + |Filter(s, q)| == |s|
    ensures multiset(Filter(s, p)) + multiset(Filter(s, q)) == multiset(s)
  {
    if s != [] {
      FilterPartition(s[1..], p, q);
      assert s == [s[0]] + s[1..];
    }
  }

  /** If p implies q everywhere, at most as many elements satisfy p as q. */
  lemma {:induction false} CountMonotone<T>(s: seq<T>, p: T -> bool, q: T -> bool)
    requires forall x :: p(x) ==> q(x)
    ensures Count(s, p) <= Count(s, q)
  {
    if s != [] { CountMonotone(s[1..], p, q); }
  }

  lemma {:induction false} CountBound<T>(s: seq<T>, p: T -> bool)
    ensures Count(s, p) <= |s|
  {
    if s != [] { CountBound(s[1..], p); }
  }

  /** Counts of two predicates that are never both true add up to the count of their union. */
  lemma {:induction false} CountDisjoint<T>(s: seq<T>, p: T -> bool, q: T -> bool, pq: T -> bool)
    requires forall x :: !(p(x) && q(x))
    requires forall x :: pq(x) == (p(x) || q(x))
    ensures Count(s, p) + Count(s, q) == Count(s, pq)
  {
    if s != [] { CountDisjoint(s[1..], p, q, pq); }
  }

  // ----- greatest value -----

  /** The greater of two optional numbers; a missing one gives way to the other. */
  function Larger(a: Option<int>, b: Option<int>): (r: Option<int>)
    ensures r.None? <==> a.None? && b.None?
    ensures r.Some? ==> r == a || r == b
    ensures a.Some? ==> r.Some? && a.value <= r.value
    ensures b.Some? ==> r.Some? && b.value <= r.value
  {
    match a
    case None => b
    case Some(k) =>
      match b
      case None => a
      case Some(m) => if k >= m then a else b
  }

  /** The greatest of the values f gives, if it gives any (`Max` over a nullable column). */
  function MaxOf<T>(s: seq<T>, f: T -> Option<int>): Option<int> {
    if s == [] then None else Larger(f(s[0]), MaxOf(s[1..], f))
  }

  /** MaxOf is the greatest value given, and it is missing only when none is given. */
  lemma {:induction false} MaxOfSpec<T>(s: seq<T>, f: T -> Option<int>)
    ensures MaxOf(s, f).None? <==> forall i :: 0 <= i < |s| ==> f(s[i]).None?
    ensures MaxOf(s, f).Some? ==> exists i :: 0 <= i < |s| && f(s[i]) == MaxOf(s, f)
    ensures MaxOf(s, f).Some? ==> forall i :: 0 <= i < |s| && f(s[i]).Some? ==> f(s[i]).value <= MaxOf(s, f).value
  {
    if s != [] {
      MaxOfSpec(s[1..], f);
      var rest := MaxOf(s[1..], f);
      var r := MaxOf(s, f);
      assert r == Larger(f(s[0]), rest);
      assert forall i :: 1 <= i < |s| ==> s[i] == s[1..][i - 1];
      if r.Some? && r != f(s[0]) {
        var i :| 0 <= i < |s[1..]| && f(s[1..][i]) == rest;
        assert f(s[i + 1]) == r;
      }
    }
  }

  // ----- stable sort by an integer key -----

  ghost predicate SortedBy<T>(s: seq<T>, key: T -> int) {
    forall i, j :: 0 <= i < j < |s| ==> key(s[i]) <= key(s[j])
  }

  /** x placed before the first element whose key is not smaller than its own. */
  function InsertBy<T>(x: T, s: seq<T>, key: T -> int): (r: seq<T>)
    requires SortedBy(s, key)
    ensures SortedBy(r, key)
    ensures multiset(r) == multiset(s) + multiset{x}
    ensures |r| == |s| + 1
  {
    if s == [] || key(x) <= key(s[0]) then
      HeadBelowAll(s, key, x);
      SortedPrepend(x, s, key);
      [x] + s
    else
      var tail := s[1..];
      SortedTail(s, key);
      HeadBelowAll(s, key, s[0]);
      var rest := InsertBy(x, tail, key);
      InsertedAbove(s[0], x, tail, rest, key);
      SortedPrepend(s[0], rest, key);
      assert s == [s[0]] + tail;
      [s[0]] + rest
  }

  /** A value at or below the head of a sorted sequence is at or below every element. */
  lemma HeadBelowAll<T>(s: seq<T>, key: T -> int, x: T)
    requires SortedBy(s, key)
    requires s == [] || key(x) <= key(s[0])
    ensures forall k :: 0 <= k < |s| ==> key(x) <= key(s[k])
    ensures s != [] ==> forall k :: 0 <= k < |s[1..]| ==> key(x) <= key(s[1..][k])
  {
    if s != [] {
      forall k | 0 <= k < |s[1..]| ensures key(x) <= key(s[1..][k]) {
        assert s[1..][k] == s[k + 1];
      }
    }
  }

  /** Inserting something above y into elements that are all above y keeps them above y. */
  lemma InsertedAbove<T>(y: T, x: T, t: seq<T>, rest: seq<T>, key: T -> int)
    requires key(y) <= key(x)
    requires forall k :: 0 <= k < |t| ==> key(y) <= key(t[k])
    requires multiset(rest) == multiset(t) + multiset{x}
    ensures forall k :: 0 <= k < |rest| ==> key(y) <= key(rest[k])
  {
    forall k | 0 <= k < |rest| ensures key(y) <= key(rest[k]) {
      assert rest[k] in multiset(rest);
      if rest[k] != x {
        assert rest[k] in multiset(t);
        assert rest[k] in t;
        var j :| 0 <= j < |t| && t[j] == rest[k];
      }
    }
  }

  /** Insertion sort ascending by key; elements with equal keys keep their input order.
      JavaScript's `Array.prototype.sort` is stable; a database `ORDER BY` leaves the order
      of tied rows open, and the model breaks such ties by table order. */
  function SortBy<T>(s: seq<T>, key: T -> int): (r: seq<T>)
    ensures SortedBy(r, key)
    ensures multiset(r) == multiset(s)
    ensures |r| == |s|
  {
    if s == [] then []
    else
      assert s == [s[0]] + s[1..];
      InsertBy(s[0], SortBy(s[1..], key), key)
  }

  /** The elements whose key is `k`. */
  function KeyIs<T>(key: T -> int, k: int): T -> bool {
    (x: T) => key(x) == k
  }

  /** Inserting `x` puts it before every element that shares its key. */
  lemma {:induction false} InsertByKeepsTies<T>(x: T, s: seq<T>, key: T -> int, k: int)
    requires SortedBy(s, key)
    ensures Filter(InsertBy(x, s, key), KeyIs(key, k)) == (if key(x) == k then [x] else []) + Filter(s, KeyIs(key, k))
  {
    if s == [] || key(x) <= key(s[0]) {
      assert InsertBy(x, s, key) == [x] + s;
      assert ([x] + s)[1..] == s;
    } else {
      SortedTail(s, key);
      InsertByKeepsTies(x, s[1..], key, k);
      var rest := InsertBy(x, s[1..], key);
      assert InsertBy(x, s, key) == [s[0]] + rest;
      assert ([s[0]] + rest)[1..] == rest;
    }
  }

  /** The sort is stable: the elements sharing a key come out in their input order. */
  lemma {:induction false} SortByStable<T>(s: seq<T>, key: T -> int, k: int)
    ensures Filter(SortBy(s, key), KeyIs(key, k)) == Filter(s, KeyIs(key, k))
  {
    if s != [] {
      SortByStable(s[1..], key, k);
      InsertByKeepsTies(s[0], SortBy(s[1..], key), key, k);
    }
  }

  /** Sorting what is already sorted changes nothing. */
  lemma {:induction false} SortBySorted<T>(s: seq<T>, key: T -> int)
    requires SortedBy(s, key)
    ensures SortBy(s, key) == s
  {
    if s != [] {
      SortBySorted(s[1..], key);
      assert s == [s[0]] + s[1..];
    }
  }

  /** Keeping some elements of a sorted sequence keeps it sorted. */
  lemma {:induction false} FilterSorted<T>(s: seq<T>, p: T -> bool, key: T -> int)
    requires SortedBy(s, key)
    ensures SortedBy(Filter(s, p), key)
  {
    if s != [] {
      var tail := s[1..];
      SortedTail(s, key);
      FilterSorted(tail, p, key);
      if p(s[0]) {
        var rest := Filter(tail, p);
        forall k | 0 <= k < |rest| ensures key(s[0]) <= key(rest[k]) {
          assert rest[k] in tail;
          var j :| 0 <= j < |tail| && tail[j] == rest[k];
          assert tail[j] == s[j + 1];
        }
        SortedPrepend(s[0], rest, key);
      }
    }
  }

  lemma SortedTail<T>(s: seq<T>, key: T -> int)
    requires s != [] && SortedBy(s, key)
    ensures SortedBy(s[1..], key)
  {
    var tail := s[1..];
    forall i, j | 0 <= i < j < |tail| ensures key(tail[i]) <= key(tail[j]) {
      assert tail[i] == s[i + 1] && tail[j] == s[j + 1];
    }
  }

  lemma SortedPrepend<T>(x: T, s: seq<T>, key: T -> int)
    requires SortedBy(s, key)
    requires forall k :: 0 <= k < |s| ==> key(x) <= key(s[k])
    ensures SortedBy([x] + s, key)
  {
    var r := [x] + s;
    forall i, j | 0 <= i < j < |r| ensures key(r[i]) <= key(r[j]) {
      assert r[j] == s[j - 1];
      if i > 0 {
        assert r[i] == s[i - 1];
      }
    }
  }
}
