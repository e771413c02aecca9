/** Stand-ins for the standard-library sorting and deduplication the solvers call
    (`sort_unstable`, `sort_unstable_by_key`, the stable `sort_by_key` and `dedup`):
    each is given by a plain definition with its defining properties proved.  `SortBy`
    is stable, as `sort_by_key` is: elements with equal keys keep their input order
    (`SortByStable`), which is also one of the orders the unstable sorts may produce. */
module Sorting {

  /** Nondecreasing by `key`. */
  ghost predicate SortedBy<T>(s: seq<T>, key: T -> int)
  {
    forall i, j :: 0 <= i < j < |s| ==> key(s[i]) <= key(s[j])
  }

  /** Strictly increasing. */
  predicate StrictlyIncreasing(s: seq<int>)
  {
    forall i, j :: 0 <= i < j < |s| ==> s[i] < s[j]
  }

  function Insert<T>(x: T, s: seq<T>, key: T -> int): (r: seq<T>)
    requires SortedBy(s, key)
    ensures SortedBy(r, key)
    ensures multiset(r) == multiset(s) + multiset{x}
    ensures |r| == |s| + 1
  {
    if s == [] then [x]
    else if key(x) < key(s[0]) then [x] + s
    else
      var rest := Insert(x, s[1..], key);
      assert s == [s[0]] + s[1..];
      InsertBehind(s[0], x, s[1..], rest, key);
      [s[0]] + rest
  }

  /** Inserting behind a head no larger than `x` or anything after it keeps the
      sequence sorted. */
  lemma InsertBehind<T>(h: T, x: T, tail: seq<T>, rest: seq<T>, key: T -> int)
    requires SortedBy([h] + tail, key) && key(h) <= key(x) && SortedBy(rest, key)
    requires multiset(rest) == multiset(tail) + multiset{x}
    ensures SortedBy([h] + rest, key)
  {
    forall k | 0 <= k < |rest| ensures key(h) <= key(rest[k]) {
      assert rest[k] in multiset(rest);
      if rest[k] != x {
        assert rest[k] in multiset(tail);
        var i :| 0 <= i < |tail| && tail[i] == rest[k];
        assert ([h] + tail)[0] == h && ([h] + tail)[i + 1] == tail[i];
      }
    }
    var s := [h] + rest;
    forall i, j | 0 <= i < j < |s| ensures key(s[i]) <= key(s[j]) {
      assert s[j] == rest[j - 1];
      if i > 0 {
        assert s[i] == rest[i - 1];
        assert key(rest[i - 1]) <= key(rest[j - 1]);
      }
    }
  }

  /** Sorted by `key`, and a permutation of the input. */
  function SortBy<T>(s: seq<T>, key: T -> int): (r: seq<T>)
    ensures SortedBy(r, key)
    ensures multiset(r) == multiset(s)
    ensures |r| == |s|
  {
    if s == [] then []
    else
      var front, last := s[..|s| - 1], s[|s| - 1];
      assert s == front + [last];
      assert multiset(s) == multiset(front) + multiset{last};
      Insert(last, SortBy(front, key), key)
  }

  /** Elements with equal keys appear in increasing `rank`. */
  ghost predicate StableBy<T>(s: seq<T>, key: T -> int, rank: T -> int)
  {
    forall i, j :: 0 <= i < j < |s| && key(s[i]) == key(s[j]) ==> rank(s[i]) < rank(s[j])
  }

  /** `x` goes behind every element of equal key, so an `x` ranked above everything
      already there keeps the order of equal keys. */
  lemma {:induction false} InsertStable<T>(x: T, s: seq<T>, key: T -> int, rank: T -> int)
    requires SortedBy(s, key) && StableBy(s, key, rank)
    requires forall k :: 0 <= k < |s| ==> rank(s[k]) < rank(x)
    ensures StableBy(Insert(x, s, key), key, rank)
    decreases |s|
  {
    if s != [] && key(s[0]) <= key(x) {
      var tail := s[1..];
      var rest := Insert(x, tail, key);
      InsertStable(x, tail, key, rank);
      var r := Insert(x, s, key);
      assert r == [s[0]] + rest;
      forall k | 0 <= k < |rest| && key(s[0]) == key(rest[k]) ensures rank(s[0]) < rank(rest[k]) {
        assert rest[k] in multiset(rest);
        if rest[k] != x {
          assert rest[k] in multiset(tail);
          var i :| 0 <= i < |tail| && tail[i] == rest[k];
          assert s[i + 1] == tail[i];
        }
      }
      forall i, j | 0 <= i < j < |r| && key(r[i]) == key(r[j]) ensures rank(r[i]) < rank(r[j]) {
        assert r[j] == rest[j - 1];
        if i > 0 {
          assert r[i] == rest[i - 1];
        }
      }
    }
  }

  /** `SortBy` is stable: on input listed in increasing `rank`, elements with equal
      keys come out in increasing `rank` too. */
  lemma {:induction false} SortByStable<T>(s: seq<T>, key: T -> int, rank: T -> int)
    requires forall i, j :: 0 <= i < j < |s| ==> rank(s[i]) < rank(s[j])
    ensures StableBy(SortBy(s, key), key, rank)
    decreases |s|
  {
    if s != [] {
      var front, last := s[..|s| - 1], s[|s| - 1];
      var sorted := SortBy(front, key);
      SortByStable(front, key, rank);
      forall k | 0 <= k < |sorted| ensures rank(sorted[k]) < rank(last) {
        assert sorted[k] in multiset(front);
        var i :| 0 <= i < |front| && front[i] == sorted[k];
        assert s[i] == front[i];
      }
      InsertStable(last, sorted, key, rank);
    }
  }

  function Identity(x: int): int { x }

  /** `sort_unstable` followed by `dedup` on integers: the distinct values of the input
      in increasing order. */
  function SortedDistinct(s: seq<int>): (r: seq<int>)
    ensures StrictlyIncreasing(r)
    ensures forall x :: x in r <==> x in s
  {
    var sorted := SortBy(s, Identity);
    assert forall x :: x in sorted <==> x in multiset(s);
    Dedup(sorted)
  }

  /** `dedup` on a sorted sequence: drops each element equal to its predecessor. */
  function Dedup(s: seq<int>): (r: seq<int>)
    requires SortedBy(s, Identity)
    ensures StrictlyIncreasing(r)
    ensures forall x :: x in r <==> x in s
    ensures s != [] ==> r != [] && r[0] == s[0]
  {
    if |s| <= 1 then s
    else
      var rest := Dedup(s[1..]);
      if s[0] == s[1] then rest else [s[0]] + rest
  }
}
