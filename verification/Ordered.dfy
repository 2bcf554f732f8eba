/** Finite sets of integers listed in ascending order, as an ORDER BY ... LIMIT query lists keys. */
module Ordered {

  predicate Ascending(s: seq<int>) {
    forall i, j :: 0 <= i < j < |s| ==> s[i] < s[j]
  }

  lemma EmptyOrNot<T>(s: set<T>)
    ensures s == {} || exists x :: x in s
  {
    if !exists x :: x in s { assert s == {}; }
  }

  lemma SomeMember<T>(s: set<T>) returns (x: T)
    requires s != {}
    ensures x in s
  {
    EmptyOrNot(s);
    x :| x in s;
  }

  predicate Least(m: int, s: set<int>) {
    m in s && forall x :: x in s ==> m <= x
  }

  lemma {:induction false} MinExists(s: set<int>)
    requires s != {}
    ensures exists m :: Least(m, s)
    decreases |s|
  {
    var m := SomeMember(s);
    if s == {m} {
      assert Least(m, s);
    } else {
      var rest := s - {m};
      assert rest != {};
      MinExists(rest);
      var k :| Least(k, rest);
      assert forall x :: x in s ==> x == m || x in rest;
      assert Least(if k < m then k else m, s);
    }
  }

  function Min(s: set<int>): (m: int)
    requires s != {}
    ensures Least(m, s)
  {
    MinExists(s);
    var m :| Least(m, s);
    m
  }

  function Sorted(s: set<int>): (r: seq<int>)
    ensures Ascending(r) && |r| == |s|
    ensures forall x :: x in r <==> x in s
    decreases |s|
  {
    if s == {} then [] else
      var m := Min(s);
      var r := Sorted(s - {m});
      assert forall i :: 0 <= i < |r| ==> r[i] in r;
      [m] + r
  }

  /** Only one ascending sequence lists a given set. */
  lemma {:induction false} AscendingUnique(a: seq<int>, b: seq<int>)
    requires Ascending(a) && Ascending(b)
    requires forall x :: x in a <==> x in b
    ensures a == b
  {
    assert |a| > 0 ==> a[0] in a;
    assert |b| > 0 ==> b[0] in b;
    if |a| > 0 && |b| > 0 {
      forall x ensures x in a[1..] <==> x in b[1..] {
        TailMembers(a, x);
        TailMembers(b, x);
      }
      AscendingUnique(a[1..], b[1..]);
      assert a == [a[0]] + a[1..] && b == [b[0]] + b[1..];
    }
  }

  lemma TailMembers(a: seq<int>, x: int)
    requires Ascending(a) && a != []
    ensures x in a[1..] <==> x in a && x != a[0]
  {
    if x in a && x != a[0] {
      var i :| 0 <= i < |a| && a[i] == x;
      assert a[1..][i - 1] == x;
    }
  }

  function Take<T>(s: seq<T>, n: nat): seq<T> {
    if n <= |s| then s[..n] else s
  }

  function Above(s: set<int>, after: int): set<int> {
    set x | x in s && x > after
  }

  /** The n smallest elements above a bound. */
  function Lowest(s: set<int>, after: int, n: nat): (r: seq<int>)
    ensures Ascending(r) && |r| <= n
    ensures forall x :: x in r ==> x in s && x > after
  {
    var all := Sorted(Above(s, after));
    assert forall x :: x in Take(all, n) ==> x in all;
    Take(all, n)
  }

  /** Nothing is jumped over: whatever lies above the bound and not past a listed element is listed. */
  lemma LowestClosed(s: set<int>, after: int, n: nat, x: int, y: int)
    requires x in s && after < x <= y && y in Lowest(s, after, n)
    ensures x in Lowest(s, after, n)
  {
    var all := Sorted(Above(s, after));
    assert x in all && y in all;
    var i :| 0 <= i < |all| && all[i] == x;
    var j :| 0 <= j < |Lowest(s, after, n)| && Lowest(s, after, n)[j] == y;
    assert all[j] == y;
    assert i <= j;
    assert Lowest(s, after, n)[i] == x;
  }

  /** A short answer is a complete one. */
  lemma LowestComplete(s: set<int>, after: int, n: nat)
    requires |Lowest(s, after, n)| < n
    ensures forall x :: x in Lowest(s, after, n) <==> x in Above(s, after)
  {}

  /** So is one that has room for all. */
  lemma LowestAll(s: set<int>, after: int, n: nat)
    requires |Above(s, after)| <= n
    ensures forall x :: x in Lowest(s, after, n) <==> x in Above(s, after)
  {
    TakeAllOf(Sorted(Above(s, after)), n);
  }

  lemma TakeAllOf(all: seq<int>, n: nat)
    requires |all| <= n
    ensures Take(all, n) == all
  {}

  lemma LowestSize(s: set<int>, after: int, n: nat)
    ensures |Lowest(s, after, n)| == if n <= |Above(s, after)| then n else |Above(s, after)|
  {}

  /** Going on from the last element listed leaves exactly what was not listed. */
  lemma LowestRest(s: set<int>, after: int, n: nat)
    requires Lowest(s, after, n) != []
    ensures var r := Lowest(s, after, n);
            Sorted(Above(s, after)) == r + Sorted(Above(s, r[|r| - 1]))
  {
    var all, r := Sorted(Above(s, after)), Lowest(s, after, n);
    var rest := all[|r|..];
    assert all == r + rest;
    SplitMembers(all, |r|);
    AscendingUnique(rest, Sorted(Above(s, r[|r| - 1])));
  }

  /** Cutting an ascending sequence in two separates its members by size. */
  lemma SplitMembers(all: seq<int>, n: nat)
    requires Ascending(all) && 0 < n <= |all|
    ensures Ascending(all[n..])
    ensures forall x :: x in all[n..] <==> x in all && x > all[n - 1]
  {
    forall x ensures x in all[n..] <==> x in all && x > all[n - 1] {
      if x in all && x > all[n - 1] {
        var i :| 0 <= i < |all| && all[i] == x;
        assert all[n..][i - n] == x;
      }
    }
  }
}
