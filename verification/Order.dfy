/** Names in their sort order, and sequences kept in that order. */
module Order {

  /** A service name, as its rank in the order of names; only order and equality are used. */
  type Name = int

  predicate Ascending(s: seq<Name>) {
    forall i, j :: 0 <= i < j < |s| ==> s[i] < s[j]
  }

  predicate Distinct<T(==)>(s: seq<T>) {
    forall i, j :: 0 <= i < j < |s| ==> s[i] != s[j]
  }

  /** The sequence lists exactly this set. */
  ghost predicate Lists<T(!new)>(s: seq<T>, all: set<T>) {
    forall x :: x in s <==> x in all
  }

  predicate IsLeast(s: set<Name>, x: Name) {
    x in s && forall y <- s :: x <= y
  }

  lemma {:induction false} ThereIsALeast(s: set<Name>)
    requires s != {}
    ensures exists x :: IsLeast(s, x)
  {
    if forall x :: x !in s {
      assert false;
    }
    var x :| x in s;
    if !IsLeast(s, x) {
      var y :| y in s && !(x <= y);
      var rest := s - {x};
      assert y in rest;
      ThereIsALeast(rest);
      var z :| IsLeast(rest, z);
      assert forall w <- s :: w == x || w in rest;
      assert IsLeast(s, z);
    }
  }

  function Least(s: set<Name>): (least: Name)
    requires s != {}
    ensures IsLeast(s, least)
  {
    ThereIsALeast(s);
    var x :| x in s && IsLeast(s, x);
    x
  }

  /** The elements of a set in ascending order, as iterating a sorted set visits them. */
  function InOrder(s: set<Name>): (r: seq<Name>)
    ensures Ascending(r) && Lists(r, s)
  {
    if s == {} then []
    else
      var least := Least(s);
      var rest := InOrder(s - {least});
      assert forall i :: 0 <= i < |rest| ==> rest[i] in s - {least};
      [least] + rest
  }

  /** The position before which everything is less than `x`. */
  function PartitionPoint(s: seq<Name>, x: Name): (k: nat)
    ensures k <= |s| && (forall i :: 0 <= i < k ==> s[i] < x) && (k < |s| ==> x <= s[k])
  {
    if s == [] || x <= s[0] then 0 else 1 + PartitionPoint(s[1..], x)
  }

  function Insert(s: seq<Name>, x: Name): seq<Name> {
    var k := PartitionPoint(s, x);
    s[..k] + [x] + s[k..]
  }

  lemma InsertKeepsOrder(s: seq<Name>, x: Name)
    requires Ascending(s) && x !in s
    ensures Ascending(Insert(s, x))
    ensures forall y :: y in Insert(s, x) <==> y in s || y == x
  {
  }

  predicate NonDescending(s: seq<Name>) {
    forall i, j :: 0 <= i < j < |s| ==> s[i] <= s[j]
  }

  lemma InsertSorts(s: seq<Name>, x: Name)
    requires NonDescending(s)
    ensures NonDescending(Insert(s, x))
  {
  }

  lemma InsertAdds(s: seq<Name>, x: Name)
    ensures multiset(Insert(s, x)) == multiset(s) + multiset{x}
  {
    var k := PartitionPoint(s, x);
    assert s == s[..k] + s[k..];
  }

  /** Sorting, duplicates kept. */
  function Sorted(s: seq<Name>): (r: seq<Name>)
    ensures multiset(r) == multiset(s) && NonDescending(r)
  {
    if s == [] then []
    else
      var rest := Sorted(s[1..]);
      InsertSorts(rest, s[0]);
      InsertAdds(rest, s[0]);
      assert s == [s[0]] + s[1..];
      Insert(rest, s[0])
  }

  /** A sequence without repetitions has as many elements as its set. */
  lemma {:induction false} DistinctSize<T(!new)>(s: seq<T>, all: set<T>)
    requires Distinct(s) && Lists(s, all)
    ensures |all| == |s|
  {
    if s == [] {
      assert all == {};
    } else {
      var front, last := s[..|s| - 1], s[|s| - 1];
      assert s == front + [last];
      assert last !in front;
      DistinctSize(front, all - {last});
    }
  }

  /** A sequence without repetitions that is as long as a set it stays within covers that set. */
  lemma DistinctCovers<T(!new)>(s: seq<T>, all: set<T>)
    requires Distinct(s) && forall x <- s :: x in all
    ensures |s| <= |all| && (|s| == |all| <==> Lists(s, all))
  {
    var listed := set x | x in all && x in s;
    DistinctSize(s, listed);
    assert all == listed + (all - listed);
    assert |all| == |listed| + |all - listed|;
  }
}
