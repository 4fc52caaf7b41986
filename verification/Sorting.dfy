/** Sorted lists of record ids. */
module Sorting {
  import opened Basics

  predicate Ascending(s: seq<u64>) {
    forall i, j :: 0 <= i < j < |s| ==> s[i] < s[j]
  }

  predicate NonDecreasing(s: seq<u64>) {
    forall i, j :: 0 <= i < j < |s| ==> s[i] <= s[j]
  }

  function Elements<T>(s: seq<T>): set<T> {
    set x | x in s
  }

  lemma TailElements(a: seq<u64>)
    requires a != [] && Ascending(a)
    ensures Ascending(a[1..]) && Elements(a[1..]) == Elements(a) - {a[0]}
    ensures forall x :: x in Elements(a) ==> a[0] <= x
  {
    forall x ensures x in Elements(a[1..]) <==> x in Elements(a) - {a[0]} {
      if x in Elements(a) - {a[0]} {
        var i :| 0 <= i < |a| && a[i] == x;
        assert a[1..][i - 1] == x;
      }
    }
  }

  /** A strictly ascending list is determined by its elements. */
  lemma {:induction false} AscendingUnique(a: seq<u64>, b: seq<u64>)
    requires Ascending(a) && Ascending(b) && Elements(a) == Elements(b)
    ensures a == b
    decreases |a|
  {
    assert a != [] ==> a[0] in Elements(a);
    assert b != [] ==> b[0] in Elements(b);
    if a != [] && b != [] {
      TailElements(a);
      TailElements(b);
      AscendingUnique(a[1..], b[1..]);
      assert a == [a[0]] + a[1..] && b == [b[0]] + b[1..];
    }
  }

  predicate IsMinimum(s: set<u64>, m: u64) {
    m in s && forall x :: x in s ==> m <= x
  }

  lemma {:induction false} HasMinimum(s: set<u64>) returns (m: u64)
    requires s != {}
    ensures IsMinimum(s, m)
    decreases |s|
  {
    var e :| e in s;
    var rest := s - {e};
    m := e;
    if rest != {} {
      var least := HasMinimum(rest);
      if least < e {
        m := least;
      }
    }
    forall x | x in s ensures m <= x {
      assert x == e || x in rest;
    }
  }

  ghost function AscendingOf(s: set<u64>): (r: seq<u64>)
    ensures Ascending(r) && Elements(r) == s
    decreases |s|
  {
    if s == {} then []
    else
      assert exists m :: IsMinimum(s, m) by { var least := HasMinimum(s); }
      var m :| IsMinimum(s, m);
      var rest := AscendingOf(s - {m});
      PutInFront(m, rest, s);
      [m] + rest
  }

  lemma PutInFront(m: u64, rest: seq<u64>, s: set<u64>)
    requires IsMinimum(s, m) && Ascending(rest) && Elements(rest) == s - {m}
    ensures Ascending([m] + rest) && Elements([m] + rest) == s
  {
    forall i | 0 <= i < |rest| ensures m < rest[i] {
      assert rest[i] in Elements(rest);
    }
    assert Elements([m] + rest) == {m} + Elements(rest);
  }

  /** The step of the insertion sort. */
  lemma InsertedStaysSorted(r: seq<u64>, k: nat, x: u64, out: seq<u64>)
    requires NonDecreasing(r) && k <= |r| && out == r[..k] + [x] + r[k..]
    requires forall j :: 0 <= j < k ==> r[j] <= x
    requires k < |r| ==> x < r[k]
    ensures NonDecreasing(out)
  {
    assert forall i :: 0 <= i < |out| ==> out[i] == if i < k then r[i] else if i == k then x else r[i - 1];
    assert forall m :: k <= m < |r| ==> x <= r[m];
  }

  lemma InsertedElements(r: seq<u64>, k: nat, x: u64)
    requires k <= |r|
    ensures multiset(r[..k] + [x] + r[k..]) == multiset(r) + multiset{x}
  {
    assert r == r[..k] + r[k..];
  }

  /** Insertion sort, in the place of the library sort. */
  method SortIds(ids: seq<u64>) returns (r: seq<u64>)
    ensures NonDecreasing(r) && multiset(r) == multiset(ids)
  {
    r := [];
    assert NonDecreasing(r);
    hide NonDecreasing;
    var i := 0;
    while i < |ids|
      invariant 0 <= i <= |ids|
      invariant NonDecreasing(r) && multiset(r) == multiset(ids[..i])
    {
      var k := 0;
      while k < |r| && r[k] <= ids[i]
        invariant 0 <= k <= |r|
        invariant forall j :: 0 <= j < k ==> r[j] <= ids[i]
      {
        k := k + 1;
      }
      assert ids[..i + 1] == ids[..i] + [ids[i]];
      InsertedStaysSorted(r, k, ids[i], r[..k] + [ids[i]] + r[k..]);
      InsertedElements(r, k, ids[i]);
      r := r[..k] + [ids[i]] + r[k..];
      i := i + 1;
    }
    assert ids[..|ids|] == ids;
  }

  lemma ElementsOfLonger(r: seq<u64>, x: u64)
    ensures Elements(r + [x]) == Elements(r) + {x}
  {
  }

  /** std::unique on a sorted list: drop each element equal to the one before it. */
  method Unique(ids: seq<u64>) returns (r: seq<u64>)
    requires NonDecreasing(ids)
    ensures Ascending(r) && Elements(r) == Elements(ids)
  {
    r := [];
    var i := 0;
    while i < |ids|
      invariant 0 <= i <= |ids|
      invariant Ascending(r) && Elements(r) == Elements(ids[..i])
      invariant forall j :: 0 <= j < |r| && i < |ids| ==> r[j] <= ids[i]
      invariant i > 0 ==> r != [] && r[|r| - 1] == ids[i - 1]
    {
      ElementsOfLonger(ids[..i], ids[i]);
      assert ids[..i + 1] == ids[..i] + [ids[i]];
      if r == [] || r[|r| - 1] != ids[i] {
        ElementsOfLonger(r, ids[i]);
        r := r + [ids[i]];
      } else {
        assert ids[i] in Elements(r);
      }
      i := i + 1;
    }
    assert ids[..|ids|] == ids;
  }

  /** Ids collected from a hash table in any order and then sorted. */
  method CollectSorted(s: set<u64>) returns (r: seq<u64>)
    ensures r == AscendingOf(s)
  {
    var ids: seq<u64> := [];
    var left := s;
    while left != {}
      invariant left <= s && Elements(ids) == s - left
      decreases left
    {
      var x :| x in left;
      assert Elements(ids + [x]) == Elements(ids) + {x};
      ids := ids + [x];
      left := left - {x};
    }
    var sorted := SortIds(ids);
    SameElements(sorted, ids);
    r := Unique(sorted);
    AscendingUnique(r, AscendingOf(s));
  }

  lemma SameElements(a: seq<u64>, b: seq<u64>)
    requires multiset(a) == multiset(b)
    ensures Elements(a) == Elements(b)
  {
    forall x ensures x in Elements(a) <==> x in Elements(b) {
      assert x in Elements(a) <==> x in multiset(a);
      assert x in Elements(b) <==> x in multiset(b);
    }
  }
}
