/** Sorting records by an integer key, in the place of the library sort with a comparison on that key. */
module RecordSorting {
  import opened Model

  type Key = StateRecord -> int

  function RecordId(r: StateRecord): int { r.recordId }

  /** Higher generations first. */
  function NewestFirst(r: StateRecord): int { 0 - (r.stateGeneration as int) }

  predicate OrderedBy(rs: seq<StateRecord>, key: Key) {
    forall i, j :: 0 <= i < j < |rs| ==> key(rs[i]) <= key(rs[j])
  }

  lemma InsertedStaysOrdered(rs: seq<StateRecord>, key: Key, k: nat, x: StateRecord, out: seq<StateRecord>)
    requires OrderedBy(rs, key) && k <= |rs| && out == rs[..k] + [x] + rs[k..]
    requires forall j :: 0 <= j < k ==> key(rs[j]) <= key(x)
    requires k < |rs| ==> key(x) < key(rs[k])
    ensures OrderedBy(out, key)
  {
    assert forall i :: 0 <= i < |out| ==> out[i] == if i < k then rs[i] else if i == k then x else rs[i - 1];
    assert forall m :: k <= m < |rs| ==> key(x) <= key(rs[m]);
  }

  lemma InsertedRecords(r: seq<StateRecord>, k: nat, rs: seq<StateRecord>, i: nat, out: seq<StateRecord>)
    requires k <= |r| && i < |rs| && multiset(r) == multiset(rs[..i]) && out == r[..k] + [rs[i]] + r[k..]
    ensures multiset(out) == multiset(rs[..i + 1])
  {
    assert r == r[..k] + r[k..];
    assert rs[..i + 1] == rs[..i] + [rs[i]];
  }

  method Position(r: seq<StateRecord>, key: Key, bound: int) returns (k: nat)
    ensures k <= |r| && (forall j :: 0 <= j < k ==> key(r[j]) <= bound) && (k < |r| ==> bound < key(r[k]))
  {
    k := 0;
    while k < |r| && key(r[k]) <= bound
      invariant 0 <= k <= |r|
      invariant forall j :: 0 <= j < k ==> key(r[j]) <= bound
    {
      k := k + 1;
    }
  }

  method SortRecords(rs: seq<StateRecord>, key: Key) returns (r: seq<StateRecord>)
    ensures OrderedBy(r, key) && multiset(r) == multiset(rs)
  {
    r := [];
    assert OrderedBy(r, key);
    hide OrderedBy;
    var i := 0;
    while i < |rs|
      invariant 0 <= i <= |rs| && OrderedBy(r, key) && multiset(r) == multiset(rs[..i])
    {
      var k := Position(r, key, key(rs[i]));
      var out := r[..k] + [rs[i]] + r[k..];
      InsertedStaysOrdered(r, key, k, rs[i], out);
      InsertedRecords(r, k, rs, i, out);
      r := out;
      i := i + 1;
    }
    assert rs[..|rs|] == rs;
  }
}
