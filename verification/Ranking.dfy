/** Ranking is a strict total order on candidates, so the ranked list is the one sorted arrangement of the
    survivors whatever order they came in. */
module Ranking {
  import opened Planner

  // -------- What the comparison means --------

  predicate AgreeBelow(a: Candidate, b: Candidate, k: nat)
    requires k <= 14
  {
    forall i :: 0 <= i < k ==> a.factors[i] == b.factors[i]
  }

  /** The first factor that differs is higher; or none differs and the generation is higher; or that is the same
      too and the record id is lower. */
  predicate Outranks(a: Candidate, b: Candidate) {
    || (exists k :: 0 <= k < 14 && AgreeBelow(a, b, k) && a.factors[k] > b.factors[k])
    || (AgreeBelow(a, b, 14) && a.generation > b.generation)
    || (AgreeBelow(a, b, 14) && a.generation == b.generation && a.recordId < b.recordId)
  }

  lemma {:induction false} BeforeFromMeaning(a: Candidate, b: Candidate, i: nat)
    requires i <= 14 && AgreeBelow(a, b, i)
    ensures BeforeFrom(a, b, i) <==> Outranks(a, b)
    decreases 14 - i
  {
    if i < 14 {
      if a.factors[i] == b.factors[i] {
        BeforeFromMeaning(a, b, i + 1);
      } else {
        DifferAt(a, b, i);
      }
    }
  }

  lemma DifferAt(a: Candidate, b: Candidate, i: nat)
    requires i < 14 && AgreeBelow(a, b, i) && a.factors[i] != b.factors[i]
    ensures Outranks(a, b) <==> a.factors[i] > b.factors[i]
  {
    assert !AgreeBelow(a, b, 14);
    if exists k :: 0 <= k < 14 && AgreeBelow(a, b, k) && a.factors[k] > b.factors[k] {
      var k :| 0 <= k < 14 && AgreeBelow(a, b, k) && a.factors[k] > b.factors[k];
      assert k == i;
    }
  }

  lemma BeforeMeaning(a: Candidate, b: Candidate)
    ensures Before(a, b) <==> Outranks(a, b)
  {
    BeforeFromMeaning(a, b, 0);
  }

  // -------- A total order --------

  lemma {:induction false} BeforeAsymmetric(a: Candidate, b: Candidate, i: nat)
    requires i <= FACTOR_COUNT
    ensures !(BeforeFrom(a, b, i) && BeforeFrom(b, a, i))
    decreases FACTOR_COUNT - i
  {
    if i < FACTOR_COUNT && a.factors[i] == b.factors[i] {
      BeforeAsymmetric(a, b, i + 1);
    }
  }

  lemma {:induction false} BeforeTransitive(a: Candidate, b: Candidate, c: Candidate, i: nat)
    requires i <= FACTOR_COUNT && BeforeFrom(a, b, i) && BeforeFrom(b, c, i)
    ensures BeforeFrom(a, c, i)
    decreases FACTOR_COUNT - i
  {
    if i < FACTOR_COUNT && a.factors[i] == b.factors[i] && b.factors[i] == c.factors[i] {
      BeforeTransitive(a, b, c, i + 1);
    }
  }

  lemma {:induction false} BeforeTotal(a: Candidate, b: Candidate, i: nat)
    requires i <= FACTOR_COUNT && a.recordId != b.recordId
    ensures BeforeFrom(a, b, i) || BeforeFrom(b, a, i)
    decreases FACTOR_COUNT - i
  {
    if i < FACTOR_COUNT && a.factors[i] == b.factors[i] {
      BeforeTotal(a, b, i + 1);
    }
  }

  /** The ranking comparison is a strict total order on candidates for different records. */
  lemma StrictTotalOrder(a: Candidate, b: Candidate, c: Candidate)
    ensures Before(a, b) <==> Outranks(a, b)
    ensures !Before(a, a)
    ensures Before(a, b) && Before(b, c) ==> Before(a, c)
    ensures a.recordId != b.recordId ==> (Before(a, b) <==> !Before(b, a))
  {
    hide BeforeFrom, Outranks;
    BeforeMeaning(a, b);
    BeforeAsymmetric(a, a, 0);
    BeforeAsymmetric(a, b, 0);
    if Before(a, b) && Before(b, c) {
      BeforeTransitive(a, b, c, 0);
    }
    if a.recordId != b.recordId {
      BeforeTotal(a, b, 0);
    }
  }

  lemma OrderedTail(xs: seq<Candidate>)
    requires xs != [] && InOrder(xs)
    ensures InOrder(xs[1..]) && multiset(xs) == multiset{xs[0]} + multiset(xs[1..])
    ensures forall y :: y in multiset(xs) ==> y == xs[0] || Before(xs[0], y)
  {
    hide Before;
    assert xs == [xs[0]] + xs[1..];
    forall y | y in multiset(xs) ensures y == xs[0] || Before(xs[0], y) {
      var i :| 0 <= i < |xs| && xs[i] == y;
    }
  }

  lemma SameFirst(xs: seq<Candidate>, ys: seq<Candidate>)
    requires InOrder(xs) && InOrder(ys) && multiset(xs) == multiset(ys) && xs != [] && ys != []
    ensures xs[0] == ys[0]
  {
    hide Before, InOrder;
    OrderedTail(xs);
    OrderedTail(ys);
    assert xs[0] in multiset(xs) && ys[0] in multiset(ys);
    StrictTotalOrder(xs[0], ys[0], xs[0]);
  }

  lemma TailMultiset(xs: seq<Candidate>)
    requires xs != []
    ensures multiset(xs[1..]) == multiset(xs) - multiset{xs[0]}
  {
    assert xs == [xs[0]] + xs[1..];
  }

  /** Two sorted arrangements of the same candidates are the same list. */
  lemma {:induction false} SortedIsUnique(xs: seq<Candidate>, ys: seq<Candidate>)
    requires InOrder(xs) && InOrder(ys) && multiset(xs) == multiset(ys)
    ensures xs == ys
    decreases |xs|
  {
    hide Before, InOrder;
    assert |xs| == |multiset(xs)| && |ys| == |multiset(ys)|;
    if xs != [] {
      SameFirst(xs, ys);
      OrderedTail(xs);
      OrderedTail(ys);
      TailMultiset(xs);
      TailMultiset(ys);
      SortedIsUnique(xs[1..], ys[1..]);
      assert xs == [xs[0]] + xs[1..] && ys == [ys[0]] + ys[1..];
    }
  }

  lemma {:induction false} InsertKeepsOrder(x: Candidate, cs: seq<Candidate>)
    requires InOrder(cs) && forall y :: y in multiset(cs) ==> y.recordId != x.recordId
    ensures InOrder(InsertRanked(x, cs)) && multiset(InsertRanked(x, cs)) == multiset(cs) + multiset{x}
    decreases |cs|
  {
    hide Before;
    if cs != [] {
      OrderedTail(cs);
      assert cs[0] in multiset(cs);
      StrictTotalOrder(x, cs[0], x);
      if Before(x, cs[0]) {
        forall j | 0 <= j < |cs| ensures Before(x, cs[j]) {
          assert cs[j] in multiset(cs);
          StrictTotalOrder(x, cs[0], cs[j]);
        }
      } else {
        InsertKeepsOrder(x, cs[1..]);
        var rest := InsertRanked(x, cs[1..]);
        forall j | 0 <= j < |rest| ensures Before(cs[0], rest[j]) {
          assert rest[j] in multiset(rest);
          assert rest[j] == x || rest[j] in multiset(cs[1..]);
        }
      }
    }
  }

  /** The ranked list is sorted and holds exactly the candidates given. */
  lemma {:induction false} RankedIsSorted(cs: seq<Candidate>)
    requires DistinctIds(cs)
    ensures InOrder(Ranked(cs)) && multiset(Ranked(cs)) == multiset(cs) && |Ranked(cs)| == |cs|
    decreases |cs|
  {
    hide InsertRanked;
    if cs != [] {
      var front, x := cs[..|cs| - 1], cs[|cs| - 1];
      RankedIsSorted(front);
      assert cs == front + [x];
      forall y | y in multiset(Ranked(front)) ensures y.recordId != x.recordId {
        assert y in multiset(front);
        var i :| 0 <= i < |front| && front[i] == y;
        assert cs[i] == y;
      }
      InsertKeepsOrder(x, Ranked(front));
    }
    assert |multiset(Ranked(cs))| == |Ranked(cs)| && |multiset(cs)| == |cs|;
  }

  /** The order in which candidates are met does not matter: any two lists of the same candidates rank to
      the same list. */
  lemma RankingIgnoresOrder(cs: seq<Candidate>, ds: seq<Candidate>)
    requires DistinctIds(cs) && DistinctIds(ds) && multiset(cs) == multiset(ds)
    ensures Ranked(cs) == Ranked(ds)
  {
    RankedIsSorted(cs);
    RankedIsSorted(ds);
    SortedIsUnique(Ranked(cs), Ranked(ds));
  }

  /** Insertion sort with the ranking comparison, in the place of the library sort. */
  method SortCandidates(cs: seq<Candidate>) returns (r: seq<Candidate>)
    requires DistinctIds(cs)
    ensures r == Ranked(cs) && multiset(r) == multiset(cs)
    ensures forall i, j :: 0 <= i < j < |r| ==> Outranks(r[i], r[j])
  {
    hide BeforeFrom, InsertRanked, Ranked, Before, Outranks;
    r := [];
    var i := 0;
    while i < |cs|
      invariant 0 <= i <= |cs|
      invariant InOrder(r) && multiset(r) == multiset(cs[..i])
    {
      var x := cs[i];
      var k := 0;
      while k < |r| && !Before(x, r[k])
        invariant 0 <= k <= |r|
        invariant forall j :: 0 <= j < k ==> !Before(x, r[j])
      {
        k := k + 1;
      }
      assert cs[..i + 1] == cs[..i] + [x];
      assert r == r[..k] + r[k..];
      InsertedInOrder(cs, i, r, k);
      r := r[..k] + [x] + r[k..];
      i := i + 1;
    }
    assert cs[..|cs|] == cs;
    RankedIsSorted(cs);
    SortedIsUnique(r, Ranked(cs));
    forall i, j | 0 <= i < j < |r| ensures Outranks(r[i], r[j]) {
      BeforeMeaning(r[i], r[j]);
    }
  }

  lemma InsertedInOrder(cs: seq<Candidate>, i: nat, r: seq<Candidate>, k: nat)
    requires DistinctIds(cs) && i < |cs| && k <= |r|
    requires InOrder(r) && multiset(r) == multiset(cs[..i])
    requires forall j :: 0 <= j < k ==> !Before(cs[i], r[j])
    requires k < |r| ==> Before(cs[i], r[k])
    ensures InOrder(r[..k] + [cs[i]] + r[k..])
  {
    hide Before;
    var x, out := cs[i], r[..k] + [cs[i]] + r[k..];
    forall j | 0 <= j < |r| ensures if j < k then Before(r[j], x) else Before(x, r[j]) {
      assert r[j] in multiset(r);
      assert r[j] in multiset(cs[..i]);
      var m :| 0 <= m < i && cs[..i][m] == r[j];
      assert cs[m].recordId != x.recordId;
      StrictTotalOrder(r[j], x, x);
      if j > k {
        StrictTotalOrder(x, r[k], r[j]);
      }
    }
  }
}
