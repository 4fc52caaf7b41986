/** Queries along whole runs, over the indexes as the run left them. */
module AnswersAlongRuns {
  import opened Transitions
  import opened Recovery
  import opened Invariants
  import opened Runs
  import opened Indexes
  import opened IndexRuns
  import opened Queries
  import opened Planner
  import opened Answers
  import opened RecoveredAnswers

  lemma RunSizes(D: Digest, ss: seq<EngineState>, ops: seq<Op>, vs: seq<IndexView>)
    requires IsIndexedRun(D, ss, ops, vs)
    ensures |ss| == |ops| + 1 && |vs| == |ss|
  {
    hide IndexStep;
  }

  lemma RunCatalog(D: Digest, ss: seq<EngineState>, ops: seq<Op>, vs: seq<IndexView>, n: nat)
    requires IgnoresUnhashed(D) && IsIndexedRun(D, ss, ops, vs) && n < |ss|
    ensures Keyed(CatalogOf(ss[n])) && FixedExact(vs[n].ids, CatalogOf(ss[n]))
  {
    hide IndexStep, Step, Allowed, Holders;
    ReachableInv(D, ss, ops, n);
    forall k: IndexKey | !k.Moving() ensures Lookup(vs[n].ids, k) == Holders(ss[n].records, k) {
      FixedIndexesExact(D, ss, ops, vs, n, k);
    }
  }

  /** In every reachable state, whatever the indexes have been through, an index-driven query that does not
      name a state together with a wildcard ranks and selects what a scan of every record would. */
  lemma ReachableIndexAgreesWithScan(D: Digest, M: Meaning, ss: seq<EngineState>, ops: seq<Op>, vs: seq<IndexView>,
                                     n: nat, q: Query, historical: bool)
    requires IgnoresUnhashed(D) && IsIndexedRun(D, ss, ops, vs) && n < |ss|
    requires !(q.stateId.Some? && q.wildcardStateId)
    ensures Keyed(CatalogOf(ss[n]))
    ensures var a, b :=
      AskIndexed(M, vs[n].ids, CatalogOf(ss[n]), q, historical), AskByScan(M, CatalogOf(ss[n]), q, historical);
      a.ranked == b.ranked && a.selected == b.selected && (a.ranked != [] ==> a.outcome == b.outcome)
  {
    hide *;
    RunSizes(D, ss, ops, vs);
    RunCatalog(D, ss, ops, vs, n);
    IndexAgreesWithScan(M, vs[n].ids, CatalogOf(ss[n]), q, historical);
  }

  /** A save and load anywhere in a run changes no answer: not for current and not for historical queries,
      but for freshness factors and the order they give. */
  lemma RecoveryKeepsAnswersAlongRuns(D: Digest, M: Meaning, ss: seq<EngineState>, ops: seq<Op>, vs: seq<IndexView>,
                                      n: nat, q: Query, historical: bool)
    requires IgnoresUnhashed(D) && IsIndexedRun(D, ss, ops, vs) && n < |ops| && ops[n].RecoverOp?
    ensures Keyed(CatalogOf(ss[n])) && Keyed(CatalogOf(ss[n + 1]))
    ensures SameAnswer(AskIndexed(M, vs[n].ids, CatalogOf(ss[n]), q, historical),
                       AskIndexed(M, vs[n + 1].ids, CatalogOf(ss[n + 1]), q, historical))
  {
    hide *;
    RunSizes(D, ss, ops, vs);
    RunCatalog(D, ss, ops, vs, n);
    RunCatalog(D, ss, ops, vs, n + 1);
    RecoveryInRun(D, ss, ops, vs, n);
    RecoveryPreservesAnswers(D, M, ss[n], ops[n].registry, vs[n].ids, vs[n + 1].ids, q, historical);
  }

  lemma RecoveryInRun(D: Digest, ss: seq<EngineState>, ops: seq<Op>, vs: seq<IndexView>, n: nat)
    requires IsIndexedRun(D, ss, ops, vs) && n < |ops| && ops[n].RecoverOp?
    ensures |ss| == |ops| + 1 && |vs| == |ss| && ss[n + 1] == Recovered(D, ss[n], ops[n].registry)
  {
    hide IndexStep, Recovered;
    assert Step(D, ss[n], ops[n], ss[n + 1]);
  }
}
