/** What the answers to queries mean: they agree with a full scan, and only sound candidates are found. */
module Answers {
  import opened Basics
  import opened Model
  import opened Indexes
  import opened Sorting
  import opened Queries
  import opened Planner
  import opened Ranking

  ghost predicate Keyed(c: Catalog) {
    forall id :: id in c.records ==> c.records[id].recordId == id
  }

  /** The indexes on unchanging fields are exact. */
  ghost predicate FixedExact(ids: map<IndexKey, set<u64>>, c: Catalog) {
    forall k: IndexKey :: !k.Moving() ==> Lookup(ids, k) == Holders(c.records, k)
  }

  predicate Survives(M: Meaning, c: Catalog, q: Query, historical: bool, id: u64) {
    id in c.records && Assess(M, c, q, historical, c.records[id]).InScope?
  }

  // -------- The lists --------

  lemma {:induction false} SurvivorsAre(M: Meaning, c: Catalog, q: Query, historical: bool, ids: seq<u64>)
    requires Keyed(c) && Ascending(ids)
    ensures var cs := Survivors(M, c, q, historical, ids);
      && (forall x :: x in cs ==> && x.recordId in ids && x.recordId in c.records
                                  && Assess(M, c, q, historical, c.records[x.recordId]) == InScope(x))
      && (forall i, j :: 0 <= i < j < |cs| ==> cs[i].recordId < cs[j].recordId)
      && DistinctIds(cs)
    decreases |ids|
  {
    hide RecordFilter, PlacementFilter, Suitable, Best, FactorsOf;
    if ids != [] {
      var front, id := ids[..|ids| - 1], ids[|ids| - 1];
      SurvivorsAre(M, c, q, historical, front);
    }
  }

  lemma {:induction false} SurvivorsAll(M: Meaning, c: Catalog, q: Query, historical: bool, ids: seq<u64>, id: u64)
    requires Keyed(c) && id in ids && Survives(M, c, q, historical, id)
    ensures Assess(M, c, q, historical, c.records[id]).candidate in Survivors(M, c, q, historical, ids)
    decreases |ids|
  {
    hide Assess;
    var front := ids[..|ids| - 1];
    if id != ids[|ids| - 1] {
      assert id in front by { var i :| 0 <= i < |ids| && ids[i] == id; assert front[i] == id; }
      SurvivorsAll(M, c, q, historical, front, id);
    }
  }

  lemma RankedInCatalog(M: Meaning, c: Catalog, q: Query, historical: bool, ids: seq<u64>)
    requires Keyed(c) && Ascending(ids)
    ensures var cs := Survivors(M, c, q, historical, ids);
      && (forall x :: x in Ranked(cs) <==> x in cs) && |Ranked(cs)| == |cs|
      && (forall x :: x in Ranked(cs) ==> x.recordId in c.records)
  {
    hide Assess;
    var cs := Survivors(M, c, q, historical, ids);
    SurvivorsAre(M, c, q, historical, ids);
    RankedIsSorted(cs);
    forall x ensures x in Ranked(cs) <==> x in cs {
      assert x in Ranked(cs) <==> x in multiset(Ranked(cs));
      assert x in cs <==> x in multiset(cs);
    }
  }

  /** The answer from evaluating exactly the listed records. */
  ghost function Ask(M: Meaning, c: Catalog, q: Query, historical: bool, ids: seq<u64>): Answer
    requires Keyed(c) && Ascending(ids)
  {
    RankedInCatalog(M, c, q, historical, ids);
    Conclude(c, q, ids == [], Ranked(Survivors(M, c, q, historical, ids)), Losers(M, c, q, historical, ids))
  }

  /** Candidate generation: the state index, else the kind index, else every record. */
  function CandidateSet(ids: map<IndexKey, set<u64>>, c: Catalog, q: Query): set<u64> {
    if q.stateId.Some? then Lookup(ids, ByState(q.stateId.value))
    else if q.kind.Some? then Lookup(ids, ByKind(q.kind.value))
    else c.records.Keys
  }

  ghost function AskIndexed(M: Meaning, ids: map<IndexKey, set<u64>>, c: Catalog, q: Query, historical: bool): Answer
    requires Keyed(c)
  {
    Ask(M, c, q, historical, AscendingOf(CandidateSet(ids, c, q)))
  }

  ghost function AskByScan(M: Meaning, c: Catalog, q: Query, historical: bool): Answer
    requires Keyed(c)
  {
    Ask(M, c, q, historical, AscendingOf(c.records.Keys))
  }

  // -------- Index against scan --------

  /** Dropping ids that do not survive does not change the survivors. */
  lemma {:induction false} OnlySurvivorsMatter(M: Meaning, c: Catalog, q: Query, historical: bool, xs: seq<u64>,
                                               ys: seq<u64>)
    requires Ascending(xs) && Ascending(ys) && Elements(xs) <= Elements(ys)
    requires forall y :: y in Elements(ys) - Elements(xs) ==> !Survives(M, c, q, historical, y)
    ensures Survivors(M, c, q, historical, xs) == Survivors(M, c, q, historical, ys)
    decreases |ys|
  {
    hide Assess;
    if ys == [] {
      NoElements(xs);
    } else {
      var y, front := ys[|ys| - 1], ys[..|ys| - 1];
      LastElement(ys);
      if y in Elements(xs) {
        LastElement(xs);
        assert xs[|xs| - 1] in Elements(ys);
        OnlySurvivorsMatter(M, c, q, historical, xs[..|xs| - 1], front);
      } else {
        assert y in Elements(ys) - Elements(xs);
        OnlySurvivorsMatter(M, c, q, historical, xs, front);
      }
    }
  }

  lemma NoElements(xs: seq<u64>)
    ensures xs == [] <==> Elements(xs) == {}
  {
    if xs != [] {
      assert xs[0] in Elements(xs);
    }
  }

  lemma LastElement(ys: seq<u64>)
    requires ys != [] && Ascending(ys)
    ensures Ascending(ys[..|ys| - 1]) && Elements(ys[..|ys| - 1]) == Elements(ys) - {ys[|ys| - 1]}
    ensures forall y :: y in Elements(ys) ==> y <= ys[|ys| - 1]
    ensures ys[|ys| - 1] in Elements(ys)
  {
    var front, last := ys[..|ys| - 1], ys[|ys| - 1];
    forall y ensures y in Elements(front) <==> y in Elements(ys) - {last} {
      if y in Elements(ys) - {last} {
        var i :| 0 <= i < |ys| && ys[i] == y;
        assert front[i] == y;
      }
    }
  }

  lemma FixedKeyOf(state: u64, generation: u64, d: Descriptor, k: IndexKey)
    ensures k.ByState? ==> (k in FixedKeys(state, generation, d) <==> k.state == state)
    ensures k.ByKind? ==> (k in FixedKeys(state, generation, d) <==> k.kind == d.kind)
  {
    hide SizeBucket;
  }

  lemma StateHolders(records: map<u64, StateRecord>, state: u64, id: u64)
    ensures id in Holders(records, ByState(state)) <==> id in records && records[id].stateId == state
  {
    hide KeysOf, FixedKeys;
    if id in records {
      FixedPart(records[id], ByState(state));
      FixedKeyOf(records[id].stateId, records[id].stateGeneration, records[id].descriptor, ByState(state));
    }
  }

  lemma KindHolders(records: map<u64, StateRecord>, kind: u16, id: u64)
    ensures id in Holders(records, ByKind(kind)) <==> id in records && records[id].descriptor.kind == kind
  {
    hide KeysOf, FixedKeys;
    if id in records {
      FixedPart(records[id], ByKind(kind));
      FixedKeyOf(records[id].stateId, records[id].stateGeneration, records[id].descriptor, ByKind(kind));
    }
  }

  /** A record outside the candidate set fails the identity filter. */
  lemma OthersDoNotSurvive(M: Meaning, ids: map<IndexKey, set<u64>>, c: Catalog, q: Query, historical: bool, id: u64)
    requires FixedExact(ids, c) && !(q.stateId.Some? && q.wildcardStateId)
    requires id !in CandidateSet(ids, c, q)
    ensures !Survives(M, c, q, historical, id)
  {
    hide Holders, LifecycleFilter, GenerationFilter, CompatibilityFilter, RequirementsFilter, PlacementFilter, Suitable;
    if q.stateId.Some? {
      StateHolders(c.records, q.stateId.value, id);
    } else if q.kind.Some? {
      KindHolders(c.records, q.kind.value, id);
    }
  }

  lemma CandidatesAreRecords(ids: map<IndexKey, set<u64>>, c: Catalog, q: Query)
    requires FixedExact(ids, c)
    ensures CandidateSet(ids, c, q) <= c.records.Keys
  {
    hide KeysOf;
  }

  /** An index-driven query ranks and selects exactly what evaluating every record would, unless it names a
      state and asks for a wildcard at once. */
  lemma IndexAgreesWithScan(M: Meaning, ids: map<IndexKey, set<u64>>, c: Catalog, q: Query, historical: bool)
    requires Keyed(c) && FixedExact(ids, c) && !(q.stateId.Some? && q.wildcardStateId)
    ensures var a, b := AskIndexed(M, ids, c, q, historical), AskByScan(M, c, q, historical);
      a.ranked == b.ranked && a.selected == b.selected && (a.ranked != [] ==> a.outcome == b.outcome)
  {
    hide Assess, Holders, CandidateSet, FixedExact;
    var xs, ys := AscendingOf(CandidateSet(ids, c, q)), AscendingOf(c.records.Keys);
    CandidatesAreRecords(ids, c, q);
    forall y | y in Elements(ys) - Elements(xs) ensures !Survives(M, c, q, historical, y) {
      OthersDoNotSurvive(M, ids, c, q, historical, y);
    }
    OnlySurvivorsMatter(M, c, q, historical, xs, ys);
  }

  lemma AssessedId(M: Meaning, c: Catalog, q: Query, historical: bool, rec: StateRecord)
    ensures Assess(M, c, q, historical, rec).InScope? ==>
      Assess(M, c, q, historical, rec).candidate.recordId == rec.recordId
  {
    hide RecordFilter, PlacementFilter, FactorsOf, Best, Suitable;
  }

  predicate OfState(c: Catalog, id: u64, state: u64) {
    id in c.records && c.records[id].stateId == state
  }

  /** Something that survives the scan but is not listed separates the two rankings. */
  lemma MissedSurvivor(M: Meaning, c: Catalog, q: Query, historical: bool, xs: seq<u64>, ys: seq<u64>, id: u64)
    requires Keyed(c) && Ascending(xs) && Ascending(ys)
    requires id in ys && id !in xs && Survives(M, c, q, historical, id)
    ensures Ranked(Survivors(M, c, q, historical, xs)) != Ranked(Survivors(M, c, q, historical, ys))
  {
    hide Assess, Ranked;
    AssessedId(M, c, q, historical, c.records[id]);
    SurvivorsAll(M, c, q, historical, ys, id);
    RankedInCatalog(M, c, q, historical, ys);
    RankedInCatalog(M, c, q, historical, xs);
    SurvivorsAre(M, c, q, historical, xs);
    SurvivorsAre(M, c, q, historical, ys);
  }

  /** A wildcard query that also names a state still looks only at that state: it agrees with the scan
      exactly when nothing of another state is in scope. */
  lemma WildcardLooksAtOneState(M: Meaning, ids: map<IndexKey, set<u64>>, c: Catalog, q: Query, historical: bool)
    requires Keyed(c) && FixedExact(ids, c) && q.stateId.Some? && q.wildcardStateId
    ensures AskIndexed(M, ids, c, q, historical).ranked == AskByScan(M, c, q, historical).ranked
      <==> forall id :: Survives(M, c, q, historical, id) ==> OfState(c, id, q.stateId.value)
  {
    hide Assess, Holders, FixedExact, Conclude, Ranked, CandidateSet, Survives;
    var xs, ys := AscendingOf(CandidateSet(ids, c, q)), AscendingOf(c.records.Keys);
    NamedStateSet(ids, c, q);
    CandidatesAreRecords(ids, c, q);
    RankedOf(M, c, q, historical, xs);
    RankedOf(M, c, q, historical, ys);
    if forall id :: Survives(M, c, q, historical, id) ==> OfState(c, id, q.stateId.value) {
      forall y | y in Elements(ys) - Elements(xs) ensures !Survives(M, c, q, historical, y) {
        StateHolders(c.records, q.stateId.value, y);
      }
      OnlySurvivorsMatter(M, c, q, historical, xs, ys);
    } else {
      var id :| Survives(M, c, q, historical, id) && !OfState(c, id, q.stateId.value);
      assert id in c.records by { SurvivesInCatalog(M, c, q, historical, id); }
      StateHolders(c.records, q.stateId.value, id);
      assert id in Elements(ys) && id !in Elements(xs);
      MissedSurvivor(M, c, q, historical, xs, ys, id);
    }
  }

  lemma SurvivesInCatalog(M: Meaning, c: Catalog, q: Query, historical: bool, id: u64)
    requires Survives(M, c, q, historical, id)
    ensures id in c.records
  {
    hide Assess;
  }

  lemma NamedStateSet(ids: map<IndexKey, set<u64>>, c: Catalog, q: Query)
    requires FixedExact(ids, c) && q.stateId.Some?
    ensures CandidateSet(ids, c, q) == Holders(c.records, ByState(q.stateId.value))
  {
    hide Holders;
  }

  lemma RankedOf(M: Meaning, c: Catalog, q: Query, historical: bool, ids: seq<u64>)
    requires Keyed(c) && Ascending(ids)
    ensures Ask(M, c, q, historical, ids).ranked == Ranked(Survivors(M, c, q, historical, ids))
    ensures Ask(M, c, q, historical, ids).eliminated == Losers(M, c, q, historical, ids)
  {
    hide Assess, Ranked;
  }
}
