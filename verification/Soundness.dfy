/** Who is found, stated without the order of the filters, and what a current query can return. */
module Soundness {
  import opened Basics
  import opened Model
  import opened Transitions
  import opened Sorting
  import opened Queries
  import opened Places
  import opened Planner
  import opened Answers

  // -------- In scope, declaratively --------

  predicate IdentityAccepted(q: Query, rec: StateRecord) {
    && (q.kind.Some? ==> rec.descriptor.kind == q.kind.value)
    && (q.namespaceId.Some? ==> rec.descriptor.namespaceId == q.namespaceId.value)
    && (q.ownerId.Some? ==> rec.descriptor.ownerId == q.ownerId.value)
    && (q.producerId.Some? ==> rec.descriptor.producerId == q.producerId.value)
    && (q.stateId.Some? && !q.wildcardStateId ==> rec.stateId == q.stateId.value)
    && (q.contentDigest != [] ==> rec.descriptor.contentDigest == q.contentDigest)
  }

  /** A tombstone in force for the state with a floor at or above the record's generation. */
  predicate Buried(c: Catalog, rec: StateRecord) {
    && rec.stateId in c.tombstones && c.tombstones[rec.stateId].current
    && 0 < rec.stateGeneration <= c.tombstones[rec.stateId].floorGeneration
  }

  predicate Alive(c: Catalog, q: Query, historical: bool, rec: StateRecord) {
    && !Buried(c, rec) && rec.lifecycle != INVALIDATED && rec.lifecycle != TOMBSTONED
    && (historical || q.includeInvalidated
        || rec.lifecycle !in {SUPERSEDED, RETIRED, MISSING, FAILED})
  }

  predicate GenerationAccepted(c: Catalog, q: Query, historical: bool, rec: StateRecord) {
    var g := rec.stateGeneration;
    && (q.generationRule == RULE_CURRENT && !historical ==>
          rec.stateId in c.current && c.current[rec.stateId] == rec.recordId)
    && (q.generationRule == RULE_MINIMUM && q.minimumGeneration.Some? ==> g >= q.minimumGeneration.value)
    && (q.generationRule == RULE_EXACT && q.exactGeneration.Some? ==> g == q.exactGeneration.value)
    && (q.generationRule == RULE_AS_OF && q.asOfGeneration.Some? ==> g <= q.asOfGeneration.value)
  }

  /** The outcomes that meet a requirement; a requirement code out of range is met by none. */
  function MeetingOutcomes(requirement: u8): set<u8> {
    if requirement == REQUIRE_EXACT then {OUTCOME_EXACT}
    else if requirement == REQUIRE_COMPATIBLE then {OUTCOME_EXACT, OUTCOME_COMPATIBLE}
    else if requirement == REQUIRE_WITH_ADAPTATION then {OUTCOME_EXACT, OUTCOME_COMPATIBLE, OUTCOME_WITH_ADAPTATION}
    else {}
  }

  predicate Compatible(q: Query, rec: StateRecord) {
    q.compatibility != REQUIRE_NONE ==>
      && rec.descriptor.compatibility.Some?
      && rec.descriptor.compatibility.value.outcome in MeetingOutcomes(q.compatibility)
  }

  /** The state has a current record, of this generation or a later one. */
  predicate Reaches(c: Catalog, state: u64, generation: u64) {
    && state in c.current && c.current[state] in c.records
    && generation <= c.records[c.current[state]].stateGeneration
  }

  predicate Targets(ds: seq<DependencyRef>, state: u64) {
    exists i :: 0 <= i < |ds| && ds[i].targetState == state
  }

  /** Each requirement's target is current at the asked generation if the record depends on it, and a
      required target is depended on. */
  predicate RequirementsMet(c: Catalog, q: Query, rec: StateRecord) {
    forall r :: r in q.dependencyRequirements ==>
      && (Targets(rec.descriptor.dependencies, r.targetState) ==> Reaches(c, r.targetState, r.minimumGeneration))
      && (r.required ==> Targets(rec.descriptor.dependencies, r.targetState))
  }

  /** The target has a current record at the required generation that is not withdrawn. */
  predicate TargetInOrder(c: Catalog, d: DependencyRef) {
    && Reaches(c, d.targetState, d.requiredGeneration)
    && c.records[c.current[d.targetState]].lifecycle !in {INVALIDATED, TOMBSTONED}
  }

  predicate DependenciesMet(c: Catalog, rec: StateRecord) {
    forall d :: d in rec.descriptor.dependencies && d.required ==> TargetInOrder(c, d)
  }

  predicate RecordAccepted(c: Catalog, q: Query, historical: bool, rec: StateRecord) {
    && IdentityAccepted(q, rec) && Alive(c, q, historical, rec) && GenerationAccepted(c, q, historical, rec)
    && Compatible(q, rec) && RequirementsMet(c, q, rec) && DependenciesMet(c, rec)
  }

  lemma SameLookup(c: Catalog, ds: seq<DependencyRef>, state: u64, generation: u64)
    ensures AtLeast(c, state, generation) <==> Reaches(c, state, generation)
    ensures DependsOn(ds, state) <==> Targets(ds, state)
  {
    if Targets(ds, state) {
      var i :| 0 <= i < |ds| && ds[i].targetState == state;
      assert ds[i] in ds;
    }
  }

  lemma DependenciesMeaning(c: Catalog, rec: StateRecord)
    ensures DependenciesSatisfied(c, rec.descriptor.dependencies) <==> DependenciesMet(c, rec)
  {
    hide DependencySatisfied, TargetInOrder;
    forall d ensures DependencySatisfied(c, d) <==> (d.required ==> TargetInOrder(c, d)) {
      DependencyMeaning(c, d);
    }
  }

  lemma DependencyMeaning(c: Catalog, d: DependencyRef)
    ensures DependencySatisfied(c, d) <==> (d.required ==> TargetInOrder(c, d))
  {
  }

  lemma {:induction false} RequirementsFilterMeaning(c: Catalog, ds: seq<DependencyRef>,
                                                     reqs: seq<DependencyRequirement>)
    ensures RequirementsFilter(c, ds, reqs).None? <==>
      forall r :: r in reqs ==>
        && (Targets(ds, r.targetState) ==> Reaches(c, r.targetState, r.minimumGeneration))
        && (r.required ==> Targets(ds, r.targetState))
    decreases |reqs|
  {
    hide DependsOn, AtLeast, Targets, Reaches;
    if reqs != [] {
      SameLookup(c, ds, reqs[0].targetState, reqs[0].minimumGeneration);
      RequirementsFilterMeaning(c, ds, reqs[1..]);
      assert reqs == [reqs[0]] + reqs[1..];
    }
  }

  lemma LifecycleMeaning(c: Catalog, q: Query, historical: bool, rec: StateRecord)
    ensures LifecycleFilter(c, q, historical, rec).None? <==> Alive(c, q, historical, rec)
  {
  }

  /** The record filters together accept exactly the records that meet every condition. */
  lemma RecordFilterMeaning(c: Catalog, q: Query, historical: bool, rec: StateRecord)
    ensures RecordFilter(c, q, historical, rec).None? <==> RecordAccepted(c, q, historical, rec)
  {
    hide RequirementsMet, DependenciesMet, DependenciesSatisfied, LifecycleFilter, Alive, RequirementsFilter;
    LifecycleMeaning(c, q, historical, rec);
    RequirementsFilterMeaning(c, rec.descriptor.dependencies, q.dependencyRequirements);
    RequirementsMean(c, q, rec);
    DependenciesMeaning(c, rec);
  }

  lemma RequirementsMean(c: Catalog, q: Query, rec: StateRecord)
    ensures RequirementsFilter(c, rec.descriptor.dependencies, q.dependencyRequirements).None?
      <==> RequirementsMet(c, q, rec)
  {
    hide Targets, Reaches;
    RequirementsFilterMeaning(c, rec.descriptor.dependencies, q.dependencyRequirements);
  }

  // -------- In scope --------

  /** Every candidate found meets every condition of the query, and offers the first placement of the
      highest rank among the usable locations that meet the constraints. */
  lemma FoundIsSound(M: Meaning, c: Catalog, q: Query, historical: bool, rec: StateRecord)
    requires Assess(M, c, q, historical, rec).InScope?
    ensures RecordAccepted(c, q, historical, rec) && PlacementAccepted(M, q, rec)
    ensures var x := Assess(M, c, q, historical, rec).candidate;
      && x.recordId == rec.recordId && x.generation == rec.stateGeneration
      && exists i: nat :: IsChosen(M, q, rec.locations, i) && rec.locations[i].placementId == x.placement
                          && x.factors == FactorsOf(M, q, rec, rec.locations[i])
  {
    hide RecordFilter, RecordAccepted, FactorsOf, Best, Suitable, PlacementFilter, IsChosen, HasPlacement, HealthMet,
         FreshnessMet, ReplicasMet, CostMet;
    RecordFilterMeaning(c, q, historical, rec);
    PlacementFilterMeaning(M, q, rec);
    SomeSuitable(M, q, rec);
    var i := BestIsBest(M, q, rec.locations);
  }

  lemma SomeSuitable(M: Meaning, q: Query, rec: StateRecord)
    requires PlacementFilter(M, q, rec, Suitable(q, rec.locations)).None?
    ensures Suitable(q, rec.locations) != []
  {
  }

  /** And nothing that meets them is left out. */
  lemma FoundIsComplete(M: Meaning, c: Catalog, q: Query, historical: bool, rec: StateRecord)
    ensures Assess(M, c, q, historical, rec).InScope? <==>
      RecordAccepted(c, q, historical, rec) && PlacementAccepted(M, q, rec)
  {
    hide RecordFilter, RecordAccepted, FactorsOf, Best, Suitable, PlacementFilter, HasPlacement, HealthMet,
         FreshnessMet, ReplicasMet, CostMet;
    RecordFilterMeaning(c, q, historical, rec);
    PlacementFilterMeaning(M, q, rec);
  }

  // -------- Current queries --------

  /** A query for current records finds at most one record of any state, and that one is current. */
  lemma OneCurrentPerState(M: Meaning, c: Catalog, q: Query, x: Candidate, y: Candidate, ids: seq<u64>)
    requires Keyed(c) && Ascending(ids) && q.generationRule == RULE_CURRENT
    requires x in Survivors(M, c, q, false, ids) && y in Survivors(M, c, q, false, ids)
    ensures x.recordId in c.records && IsCurrent(c.current, c.records[x.recordId])
    ensures y.recordId in c.records
    ensures c.records[x.recordId].stateId == c.records[y.recordId].stateId ==> x == y
  {
    hide Assess, RecordFilter, Survivors, PlacementAccepted;
    SurvivorsAre(M, c, q, false, ids);
    FoundIsSound(M, c, q, false, c.records[x.recordId]);
    FoundIsSound(M, c, q, false, c.records[y.recordId]);
  }

  /** For an exact identity it never answers that several were found: it finds the current record of the
      state or nothing. */
  lemma ExactCurrentFindsOne(M: Meaning, c: Catalog, q: Query, ids: seq<u64>)
    requires Keyed(c) && Ascending(ids) && q.generationRule == RULE_CURRENT && q.ExactIdentity()
    ensures var a := Ask(M, c, q, false, ids);
      && a.outcome != FoundMultiple && |a.ranked| <= 1
      && (a.selected.Some? ==>
            && a.selected.value.stateId == q.stateId.value
            && q.stateId.value in c.current && a.selected.value.recordId == c.current[q.stateId.value])
  {
    hide Assess, Survivors, Losers, Saw, Ranked;
    var cs := Survivors(M, c, q, false, ids);
    SurvivorsAre(M, c, q, false, ids);
    RankedInCatalog(M, c, q, false, ids);
    forall x | x in cs ensures x.recordId in c.records && c.records[x.recordId].stateId == q.stateId.value {
      FoundIsSound(M, c, q, false, c.records[x.recordId]);
    }
    assert |cs| > 1 ==> cs[0].recordId != cs[1].recordId;
    if |cs| > 1 {
      OneCurrentPerState(M, c, q, cs[0], cs[1], ids);
    }
    if |cs| == 1 {
      var x := Ranked(cs)[0];
      assert x in Ranked(cs);
      OneCurrentPerState(M, c, q, x, x, ids);
      assert c.records[x.recordId].recordId == x.recordId;
    }
  }

  /** Evidence is never made up: whatever is found under a compatibility requirement carries an outcome
      that is known and meets it, and an exact find of a digest carries that digest. */
  lemma FoundHasEvidence(M: Meaning, c: Catalog, q: Query, historical: bool, ids: seq<u64>)
    requires Keyed(c) && Ascending(ids)
    ensures var a := Ask(M, c, q, historical, ids);
      && (a.outcome in {FoundExact, FoundCompatible, FoundMultiple} <==> a.ranked != [])
      && (forall x :: x in a.ranked ==> x.recordId in c.records && Compatible(q, c.records[x.recordId]))
      && (a.outcome == FoundExact ==>
            && a.selected.Some? && a.selected.value.recordId in c.records
            && MatchesExactly(q, c.records[a.selected.value.recordId]))
  {
    hide Assess, Survivors, Losers, Ranked;
    var a := Ask(M, c, q, historical, ids);
    RankedInCatalog(M, c, q, historical, ids);
    SurvivorsAre(M, c, q, historical, ids);
    forall x | x in a.ranked ensures x.recordId in c.records && Compatible(q, c.records[x.recordId]) {
      FoundIsSound(M, c, q, historical, c.records[x.recordId]);
    }
    if a.ranked != [] {
      assert a.ranked[0] in a.ranked;
    }
  }
}
