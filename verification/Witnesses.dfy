/** Inputs that an engine can receive and for which a property fails: each is a run from a fresh engine. */
module Witnesses {
  import opened Basics
  import opened Model
  import opened Authority
  import opened Transitions
  import opened Invariants
  import opened Retirement
  import opened Runs
  import opened Indexes
  import opened Sorting
  import opened IndexRuns
  import opened Queries
  import opened QueryCodec
  import opened Places
  import opened Planner
  import opened Answers
  import opened Soundness
  import opened Outcomes
  import opened AnswersAlongRuns
  import opened Samples

  // -------- Two states, one placement --------

  const SECOND := Sample(101, OTHER_STATE, 5)

  /** A second state published with a place of the same placement id. */
  function WithTwo(D: Digest): EngineState {
    RegisterState(D, WithOne(D), SECOND, TOKENS).state
  }

  lemma PublishedTwo(D: Digest)
    ensures Publishes(D, WithOne(D), SECOND, TOKENS)
    ensures var s := WithTwo(D);
      && s.records == map[100 := Published(D, Sample(100, STATE, 5), TOKENS), 101 := Published(D, SECOND, TOKENS)]
      && s.current == map[STATE := 100, OTHER_STATE := 101] && s.tombstones == map[]
  {
    hide WithOne, CountPublished;
    PublishedOne(D);
  }

  lemma RunToTwo(D: Digest) returns (ss: seq<EngineState>, ops: seq<Op>)
    ensures IsRun(D, ss, ops) && |ops| == 3 && |ss| == 4 && ss[3] == WithTwo(D)
  {
    hide IsRun, WithOne, RegisterState;
    ss, ops := RunToOne(D);
    var op := RegisterStateOp(SECOND, TOKENS);
    OneMoreStep(D, ss, ops, op, WithTwo(D));
    ss, ops := ss + [WithTwo(D)], ops + [op];
    RunLength(D, ss, ops);
  }

  /** The index check complains after a run in which every call is accepted: two records hold one placement. */
  lemma VerifyComplainsOfSharedPlacement(D: Digest) returns (ss: seq<EngineState>, ops: seq<Op>, vs: seq<IndexView>)
    requires IgnoresUnhashed(D)
    ensures IsIndexedRun(D, ss, ops, vs) && |ss| == |vs| == 4
    ensures !UniquePlacements(ss[3].records) && !Verified(vs[3], ss[3].records)
  {
    hide *;
    ss, ops := RunToTwo(D);
    vs := EveryRunIsIndexed(D, ss, ops);
    RunSizes(D, ss, ops, vs);
    SharedPlacement(D);
    if Verified(vs[3], ss[3].records) {
      VerifiedOwners(vs[3], ss[3].records);
      MatchedOwnersAreUnique(vs[3], ss[3].records);
    }
  }

  lemma VerifiedOwners(v: IndexView, records: map<u64, StateRecord>)
    requires Verified(v, records)
    ensures OwnersMatch(v, records)
  {
  }

  lemma SharedPlacement(D: Digest)
    ensures !UniquePlacements(WithTwo(D).records)
  {
    hide WithTwo;
    PublishedTwo(D);
    var records := WithTwo(D).records;
    assert PLACE in records[100].locations && PLACE in records[101].locations;
    assert HeldBy(records, 100, PLACEMENT) && HeldBy(records, 101, PLACEMENT);
  }

  // -------- A wildcard beside a state id --------

  const WILD := BLANK_QUERY.(stateId := Some(STATE), wildcardStateId := true)

  lemma SecondRecord(D: Digest)
    ensures var c := CatalogOf(WithTwo(D));
      && 101 in c.records && c.records[101].recordId == 101 && c.records[101].stateId == OTHER_STATE
      && c.records[101].lifecycle == AVAILABLE && c.records[101].locations == [PLACE]
      && c.records[101].descriptor.dependencies == [] && IsCurrent(c.current, c.records[101]) && c.tombstones == map[]
  {
    hide WithTwo;
    PublishedTwo(D);
  }

  lemma SecondAccepted(D: Digest, M: Meaning)
    ensures var c := CatalogOf(WithTwo(D));
      101 in c.records && RecordAccepted(c, WILD, false, c.records[101]) && PlacementAccepted(M, WILD, c.records[101])
  {
    hide WithTwo;
    SecondRecord(D);
    assert PLACE in [PLACE] && Offers(WILD, PLACE);
  }

  lemma SecondSurvives(D: Digest, M: Meaning)
    ensures Survives(M, CatalogOf(WithTwo(D)), WILD, false, 101)
  {
    hide WithTwo, CatalogOf, Assess, RecordAccepted, PlacementAccepted;
    SecondAccepted(D, M);
    FoundIsComplete(M, CatalogOf(WithTwo(D)), WILD, false, CatalogOf(WithTwo(D)).records[101]);
  }

  /** A query for any state that also names state 42 misses the record of state 43, which a scan finds. */
  lemma WildcardMissesOtherStates(D: Digest, M: Meaning)
    returns (ss: seq<EngineState>, ops: seq<Op>, vs: seq<IndexView>)
    requires IgnoresUnhashed(D)
    ensures IsIndexedRun(D, ss, ops, vs) && |ss| == |vs| == 4 && Keyed(CatalogOf(ss[3]))
    ensures AskIndexed(M, vs[3].ids, CatalogOf(ss[3]), WILD, false).ranked
         != AskByScan(M, CatalogOf(ss[3]), WILD, false).ranked
  {
    hide *;
    ss, ops := RunToTwo(D);
    vs := EveryRunIsIndexed(D, ss, ops);
    RunSizes(D, ss, ops, vs);
    RunCatalog(D, ss, ops, vs, 3);
    SecondSurvives(D, M);
    SecondIsElsewhere(D);
    WildcardLooksAtOneState(M, vs[3].ids, CatalogOf(ss[3]), WILD, false);
  }

  lemma SecondIsElsewhere(D: Digest)
    ensures !OfState(CatalogOf(WithTwo(D)), 101, WILD.stateId.value) && WILD.stateId == Some(STATE)
      && WILD.wildcardStateId
  {
    hide WithTwo;
    SecondRecord(D);
  }

  // -------- Publications and tombstones that break the batch rule --------

  const DEAD_ON_ARRIVAL := Sample(101, STATE, 6).(lifecycle := SUPERSEDED)

  /** A record published as SUPERSEDED is accepted and becomes current. */
  lemma SupersededPublicationBecomesCurrent(D: Digest) returns (ss: seq<EngineState>, ops: seq<Op>)
    requires IgnoresUnhashed(D)
    ensures IsRun(D, ss, ops) && |ss| == 3
    ensures var o := RegisterState(D, ss[2], DEAD_ON_ARRIVAL, TOKENS);
      && o.verdict == Accepted && STATE in o.state.current && o.state.current[STATE] == 101
      && !CurrentIsBatch(o.state) && !Inv(D, o.state)
  {
    hide IsRun, WithOne, IsBatchCurrent, RegisterState, IgnoresUnhashed;
    ss, ops := RunToOne(D);
    RunLength(D, ss, ops);
    ReachableInv(D, ss, ops, 2);
    DeadPublished(D);
    RegisterEffect(D, WithOne(D), DEAD_ON_ARRIVAL, TOKENS);
    RegisterKeepsBatch(D, WithOne(D), DEAD_ON_ARRIVAL, TOKENS);
  }

  lemma DeadPublished(D: Digest)
    ensures Publishes(D, WithOne(D), DEAD_ON_ARRIVAL, TOKENS) && BecomesCurrent(WithOne(D), DEAD_ON_ARRIVAL)
  {
    hide WithOne;
    PublishedOne(D);
  }

  const IDLE := TombstoneRecord(1, STATE, 5, 0, 0, [], 0, 0, false)

  /** A tombstone that is not marked current is accepted, buries the current record and leaves it current. */
  lemma IdleTombstoneLeavesBuriedCurrent(D: Digest) returns (ss: seq<EngineState>, ops: seq<Op>)
    requires IgnoresUnhashed(D)
    ensures IsRun(D, ss, ops) && |ss| == 3
    ensures var o := Tombstone(D, ss[2], IDLE, TOKENS);
      && o.verdict == Accepted && STATE in o.state.current && o.state.current[STATE] in o.state.records
      && o.state.records[o.state.current[STATE]].lifecycle == TOMBSTONED
      && !CurrentIsBatch(o.state) && !Inv(D, o.state)
  {
    hide IsRun, WithOne, IsBatchCurrent, Tombstone, IgnoresUnhashed, MarkAll, TombstoneTargets;
    ss, ops := RunToOne(D);
    RunLength(D, ss, ops);
    ReachableInv(D, ss, ops, 2);
    IdleAccepted(D);
    TombstoneEffect(D, WithOne(D), IDLE, TOKENS);
    TombstonedRecord(D, WithOne(D), IDLE, TOKENS, 100);
    TombstoneKeepsBatch(D, WithOne(D), IDLE, TOKENS);
  }

  lemma IdleAccepted(D: Digest)
    ensures Tombstones(WithOne(D), IDLE, TOKENS) && CurrentCovered(WithOne(D), IDLE)
    ensures Tombstone(D, WithOne(D), IDLE, TOKENS).verdict == Accepted
    ensures WithOne(D).current == map[STATE := 100] && 100 in WithOne(D).records
    ensures WithOne(D).records[100].stateId == STATE && WithOne(D).records[100].stateGeneration == 5
  {
    hide WithOne, MarkAll, TombstoneTargets;
    PublishedOne(D);
  }

  // -------- Outcomes named "only" --------

  const FIVE := IDLE.(current := true)

  /** Generation 5 buried. */
  function WithGrave(D: Digest): EngineState {
    Tombstone(D, WithOne(D), FIVE, TOKENS).state
  }

  const NEXT := Sample(101, STATE, 6).(descriptor := PLAIN.(namespaceId := 2, compatibility := Some(REFUSED)))

  /** And generation 6 published after it, in another namespace and known to be incompatible. */
  function WithNext(D: Digest): EngineState {
    RegisterState(D, WithGrave(D), NEXT, TOKENS).state
  }

  lemma Grave(D: Digest)
    ensures var s := WithGrave(D);
      && s.records.Keys == {100} && s.records[100].descriptor == Published(D, Sample(100, STATE, 5), TOKENS).descriptor
      && s.records[100].stateId == STATE && s.records[100].stateGeneration == 5
      && s.records[100].lifecycle == TOMBSTONED
      && s.current == map[] && STATE in s.tombstones && s.tombstones[STATE].floorGeneration == 5
      && s.tombstones[STATE].current && s.authority == Registry(1, map[BOOT := WORKER], map[STATE := 5], map[])
  {
    hide WithOne;
    PublishedOne(D);
  }

  lemma NextPublished(D: Digest)
    ensures Publishes(D, WithGrave(D), NEXT, TOKENS)
    ensures var s := WithNext(D);
      && s.records == WithGrave(D).records[101 := Published(D, NEXT, TOKENS)] && s.current == map[STATE := 101]
      && s.tombstones == WithGrave(D).tombstones
  {
    hide WithGrave, CountPublished;
    Grave(D);
  }

  lemma RunToNext(D: Digest) returns (ss: seq<EngineState>, ops: seq<Op>)
    ensures IsRun(D, ss, ops) && |ops| == 4 && |ss| == 5 && ss[4] == WithNext(D)
  {
    hide IsRun, WithOne, RegisterState, Tombstone;
    ss, ops := RunToOne(D);
    RunLength(D, ss, ops);
    var bury := TombstoneOp(FIVE, TOKENS);
    OneMoreStep(D, ss, ops, bury, WithGrave(D));
    ss, ops := ss + [WithGrave(D)], ops + [bury];
    var publish := RegisterStateOp(NEXT, TOKENS);
    OneMoreStep(D, ss, ops, publish, WithNext(D));
    ss, ops := ss + [WithNext(D)], ops + [publish];
  }

  /** What queries read of the two records. */
  lemma BuriedAndNext(D: Digest)
    ensures var c := CatalogOf(WithNext(D));
      && c.records.Keys == {100, 101} && Tombstoned(c.tombstones, STATE, 5) && !Tombstoned(c.tombstones, STATE, 6)
      && IsCurrent(c.current, c.records[101])
      && c.records[100].stateId == c.records[101].stateId == STATE
      && c.records[100].stateGeneration == 5 && c.records[101].stateGeneration == 6
      && c.records[100].descriptor.namespaceId == 1 && c.records[101].descriptor.namespaceId == 2
      && c.records[101].lifecycle == AVAILABLE && c.records[101].descriptor.compatibility == Some(REFUSED)
  {
    hide WithNext, WithGrave;
    Grave(D);
    NextPublished(D);
  }

  const EXACT := BLANK_QUERY.(stateId := Some(STATE), compatibility := REQUIRE_EXACT)
  const FOREIGN := EXACT.(namespaceId := Some(2))
  const LATE := BLANK_QUERY.(stateId := Some(STATE), generationRule := RULE_MINIMUM, minimumGeneration := Some(10))

  lemma Categories(D: Digest, M: Meaning)
    ensures var c := CatalogOf(WithNext(D));
      && 100 in c.records && 101 in c.records
      && FallsUnder(M, c, EXACT, false, c.records[100], Inval)
      && FallsUnder(M, c, EXACT, false, c.records[101], Incompat)
      && FallsUnder(M, c, FOREIGN, false, c.records[100], Other)
      && FallsUnder(M, c, FOREIGN, false, c.records[101], Incompat)
      && FallsUnder(M, c, LATE, false, c.records[100], Inval) && FallsUnder(M, c, LATE, false, c.records[101], Stale)
  {
    hide WithNext, RequirementsMet, DependenciesMet, PlacementAccepted, HasPlacement, HealthMet, FreshnessMet,
         ReplicasMet, CostMet;
    BuriedAndNext(D);
  }

  /** Two listed records: what is seen is what they fall under. */
  lemma TwoSeen(M: Meaning, c: Catalog, q: Query, ids: seq<u64>, i: Category, j: Category)
    requires 100 in c.records && 101 in c.records && forall id :: id in ids <==> id == 100 || id == 101
    requires FallsUnder(M, c, q, false, c.records[100], i) && FallsUnder(M, c, q, false, c.records[101], j)
    ensures NothingMeetsQuery(M, c, q, false, ids) && !NothingLookedAt(c, ids)
    ensures forall k :: Seen(M, c, q, false, ids, k) <==> k == i || k == j
  {
    hide FallsUnder, MeetsQuery;
    FallsNowhereElse(M, c, q, false, c.records[100], i);
    FallsNowhereElse(M, c, q, false, c.records[101], j);
    assert 100 in ids && 101 in ids;
  }

  lemma ListsBoth(D: Digest, ids: map<IndexKey, set<u64>>, q: Query)
    requires FixedExact(ids, CatalogOf(WithNext(D))) && q.stateId == Some(STATE)
    ensures forall id :: id in AscendingOf(CandidateSet(ids, CatalogOf(WithNext(D)), q)) <==> id == 100 || id == 101
  {
    hide WithNext, Holders, FixedExact, CandidateSet, AscendingOf;
    var c := CatalogOf(WithNext(D));
    BuriedAndNext(D);
    NamedStateSet(ids, c, q);
    StateHolders(c.records, STATE, 100);
    StateHolders(c.records, STATE, 101);
    var list := AscendingOf(CandidateSet(ids, c, q));
    forall id ensures id in list <==> id == 100 || id == 101 {
      assert id in list <==> id in Elements(list);
      StateHolders(c.records, STATE, id);
    }
  }

  /** Outcomes named "only" with more than one category present, and NOT_FOUND although records of the state
      were looked at. */
  ghost predicate MixedOutcomes(M: Meaning, c: Catalog, ids: map<IndexKey, set<u64>>)
    requires Keyed(c)
  {
    && AskIndexed(M, ids, c, LATE, false).outcome == StaleOnly
    && Seen(M, c, LATE, false, AscendingOf(CandidateSet(ids, c, LATE)), Inval)
    && AskIndexed(M, ids, c, FOREIGN, false).outcome == IncompatibleOnly
    && Seen(M, c, FOREIGN, false, AscendingOf(CandidateSet(ids, c, FOREIGN)), Other)
    && AskIndexed(M, ids, c, EXACT, false).outcome == NotFound
    && !NothingLookedAt(c, AscendingOf(CandidateSet(ids, c, EXACT)))
  }

  lemma MixedAfterNext(D: Digest, M: Meaning, ids: map<IndexKey, set<u64>>)
    requires Keyed(CatalogOf(WithNext(D))) && FixedExact(ids, CatalogOf(WithNext(D)))
    ensures MixedOutcomes(M, CatalogOf(WithNext(D)), ids)
  {
    hide NothingMeetsQuery, Seen, NothingLookedAt, Keyed, FixedExact, WithNext, Ask, CandidateSet, AscendingOf,
         AskIndexed, CatalogOf, FallsUnder, Assess, LATE, FOREIGN, EXACT;
    AskedState();
    Categories(D, M);
    var c := CatalogOf(WithNext(D));
    ListsBoth(D, ids, LATE);
    ListsBoth(D, ids, FOREIGN);
    ListsBoth(D, ids, EXACT);
    var late, foreign, exact := AscendingOf(CandidateSet(ids, c, LATE)), AscendingOf(CandidateSet(ids, c, FOREIGN)),
        AscendingOf(CandidateSet(ids, c, EXACT));
    TwoSeen(M, c, LATE, late, Inval, Stale);
    TwoSeen(M, c, FOREIGN, foreign, Other, Incompat);
    TwoSeen(M, c, EXACT, exact, Inval, Incompat);
    OutcomeMeaning(M, c, LATE, false, late);
    OutcomeMeaning(M, c, FOREIGN, false, foreign);
    OutcomeMeaning(M, c, EXACT, false, exact);
    Indexed(M, ids, c, LATE);
    Indexed(M, ids, c, FOREIGN);
    Indexed(M, ids, c, EXACT);
  }

  lemma AskedState()
    ensures LATE.stateId == FOREIGN.stateId == EXACT.stateId == Some(STATE)
  {
  }

  lemma Indexed(M: Meaning, ids: map<IndexKey, set<u64>>, c: Catalog, q: Query)
    requires Keyed(c)
    ensures AskIndexed(M, ids, c, q, false) == Ask(M, c, q, false, AscendingOf(CandidateSet(ids, c, q)))
  {
    hide Ask, CandidateSet, AscendingOf, Keyed;
  }

  /** After a short run: an "only" outcome does not mean that one category was present alone, and NOT_FOUND
      does not mean that the state has no records. */
  lemma OnlyIsNotAlone(D: Digest, M: Meaning) returns (ss: seq<EngineState>, ops: seq<Op>, vs: seq<IndexView>)
    requires IgnoresUnhashed(D)
    ensures IsIndexedRun(D, ss, ops, vs) && |ss| == |vs| == 5 && Keyed(CatalogOf(ss[4]))
    ensures MixedOutcomes(M, CatalogOf(ss[4]), vs[4].ids)
  {
    hide *;
    ss, ops := RunToNext(D);
    vs := EveryRunIsIndexed(D, ss, ops);
    RunSizes(D, ss, ops, vs);
    RunCatalog(D, ss, ops, vs, 4);
    MixedAfterNext(D, M, vs[4].ids);
  }
}
