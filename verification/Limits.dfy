/** Where the engine does less than its documentation says. */
module Limits {
  import opened Basics
  import opened Model
  import opened Authority
  import opened Transitions
  import opened Invariants
  import opened Retirement
  import opened Runs
  import opened Samples

  /** Publications never look at the invalidations. */
  lemma PublicationIgnoresInvalidations(D: Digest, s: EngineState, invs: seq<InvalidationRecord>, rec: StateRecord,
                                        env: Envelope)
    ensures Publishes(D, s.(invalidations := invs), rec, env) == Publishes(D, s, rec, env)
  {
  }

  /** Nothing of the state was current and no record of it was left to mark: the invalidation is recorded and
      the registry keeps whatever holder it has. */
  predicate FindsNothing(s: EngineState, inv: InvalidationRecord) {
    InvalidationTargets(s, inv.stateId, inv.boundGeneration) == {} && FindState(s, inv.stateId).None?
  }

  /** What the registry may still hold against a publication after the invalidation. */
  predicate HolderAllows(s: EngineState, inv: InvalidationRecord, rec: StateRecord, env: Envelope) {
    FindsNothing(s, inv) && rec.stateId in s.authority.holders
    && (env.workerBoot == s.authority.holders[rec.stateId].boot
        || s.authority.holders[rec.stateId].boot in s.authority.live)
    ==> rec.stateGeneration > s.authority.holders[rec.stateId].generation
  }

  lemma InvalidationAuthority(D: Digest, s: EngineState, inv: InvalidationRecord, env: Envelope)
    requires Inv(D, s) && Invalidates(s, inv, env)
    ensures var t := Invalidate(D, s, inv, env, None).state;
      && t.authority == (if FindsNothing(s, inv) then s.authority else s.authority.ClearHolder(inv.stateId))
      && t.records.Keys == s.records.Keys && t.tombstones == s.tombstones && inv.stateId !in t.current
  {
    hide Shape, IsBatchCurrent, InvalidationTargets, MarkAll, CheckAuthority, TouchHistory;
    InvalidateEffect(D, s, inv, env);
  }

  /** What it takes to publish for a state right after it was invalidated. The bound plays no part: a
      generation at or below it that was never registered comes back as the current one. */
  lemma ReAddAfterInvalidation(D: Digest, s: EngineState, inv: InvalidationRecord, env: Envelope, rec: StateRecord,
                               re: Envelope)
    requires Inv(D, s) && Invalidates(s, inv, env) && rec.stateId == inv.stateId
    ensures
      var t := Invalidate(D, s, inv, env, None).state;
      && (Publishes(D, t, rec, re) <==>
            && re.coordinatorEpoch == s.authority.epoch && re.workerBoot in s.authority.live
            && rec.stateGeneration != 0 && rec.recordId !in s.records
            && (rec.stateId in s.authority.floors ==> rec.stateGeneration > s.authority.floors[rec.stateId])
            && !Tombstoned(s.tombstones, rec.stateId, rec.stateGeneration) && HolderAllows(s, inv, rec, re))
      && (Publishes(D, t, rec, re) ==>
            var u := RegisterState(D, t, rec, re).state;
            rec.stateId in u.current && u.current[rec.stateId] == rec.recordId)
  {
    hide Inv, Shape, IsBatchCurrent, Invalidate, FindsNothing, Tombstoned;
    InvalidationAuthority(D, s, inv, env);
  }

  // -------- A concrete run --------

  const NINE := InvalidationRecord(0, 1, STATE, 9, 0, 0, 0, 0, 0, 0, 0, 0, [], 0, 0, true)

  function WithNine(D: Digest): EngineState {
    Invalidate(D, WithOne(D), NINE, TOKENS, None).state
  }

  lemma NineAccepted(D: Digest)
    ensures Invalidates(WithOne(D), NINE, TOKENS) && !FindsNothing(WithOne(D), NINE)
  {
    hide WithOne, InvalidationTargets;
    PublishedOne(D);
  }

  lemma NineInvalidated(D: Digest)
    requires IgnoresUnhashed(D) && Inv(D, WithOne(D))
    ensures Invalidates(WithOne(D), NINE, TOKENS) && Step(D, WithOne(D), InvalidateOp(NINE, TOKENS), WithNine(D))
    ensures var s := WithNine(D);
      && s.current == map[] && s.records.Keys == {100} && s.tombstones == map[]
      && s.authority == Registry(1, map[BOOT := WORKER], map[], map[])
  {
    hide WithOne, Shape, IsBatchCurrent, Invalidate, MarkAll, InvalidationMarked, InvalidationTargets,
         IsBestPromotable, FindsNothing, Invalidates, DigestsMatch, CounterCovers;
    PublishedOne(D);
    NineAccepted(D);
    InvalidateEffect(D, WithOne(D), NINE, TOKENS);
    InvalidationAuthority(D, WithOne(D), NINE, TOKENS);
    NoneIsBest(D, WithOne(D), NINE, TOKENS);
  }

  lemma ThreePublished(D: Digest)
    requires IgnoresUnhashed(D) && Inv(D, WithOne(D))
    ensures Publishes(D, WithNine(D), Sample(101, STATE, 3), TOKENS)
    ensures var s := RegisterState(D, WithNine(D), Sample(101, STATE, 3), TOKENS).state;
      STATE in s.current && s.current[STATE] == 101
  {
    hide WithNine, WithOne, IgnoresUnhashed, Inv, CountPublished;
    NineInvalidated(D);
  }

  /** Generation 5 is published, everything through generation 9 is invalidated, and then generation 3,
      never seen before, is published and becomes current. */
  lemma StaleReAddHappens(D: Digest) returns (ss: seq<EngineState>, ops: seq<Op>)
    requires IgnoresUnhashed(D)
    ensures IsRun(D, ss, ops) && |ss| == 5 && |ops| == 4
    ensures ops[2] == InvalidateOp(NINE, TOKENS) && Invalidates(ss[2], NINE, TOKENS) && ss[3].current == map[]
    ensures ops[3] == RegisterStateOp(Sample(101, STATE, 3), TOKENS) && Publishes(D, ss[3], ops[3].rec, TOKENS)
    ensures STATE in ss[4].current && ss[4].current[STATE] == 101
  {
    hide IsRun, WithOne, WithNine, RegisterState, Inv, Publishes, Invalidates, IgnoresUnhashed;
    ss, ops := RunToOne(D);
    RunLength(D, ss, ops);
    ReachableInv(D, ss, ops, 2);
    NineInvalidated(D);
    ThreePublished(D);
    var invalidate, publish := InvalidateOp(NINE, TOKENS), RegisterStateOp(Sample(101, STATE, 3), TOKENS);
    OneMoreStep(D, ss, ops, invalidate, WithNine(D));
    ss, ops := ss + [WithNine(D)], ops + [invalidate];
    var t := RegisterState(D, WithNine(D), Sample(101, STATE, 3), TOKENS).state;
    OneMoreStep(D, ss, ops, publish, t);
    ss, ops := ss + [t], ops + [publish];
  }
}
