/** Whole runs: any sequence of mutations, worker arrivals and departures, and recoveries from a fresh
    engine, and what holds along all of them. */
module Runs {
  import opened Basics
  import opened Model
  import opened Authority
  import opened Transitions
  import opened Recovery
  import opened Invariants
  import opened Retirement

  datatype Op =
    | RegisterWorkerOp(worker: u64, boot: u64)
    | UnregisterWorkerOp(gone: u64)
    | AdvanceEpochOp
    | RegisterStateOp(rec: StateRecord, env: Envelope)
    | AddLocationOp(state: u64, loc: StateLocation, env: Envelope)
    | RemoveLocationOp(state: u64, placement: u64, env: Envelope)
    | InvalidateOp(inv: InvalidationRecord, env: Envelope)
    | TombstoneOp(tomb: TombstoneRecord, env: Envelope)
    // save, then load into an engine with this registry
    | RecoverOp(registry: Registry)

  /** What callers promise: a record published in a terminal lifecycle does not become current, a tombstone
      that is accepted is in force, and an image is saved within the loader's bounds with one record per
      generation. */
  ghost predicate Allowed(s: EngineState, op: Op) {
    match op
    case RegisterStateOp(rec, env) => !rec.Terminal() || !BecomesCurrent(s, rec)
    case TombstoneOp(tomb, env) => Tombstones(s, tomb, env) ==> tomb.current
    case RecoverOp(registry) => UniqueGenerations(s.records) && FitsImage(s)
    case _ => true
  }

  ghost predicate Step(D: Digest, s: EngineState, op: Op, t: EngineState) {
    match op
    case RegisterWorkerOp(worker, boot) => t == s.(authority := s.authority.RegisterWorker(worker, boot))
    case UnregisterWorkerOp(boot) => t == s.(authority := s.authority.UnregisterWorker(boot))
    case AdvanceEpochOp => t == s.(authority := s.authority.AdvanceEpoch())
    case RegisterStateOp(rec, env) => t == RegisterState(D, s, rec, env).state
    case AddLocationOp(state, loc, env) => t == AddLocation(D, s, state, loc, env).state
    case RemoveLocationOp(state, placement, env) => t == RemoveLocation(D, s, state, placement, env).state
    case InvalidateOp(inv, env) =>
      exists best :: IsBestPromotable(InvalidationMarked(D, s, inv, env), inv.stateId, inv.boundGeneration, best)
                     && t == Invalidate(D, s, inv, env, best).state
    case TombstoneOp(tomb, env) => t == Tombstone(D, s, tomb, env).state
    case RecoverOp(registry) => t == Recovered(D, s, registry)
  }

  ghost predicate IsRun(D: Digest, ss: seq<EngineState>, ops: seq<Op>) {
    && |ss| == |ops| + 1
    && ss[0] == FreshEngine(ss[0].authority.epoch)
    && forall i :: 0 <= i < |ops| ==> Allowed(ss[i], ops[i]) && Step(D, ss[i], ops[i], ss[i + 1])
  }

  /** Is this an invalidation of the state that the engine accepts? */
  predicate AcceptsInvalidation(s: EngineState, op: Op, state: u64) {
    op.InvalidateOp? && op.inv.stateId == state && Invalidates(s, op.inv, op.env)
  }

  /** In a state satisfying the invariant an invalidation step is the one that promotes nothing. */
  lemma InvalidationStep(D: Digest, s: EngineState, inv: InvalidationRecord, env: Envelope, t: EngineState)
    requires Shape(s) && CurrentIsBatch(s) && Step(D, s, InvalidateOp(inv, env), t)
    ensures t == Invalidate(D, s, inv, env, None).state
  {
    var best :| IsBestPromotable(InvalidationMarked(D, s, inv, env), inv.stateId, inv.boundGeneration, best)
                && t == Invalidate(D, s, inv, env, best).state;
    if Invalidates(s, inv, env) {
      InvalidationClears(D, s, inv, env, best);
    }
  }

  // -------- The invariant along runs --------

  lemma RegistryAside(D: Digest, s: EngineState, a: Registry)
    requires Inv(D, s)
    ensures Inv(D, s.(authority := a))
  {
    var t := s.(authority := a);
    ShapeReadsLittle(s, t);
    InvOfParts(D, t);
  }

  lemma FreshInv(D: Digest, epoch: u64)
    ensures Inv(D, FreshEngine(epoch))
  {
  }

  lemma StepKeepsInv(D: Digest, s: EngineState, op: Op, t: EngineState)
    requires IgnoresUnhashed(D) && Inv(D, s) && Allowed(s, op) && Step(D, s, op, t)
    ensures Inv(D, t)
  {
    match op {
      case RegisterWorkerOp(worker, boot) => RegistryAside(D, s, t.authority);
      case UnregisterWorkerOp(boot) => RegistryAside(D, s, t.authority);
      case AdvanceEpochOp => RegistryAside(D, s, t.authority);
      case RegisterStateOp(rec, env) => RegisterKeepsInv(D, s, rec, env);
      case AddLocationOp(state, loc, env) => AddLocationKeepsInv(D, s, state, loc, env);
      case RemoveLocationOp(state, placement, env) => RemoveLocationKeepsInv(D, s, state, placement, env);
      case InvalidateOp(inv, env) =>
        InvalidationStep(D, s, inv, env, t);
        InvalidateKeepsInv(D, s, inv, env);
      case TombstoneOp(tomb, env) => TombstoneKeepsInv(D, s, tomb, env);
      case RecoverOp(registry) => RecoverKeepsInv(D, s, registry);
    }
  }

  /** Every reachable state satisfies the invariant: histories are exact, the incrementally kept current
      map obeys the batch rule, digests match, and the location counter covers every location. */
  lemma {:induction false} ReachableInv(D: Digest, ss: seq<EngineState>, ops: seq<Op>, i: nat)
    requires IgnoresUnhashed(D) && IsRun(D, ss, ops) && i < |ss|
    ensures Inv(D, ss[i])
    decreases i
  {
    if i == 0 {
      FreshInv(D, ss[0].authority.epoch);
    } else {
      ReachableInv(D, ss, ops, i - 1);
      StepKeepsInv(D, ss[i - 1], ops[i - 1], ss[i]);
    }
  }

  // -------- Records persist and retirement is final --------

  /** The same record later: same identity and description, and terminal if it was. */
  predicate Evolved(a: StateRecord, b: StateRecord) {
    && b.stateId == a.stateId && b.stateGeneration == a.stateGeneration
    && b.authorityBoot == a.authorityBoot && b.descriptor == a.descriptor
    && (a.Terminal() ==> b.Terminal())
  }

  /** Every record of s is still in t. */
  ghost predicate Evolves(s: EngineState, t: EngineState) {
    forall id :: id in s.records ==> id in t.records && Evolved(s.records[id], t.records[id])
  }

  lemma EvolvesReflexive(s: EngineState)
    ensures Evolves(s, s)
  {
  }

  lemma EvolvesTransitive(s: EngineState, t: EngineState, u: EngineState)
    requires Evolves(s, t) && Evolves(t, u)
    ensures Evolves(s, u)
  {
    forall id | id in s.records ensures id in u.records && Evolved(s.records[id], u.records[id]) {
      assert Evolved(s.records[id], t.records[id]) && Evolved(t.records[id], u.records[id]);
    }
  }

  lemma MarkingEvolves(D: Digest, rec: StateRecord, lifecycle: u8)
    requires lifecycle == SUPERSEDED || lifecycle == INVALIDATED || lifecycle == TOMBSTONED
    ensures Evolved(rec, Marked(D, rec, lifecycle))
  {
  }

  lemma MarkAllEvolves(D: Digest, s: EngineState, t: EngineState, ids: set<u64>, lifecycle: u8)
    requires lifecycle == SUPERSEDED || lifecycle == INVALIDATED || lifecycle == TOMBSTONED
    requires t.records == MarkAll(D, s.records, ids, lifecycle)
    ensures Evolves(s, t)
  {
    forall id | id in s.records ensures Evolved(s.records[id], t.records[id]) {
      MarkingEvolves(D, s.records[id], lifecycle);
    }
  }

  lemma RegisterEvolves(D: Digest, s: EngineState, rec: StateRecord, env: Envelope)
    requires Shape(s) && Publishes(D, s, rec, env)
    ensures Evolves(s, RegisterState(D, s, rec, env).state)
  {
    RegisterEffect(D, s, rec, env);
    if Supersedes(s, rec) {
      MarkingEvolves(D, s.records[s.current[rec.stateId]], SUPERSEDED);
    }
  }

  /** Does a location step change anything? */
  predicate Relocates(s: EngineState, op: Op)
    requires op.AddLocationOp? || op.RemoveLocationOp?
  {
    && CheckAuthority(s, op.env) == Accepted && FindState(s, op.state).Some?
    && if op.AddLocationOp? then !RegressesLocation(FindState(s, op.state).value.locations, op.loc, op.env)
       else CountPlacement(FindState(s, op.state).value.locations, op.placement) > 0
  }

  function LocationsAfter(op: Op, ls: seq<StateLocation>): seq<StateLocation>
    requires op.AddLocationOp? || op.RemoveLocationOp?
  {
    if op.AddLocationOp? then Merged(ls, StampLocation(op.loc, op.env)) else DropPlacement(ls, op.placement)
  }

  /** A location step gives the state's current record its new locations, and only counters change beside it;
      a step that is refused or finds nothing to remove changes nothing. */
  lemma LocationEffect(D: Digest, s: EngineState, op: Op, t: EngineState)
    requires Shape(s) && Step(D, s, op, t) && (op.AddLocationOp? || op.RemoveLocationOp?)
    ensures
      if Relocates(s, op) then
        && op.state in s.current && s.current[op.state] in s.records
        && var rec := s.records[s.current[op.state]];
           var moved := WithLocations(D, rec, LocationsAfter(op, rec.locations));
           var counted :=
             if op.AddLocationOp? then CountMerged(s.accounting, rec.locations, op.loc.placementId)
             else s.accounting.(locations := Decrement(s.accounting.locations));
           t == s.(records := s.records[s.current[op.state] := moved], accounting := counted)
      else t == s
  {
    hide CheckAuthority, RegressesLocation, WithLocations, Merged, CountMerged, DropPlacement, CountPlacement,
         StampLocation, Decrement;
    if op.AddLocationOp? {
      StampKeepsPlacement(op.loc, op.env);
    }
  }

  /** What the new locations are: after an addition exactly the given location is at its placement, after a
      removal none is, and the locations elsewhere stay as they are and in order. */
  lemma LocationsAfterMeaning(op: Op, ls: seq<StateLocation>)
    requires op.AddLocationOp? || op.RemoveLocationOp?
    ensures
      var after := LocationsAfter(op, ls);
      var placement := if op.AddLocationOp? then op.loc.placementId else op.placement;
      && DropPlacement(after, placement) == DropPlacement(ls, placement)
      && (op.AddLocationOp? ==>
            && StampLocation(op.loc, op.env) in after
            && forall l :: l in after && l.placementId == placement ==> l == StampLocation(op.loc, op.env))
      && (op.RemoveLocationOp? ==> forall l :: l in after <==> l in ls && l.placementId != placement)
  {
    hide StampLocation, Merged;
    if op.AddLocationOp? {
      StampKeepsPlacement(op.loc, op.env);
      MergedMeaning(ls, StampLocation(op.loc, op.env));
    } else {
      DroppedMeaning(ls, op.placement);
      DroppedTwice(ls, op.placement);
    }
  }

  lemma StampKeepsPlacement(loc: StateLocation, env: Envelope)
    ensures StampLocation(loc, env).placementId == loc.placementId
  {
  }

  lemma LocationsEvolve(D: Digest, s: EngineState, op: Op, t: EngineState)
    requires Shape(s) && Step(D, s, op, t) && (op.AddLocationOp? || op.RemoveLocationOp?)
    ensures Evolves(s, t)
  {
    hide Shape, Step, Relocates, LocationsAfter;
    LocationEffect(D, s, op, t);
  }

  lemma RecoveryEvolves(D: Digest, s: EngineState, registry: Registry)
    ensures Evolves(s, Recovered(D, s, registry))
  {
    var t := Recovered(D, s, registry);
    forall id | id in s.records ensures SameCore(s.records[id], t.records[id]) {
      RecoveredSameCore(D, s.records[id], IsCurrent(s.current, s.records[id]));
    }
  }

  lemma StepEvolves(D: Digest, s: EngineState, op: Op, t: EngineState)
    requires SoundStep(D, s, op, t)
    ensures Evolves(s, t)
  {
    hide Shape, IsBatchCurrent, GenerationsSet, TombstonesCurrent, DigestsMatch, CounterCovers, RegisterState,
         AddLocation, RemoveLocation, InvalidationMarked, IsBestPromotable, Recovered, BecomesCurrent, Publishes;
    match op {
      case RegisterStateOp(rec, env) =>
        if Publishes(D, s, rec, env) {
          RegisterEvolves(D, s, rec, env);
        } else {
          RegisterRefused(D, s, rec, env);
        }
      case AddLocationOp(state, loc, env) => LocationsEvolve(D, s, op, t);
      case RemoveLocationOp(state, placement, env) => LocationsEvolve(D, s, op, t);
      case InvalidateOp(inv, env) =>
        InvalidationStep(D, s, inv, env, t);
        if Invalidates(s, inv, env) {
          InvalidateEffect(D, s, inv, env);
          MarkAllEvolves(D, s, t, InvalidationTargets(s, inv.stateId, inv.boundGeneration), INVALIDATED);
        }
      case TombstoneOp(tomb, env) =>
        if Tombstones(s, tomb, env) {
          TombstoneEffect(D, s, tomb, env);
          MarkAllEvolves(D, s, t, TombstoneTargets(s, tomb.stateId, tomb.floorGeneration), TOMBSTONED);
        }
      case RecoverOp(registry) => RecoveryEvolves(D, s, registry);
      case _ =>
    }
  }

  /** One step of a run, from a state that satisfies the invariant. */
  ghost predicate SoundStep(D: Digest, s: EngineState, op: Op, t: EngineState) {
    Inv(D, s) && Allowed(s, op) && Step(D, s, op, t)
  }

  lemma StepAt(D: Digest, ss: seq<EngineState>, ops: seq<Op>, i: nat)
    requires IgnoresUnhashed(D) && IsRun(D, ss, ops) && i < |ops|
    ensures SoundStep(D, ss[i], ops[i], ss[i + 1])
  {
    ReachableInv(D, ss, ops, i);
  }

  lemma {:induction false} RunEvolves(D: Digest, ss: seq<EngineState>, ops: seq<Op>, i: nat, j: nat)
    requires IgnoresUnhashed(D) && IsRun(D, ss, ops) && i <= j < |ss|
    ensures Evolves(ss[i], ss[j])
    decreases j
  {
    hide Inv, Step, Allowed, Evolved;
    if i < j {
      RunEvolves(D, ss, ops, i, j - 1);
      StepAt(D, ss, ops, j - 1);
      StepEvolves(D, ss[j - 1], ops[j - 1], ss[j]);
      EvolvesTransitive(ss[i], ss[j - 1], ss[j]);
    } else {
      EvolvesReflexive(ss[i]);
    }
  }

  /** A record that has been superseded, invalidated or tombstoned stays so, is never current again, and
      its id is never accepted for publication again. */
  lemma RetirementIsFinal(D: Digest, ss: seq<EngineState>, ops: seq<Op>, i: nat, j: nat, id: u64)
    requires IgnoresUnhashed(D) && IsRun(D, ss, ops) && i <= j < |ss|
    requires id in ss[i].records && ss[i].records[id].lifecycle in {SUPERSEDED, INVALIDATED, TOMBSTONED}
    ensures id in ss[j].records && ss[j].records[id].lifecycle in {SUPERSEDED, INVALIDATED, TOMBSTONED}
    ensures forall state :: state in ss[j].current ==> ss[j].current[state] != id
    ensures forall rec: StateRecord, env: Envelope :: rec.recordId == id ==> !Publishes(D, ss[j], rec, env)
  {
    RunEvolves(D, ss, ops, i, j);
    ReachableInv(D, ss, ops, j);
    forall rec: StateRecord, env: Envelope | rec.recordId == id ensures !Publishes(D, ss[j], rec, env) {
      if Publishes(D, ss[j], rec, env) {
        PublishGuards(D, ss[j], rec, env);
      }
    }
  }

  // -------- Who is current --------

  /** Neither superseded, invalidated nor tombstoned, and above the floor of a tombstone in force. */
  predicate Standing(s: EngineState, rec: StateRecord) {
    && rec.lifecycle !in {SUPERSEDED, INVALIDATED, TOMBSTONED}
    && (rec.stateId in s.tombstones && s.tombstones[rec.stateId].current ==>
          rec.stateGeneration > s.tombstones[rec.stateId].floorGeneration)
  }

  /** In every reachable state a state has a current record exactly when it has one still standing, and the current
      one is a standing record of the highest generation. */
  lemma CurrentMeaning(D: Digest, ss: seq<EngineState>, ops: seq<Op>, n: nat, state: u64)
    requires n < |ss| && IgnoresUnhashed(D) && IsRun(D, ss, ops)
    ensures state in ss[n].current <==>
      exists id :: id in ss[n].records && ss[n].records[id].stateId == state && Standing(ss[n], ss[n].records[id])
    ensures state in ss[n].current ==>
      && ss[n].current[state] in ss[n].records
      && var rec := ss[n].records[ss[n].current[state]];
         && rec.stateId == state && Standing(ss[n], rec)
         && forall id :: id in ss[n].records && ss[n].records[id].stateId == state && Standing(ss[n], ss[n].records[id])
                         ==> ss[n].records[id].stateGeneration <= rec.stateGeneration
  {
    hide IsRun, IgnoresUnhashed, Standing, EligibleRecord;
    ReachableInv(D, ss, ops, n);
    var s := ss[n];
    forall id | id in s.records ensures Standing(s, s.records[id]) <==> EligibleRecord(s.tombstones, s.records[id]) {
      StandingIsEligible(s, s.records[id]);
    }
  }

  lemma StandingIsEligible(s: EngineState, rec: StateRecord)
    requires rec.stateGeneration != 0
    ensures Standing(s, rec) <==> EligibleRecord(s.tombstones, rec)
  {
  }

  // -------- Floors --------

  /** Every tombstone of s is still in force in t, at the same floor or a higher one. */
  ghost predicate FloorsRise(s: EngineState, t: EngineState) {
    forall state :: state in s.tombstones ==>
      && state in t.tombstones && t.tombstones[state].current
      && s.tombstones[state].floorGeneration <= t.tombstones[state].floorGeneration
  }

  /** The only step that changes the tombstones is an accepted tombstone. */
  lemma StepTombstones(D: Digest, s: EngineState, op: Op, t: EngineState)
    requires SoundStep(D, s, op, t)
    ensures t.tombstones == s.tombstones || (op.TombstoneOp? && Tombstones(s, op.tomb, op.env))
  {
    hide Shape, IsBatchCurrent, RegisterState, AddLocation, RemoveLocation, MarkAll, RecoveredRecords, RebuiltHistory,
         InvalidationMarked, IsBestPromotable, Relocates, LocationsAfter, WithLocations, BecomesCurrent, Supersedes,
         CurrentIsBatch, DigestsMatch, CounterCovers;
    match op {
      case RegisterStateOp(rec, env) =>
        if Publishes(D, s, rec, env) {
          RegisterEffect(D, s, rec, env);
        } else {
          RegisterRefused(D, s, rec, env);
        }
      case AddLocationOp(state, loc, env) => LocationEffect(D, s, op, t);
      case RemoveLocationOp(state, placement, env) => LocationEffect(D, s, op, t);
      case InvalidateOp(inv, env) =>
        InvalidationStep(D, s, inv, env, t);
        if Invalidates(s, inv, env) {
          InvalidateEffect(D, s, inv, env);
        }
      case _ =>
    }
  }

  lemma SameFloors(s: EngineState, t: EngineState)
    requires TombstonesCurrent(s) && t.tombstones == s.tombstones
    ensures FloorsRise(s, t)
  {
  }

  lemma TombstoneFloorsRise(D: Digest, s: EngineState, tomb: TombstoneRecord, env: Envelope)
    requires Shape(s) && GenerationsSet(s) && TombstonesCurrent(s) && Tombstones(s, tomb, env) && tomb.current
    ensures FloorsRise(s, Tombstone(D, s, tomb, env).state)
  {
    hide Shape, GenerationsSet, Tombstone, MarkAll, TombstoneTargets, HistoryOf, CurrentCovered, CheckAuthority;
    TombstoneEffect(D, s, tomb, env);
  }

  lemma SoundTombstone(D: Digest, s: EngineState, op: Op, t: EngineState)
    requires SoundStep(D, s, op, t)
    ensures Shape(s) && GenerationsSet(s) && TombstonesCurrent(s)
    ensures op.TombstoneOp? && Tombstones(s, op.tomb, op.env) ==>
      op.tomb.current && t == Tombstone(D, s, op.tomb, op.env).state
  {
    hide Shape, IsBatchCurrent, GenerationsSet, TombstonesCurrent, Tombstones, Tombstone;
  }

  lemma StepFloorsRise(D: Digest, s: EngineState, op: Op, t: EngineState)
    requires SoundStep(D, s, op, t)
    ensures FloorsRise(s, t)
  {
    hide SoundStep, FloorsRise, Shape, GenerationsSet, TombstonesCurrent, Tombstones, Tombstone;
    SoundTombstone(D, s, op, t);
    StepTombstones(D, s, op, t);
    if t.tombstones == s.tombstones {
      SameFloors(s, t);
    } else {
      TombstoneFloorsRise(D, s, op.tomb, op.env);
    }
  }

  lemma {:induction false} RunFloorsRise(D: Digest, ss: seq<EngineState>, ops: seq<Op>, i: nat, j: nat)
    requires IgnoresUnhashed(D) && IsRun(D, ss, ops) && i <= j < |ss|
    ensures FloorsRise(ss[i], ss[j])
    decreases j
  {
    hide Step, Allowed, Shape, IsBatchCurrent;
    if i < j {
      RunFloorsRise(D, ss, ops, i, j - 1);
      StepAt(D, ss, ops, j - 1);
      StepFloorsRise(D, ss[j - 1], ops[j - 1], ss[j]);
    } else {
      ReachableInv(D, ss, ops, i);
    }
  }

  /** No resurrection: from the moment a tombstone with some floor is in force, through everything that
      follows including recoveries, no record of its state at or below that floor is current, and no
      publication of that state at or below it is accepted. */
  lemma NoResurrection(D: Digest, ss: seq<EngineState>, ops: seq<Op>, i: nat, j: nat, state: u64)
    requires IgnoresUnhashed(D) && IsRun(D, ss, ops) && i <= j < |ss| && state in ss[i].tombstones
    ensures FindState(ss[j], state).Some? ==>
      FindState(ss[j], state).value.stateGeneration > ss[i].tombstones[state].floorGeneration
    ensures forall rec: StateRecord, env: Envelope ::
      rec.stateId == state && rec.stateGeneration <= ss[i].tombstones[state].floorGeneration ==>
        !Publishes(D, ss[j], rec, env)
  {
    RunFloorsRise(D, ss, ops, i, j);
    ReachableInv(D, ss, ops, j);
    forall rec: StateRecord, env: Envelope
      | rec.stateId == state && rec.stateGeneration <= ss[i].tombstones[state].floorGeneration
      ensures !Publishes(D, ss[j], rec, env)
    {
      if Publishes(D, ss[j], rec, env) {
        PublishGuards(D, ss[j], rec, env);
      }
    }
  }

  // -------- Current generations --------

  /** The state has been current at generation g or beyond and nothing has forgotten it: its current
      record is there, or a tombstone remembers. */
  predicate Reached(s: EngineState, state: u64, g: u64) {
    || (FindState(s, state).Some? && FindState(s, state).value.stateGeneration >= g)
    || Tombstoned(s.tombstones, state, g)
  }

  /** A state's current record changes only to one beyond everything reached before. */
  ghost predicate OnlyAdvances(s: EngineState, t: EngineState, state: u64, g: u64) {
    && Reached(t, state, g)
    && (state in t.current ==>
          || (state in s.current && t.current[state] == s.current[state])
          || (FindState(t, state).Some? && FindState(t, state).value.stateGeneration > g))
  }

  lemma RegisterAdvances(D: Digest, s: EngineState, rec: StateRecord, env: Envelope, state: u64, g: u64)
    requires Shape(s) && Reached(s, state, g) && g != 0 && Publishes(D, s, rec, env)
    ensures OnlyAdvances(s, RegisterState(D, s, rec, env).state, state, g)
  {
    RegisterEffect(D, s, rec, env);
    var t := RegisterState(D, s, rec, env).state;
    if state != rec.stateId || !BecomesCurrent(s, rec) {
      if state in s.current {
        assert t.records[s.current[state]] == s.records[s.current[state]];
      }
    }
  }

  lemma TombstoneAdvances(D: Digest, s: EngineState, tomb: TombstoneRecord, env: Envelope, state: u64, g: u64)
    requires Inv(D, s) && Reached(s, state, g) && g != 0 && Tombstones(s, tomb, env) && tomb.current
    ensures OnlyAdvances(s, Tombstone(D, s, tomb, env).state, state, g)
  {
    hide IsBatchCurrent, Tombstone, MarkAll, TombstoneTargets, TotalLocations, DigestsMatch, CounterCovers, HistoryOf,
         CheckAuthority, EligibleRecord;
    TombstoneEffect(D, s, tomb, env);
    if state in s.current {
      TombstonedRecord(D, s, tomb, env, s.current[state]);
    }
  }

  lemma InvalidationAdvances(D: Digest, s: EngineState, inv: InvalidationRecord, env: Envelope, state: u64, g: u64)
    requires Shape(s) && CurrentIsBatch(s) && Reached(s, state, g) && Invalidates(s, inv, env) && inv.stateId != state
    ensures OnlyAdvances(s, Invalidate(D, s, inv, env, None).state, state, g)
  {
    hide IsBatchCurrent, Invalidate, InvalidationTargets, TouchHistory, HistoryOf, InvalidationVerdict;
    InvalidateEffect(D, s, inv, env);
  }

  lemma QuietAdvances(s: EngineState, t: EngineState, state: u64, g: u64)
    requires Reached(s, state, g) && Shape(s) && t.tombstones == s.tombstones && t.current == s.current && Evolves(s, t)
    ensures OnlyAdvances(s, t, state, g)
  {
  }

  lemma StepAdvances(D: Digest, s: EngineState, op: Op, t: EngineState, state: u64, g: u64)
    requires SoundStep(D, s, op, t) && Reached(s, state, g) && g != 0 && !AcceptsInvalidation(s, op, state)
    ensures OnlyAdvances(s, t, state, g)
  {
    hide Shape, IsBatchCurrent, Reached, OnlyAdvances, Evolves;
    StepEvolves(D, s, op, t);
    if op.RegisterStateOp? && Publishes(D, s, op.rec, op.env) {
      RegisterAdvances(D, s, op.rec, op.env, state, g);
    } else if op.InvalidateOp? && Invalidates(s, op.inv, op.env) {
      InvalidationStep(D, s, op.inv, op.env, t);
      InvalidationAdvances(D, s, op.inv, op.env, state, g);
    } else if op.TombstoneOp? && Tombstones(s, op.tomb, op.env) {
      TombstoneAdvances(D, s, op.tomb, op.env, state, g);
    } else {
      QuietStep(D, s, op, t);
      QuietAdvances(s, t, state, g);
    }
  }

  /** Every other step leaves tombstones and current records alone. */
  lemma QuietStep(D: Digest, s: EngineState, op: Op, t: EngineState)
    requires SoundStep(D, s, op, t)
    requires op.RegisterStateOp? ==> !Publishes(D, s, op.rec, op.env)
    requires op.InvalidateOp? ==> !Invalidates(s, op.inv, op.env)
    requires op.TombstoneOp? ==> !Tombstones(s, op.tomb, op.env)
    ensures t.tombstones == s.tombstones && t.current == s.current
  {
    hide Shape, IsBatchCurrent, CurrentIsBatch, GenerationsSet, TombstonesCurrent, DigestsMatch, CounterCovers,
         RegisterState, AddLocation, RemoveLocation, MarkAll, RecoveredRecords, RebuiltHistory, InvalidationMarked,
         IsBestPromotable, Relocates, LocationsAfter, WithLocations, BecomesCurrent, Publishes, CountMerged;
    match op {
      case RegisterStateOp(rec, env) => RegisterRefused(D, s, rec, env);
      case AddLocationOp(_, _, _) => LocationEffect(D, s, op, t);
      case RemoveLocationOp(_, _, _) => LocationEffect(D, s, op, t);
      case _ =>
    }
  }

  lemma OnlyAdvancesOnward(s: EngineState, t: EngineState, u: EngineState, state: u64, g: u64)
    requires OnlyAdvances(s, t, state, g) && OnlyAdvances(t, u, state, g) && Evolves(t, u)
    requires Shape(t) && Shape(u)
    ensures OnlyAdvances(s, u, state, g)
  {
  }

  lemma ReachedAtStart(s: EngineState, state: u64)
    requires Shape(s) && state in s.current
    ensures FindState(s, state).Some? && OnlyAdvances(s, s, state, FindState(s, state).value.stateGeneration)
    ensures GenerationsSet(s) ==> FindState(s, state).value.stateGeneration != 0
  {
  }

  lemma {:induction false} RunAdvances(D: Digest, ss: seq<EngineState>, ops: seq<Op>, i: nat, j: nat, state: u64,
                                       g: u64)
    requires IgnoresUnhashed(D) && IsRun(D, ss, ops) && i <= j < |ss|
    requires g != 0 && OnlyAdvances(ss[i], ss[i], state, g)
    requires forall k :: i <= k < j ==> !AcceptsInvalidation(ss[k], ops[k], state)
    ensures OnlyAdvances(ss[i], ss[j], state, g)
    decreases j
  {
    hide OnlyAdvances, AcceptsInvalidation, Step, Allowed;
    if i < j {
      RunAdvances(D, ss, ops, i, j - 1, state, g);
      RunAdvancesStep(D, ss, ops, i, j - 1, state, g);
    }
  }

  lemma RunAdvancesStep(D: Digest, ss: seq<EngineState>, ops: seq<Op>, i: nat, k: nat, state: u64, g: u64)
    requires IgnoresUnhashed(D) && IsRun(D, ss, ops) && i <= k < |ops|
    requires g != 0 && OnlyAdvances(ss[i], ss[k], state, g) && !AcceptsInvalidation(ss[k], ops[k], state)
    ensures OnlyAdvances(ss[i], ss[k + 1], state, g)
  {
    hide Allowed, Step, Shape, IsBatchCurrent, Reached, Evolves;
    ReachableInv(D, ss, ops, k + 1);
    StepAt(D, ss, ops, k);
    StepEvolves(D, ss[k], ops[k], ss[k + 1]);
    StepAdvances(D, ss[k], ops[k], ss[k + 1], state, g);
    OnlyAdvancesOnward(ss[i], ss[k], ss[k + 1], state, g);
  }

  /** Between accepted invalidations of a state, its current generations strictly increase: whatever is
      current later is the same record or one of a higher generation, through supersession, tombstones,
      worker deaths, older accepted publications and recoveries. */
  lemma CurrentGenerationsIncrease(D: Digest, ss: seq<EngineState>, ops: seq<Op>, i: nat, j: nat, state: u64)
    requires IgnoresUnhashed(D) && IsRun(D, ss, ops) && i <= j < |ss|
    requires state in ss[i].current && state in ss[j].current
    requires forall k :: i <= k < j ==> !AcceptsInvalidation(ss[k], ops[k], state)
    ensures FindState(ss[i], state).Some? && FindState(ss[j], state).Some?
    ensures ss[i].current[state] == ss[j].current[state]
      || FindState(ss[i], state).value.stateGeneration < FindState(ss[j], state).value.stateGeneration
  {
    ReachableInv(D, ss, ops, i);
    ReachedAtStart(ss[i], state);
    RunAdvances(D, ss, ops, i, j, state, FindState(ss[i], state).value.stateGeneration);
    ReachableInv(D, ss, ops, j);
  }
}
