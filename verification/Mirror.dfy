/** The authority registry mirrors the engine as long as nothing is loaded, and what that fences. */
module Mirror {
  import opened Basics
  import opened Model
  import opened Authority
  import opened Transitions
  import opened Invariants
  import opened Retirement
  import opened Runs

  /** The holder of each state is the generation and boot of its current record. */
  ghost predicate HoldersMirror(s: EngineState) {
    && s.authority.holders.Keys == s.current.Keys
    && forall state :: state in s.current ==>
         && s.current[state] in s.records
         && s.authority.holders[state] == Holder(s.records[s.current[state]].stateGeneration,
                                                 s.records[s.current[state]].authorityBoot)
  }

  /** The registry's floors are the floors of the stored tombstones. */
  ghost predicate FloorsMirror(s: EngineState) {
    && s.authority.floors.Keys == s.tombstones.Keys
    && forall state :: state in s.tombstones ==> s.authority.floors[state] == s.tombstones[state].floorGeneration
  }

  ghost predicate Mirrors(s: EngineState) {
    HoldersMirror(s) && FloorsMirror(s)
  }

  lemma RegisterMirrors(D: Digest, s: EngineState, rec: StateRecord, env: Envelope)
    requires Shape(s) && Mirrors(s) && Publishes(D, s, rec, env)
    ensures Mirrors(RegisterState(D, s, rec, env).state)
  {
    hide RegisterState, PushHistory, CountPublished, Marked;
    RegisterEffect(D, s, rec, env);
    var t := RegisterState(D, s, rec, env).state;
    forall state | state in t.current
      ensures && t.current[state] in t.records
              && t.authority.holders[state] == Holder(t.records[t.current[state]].stateGeneration,
                                                      t.records[t.current[state]].authorityBoot)
    {
      if state != rec.stateId || !BecomesCurrent(s, rec) {
        assert t.records[s.current[state]] == s.records[s.current[state]];
      }
    }
  }

  /** Marked records keep generation and boot, so clearing one state on both sides keeps the mirror. */
  lemma MarkingMirrors(D: Digest, s: EngineState, t: EngineState, ids: set<u64>, lifecycle: u8, state: u64)
    requires HoldersMirror(s) && t.records == MarkAll(D, s.records, ids, lifecycle)
    requires || (t.current == s.current && t.authority.holders == s.authority.holders)
             || (t.current == s.current - {state} && t.authority.holders == s.authority.holders - {state})
    ensures HoldersMirror(t)
  {
  }

  lemma InvalidationMirrors(D: Digest, s: EngineState, inv: InvalidationRecord, env: Envelope)
    requires Shape(s) && CurrentIsBatch(s) && Mirrors(s) && Invalidates(s, inv, env)
    ensures Mirrors(Invalidate(D, s, inv, env, None).state)
  {
    hide Shape, IsBatchCurrent;
    InvalidateEffect(D, s, inv, env);
    var t := Invalidate(D, s, inv, env, None).state;
    hide Invalidate;
    if inv.stateId !in s.current {
      assert t.current == s.current;
    }
    MarkingMirrors(D, s, t, InvalidationTargets(s, inv.stateId, inv.boundGeneration), INVALIDATED, inv.stateId);
  }

  lemma TombstoneMirrors(D: Digest, s: EngineState, tomb: TombstoneRecord, env: Envelope)
    requires Shape(s) && GenerationsSet(s) && Mirrors(s) && Tombstones(s, tomb, env)
    ensures Mirrors(Tombstone(D, s, tomb, env).state)
  {
    hide Shape, Tombstone, TombstoneTargets, MarkAll, HoldersMirror;
    TombstoneEffect(D, s, tomb, env);
    var t := Tombstone(D, s, tomb, env).state;
    MarkingMirrors(D, s, t, TombstoneTargets(s, tomb.stateId, tomb.floorGeneration), TOMBSTONED, tomb.stateId);
  }

  lemma QuietMirrors(s: EngineState, t: EngineState)
    requires Mirrors(s) && Evolves(s, t) && t.current == s.current && t.tombstones == s.tombstones
    requires t.authority.holders == s.authority.holders && t.authority.floors == s.authority.floors
    ensures Mirrors(t)
  {
  }

  lemma StepMirrors(D: Digest, s: EngineState, op: Op, t: EngineState)
    requires SoundStep(D, s, op, t) && Mirrors(s) && !op.RecoverOp?
    ensures Mirrors(t)
  {
    hide Shape, IsBatchCurrent, Mirrors, Evolves;
    StepEvolves(D, s, op, t);
    if op.RegisterStateOp? && Publishes(D, s, op.rec, op.env) {
      RegisterMirrors(D, s, op.rec, op.env);
    } else if op.InvalidateOp? && Invalidates(s, op.inv, op.env) {
      InvalidationStep(D, s, op.inv, op.env, t);
      InvalidationMirrors(D, s, op.inv, op.env);
    } else if op.TombstoneOp? && Tombstones(s, op.tomb, op.env) {
      TombstoneMirrors(D, s, op.tomb, op.env);
    } else {
      QuietStep(D, s, op, t);
      QuietAuthority(D, s, op, t);
      QuietMirrors(s, t);
    }
  }

  lemma QuietAuthority(D: Digest, s: EngineState, op: Op, t: EngineState)
    requires SoundStep(D, s, op, t) && !op.RecoverOp?
    requires op.RegisterStateOp? ==> !Publishes(D, s, op.rec, op.env)
    requires op.InvalidateOp? ==> !Invalidates(s, op.inv, op.env)
    requires op.TombstoneOp? ==> !Tombstones(s, op.tomb, op.env)
    ensures t.authority.holders == s.authority.holders && t.authority.floors == s.authority.floors
  {
    hide Shape, IsBatchCurrent;
    match op {
      case RegisterStateOp(rec, env) => RegisterRefused(D, s, rec, env);
      case AddLocationOp(_, _, _) => LocationEffect(D, s, op, t);
      case RemoveLocationOp(_, _, _) => LocationEffect(D, s, op, t);
      case _ =>
    }
  }

  /** From a fresh engine and without a load, the registry's holders are exactly the current records and
      its floors exactly the tombstones. */
  lemma {:induction false} RegistryMirrorsEngine(D: Digest, ss: seq<EngineState>, ops: seq<Op>, i: nat)
    requires IgnoresUnhashed(D) && IsRun(D, ss, ops) && i < |ss|
    requires forall k :: 0 <= k < i ==> !ops[k].RecoverOp?
    ensures Mirrors(ss[i])
    decreases i
  {
    hide Step, Allowed, Mirrors;
    if i == 0 {
      FreshMirrors(ss[0].authority.epoch);
    } else {
      RegistryMirrorsEngine(D, ss, ops, i - 1);
      StepAt(D, ss, ops, i - 1);
      StepMirrors(D, ss[i - 1], ops[i - 1], ss[i]);
    }
  }

  lemma FreshMirrors(epoch: u64)
    ensures Mirrors(FreshEngine(epoch))
  {
  }

  // -------- What a live holder fences --------

  /** Does the state have a holder whose boot is live? */
  predicate HeldLive(s: EngineState, state: u64) {
    state in s.authority.holders && s.authority.holders[state].boot in s.authority.live
  }

  predicate AcceptsPublication(D: Digest, s: EngineState, op: Op, state: u64) {
    op.RegisterStateOp? && op.rec.stateId == state && Publishes(D, s, op.rec, op.env)
  }

  lemma HolderAfterPublication(D: Digest, s: EngineState, rec: StateRecord, env: Envelope)
    requires Shape(s) && Mirrors(s) && Publishes(D, s, rec, env)
    ensures var t := RegisterState(D, s, rec, env).state;
      && rec.stateId in t.authority.holders && t.authority.holders[rec.stateId].generation >= rec.stateGeneration
      && (HeldLive(s, rec.stateId) ==> rec.stateGeneration > s.authority.holders[rec.stateId].generation)
  {
    RegisterEffect(D, s, rec, env);
  }

  /** While a state keeps a holder, the held generation never falls. */
  lemma HeldGenerationNeverFalls(D: Digest, s: EngineState, op: Op, t: EngineState, state: u64)
    requires SoundStep(D, s, op, t) && Mirrors(s) && Mirrors(t) && !op.RecoverOp?
    requires state in s.authority.holders && state in t.authority.holders
    ensures s.authority.holders[state].generation <= t.authority.holders[state].generation
  {
    hide Shape, IsBatchCurrent, Invalidate, RegisterState, AddLocation, RemoveLocation, Tombstone, DigestsMatch,
         CounterCovers;
    var g := s.authority.holders[state].generation;
    if AcceptsInvalidation(s, op, state) {
      InvalidationStep(D, s, op.inv, op.env, t);
      InvalidateEffect(D, s, op.inv, op.env);
    } else {
      assert Reached(s, state, g);
      StepAdvances(D, s, op, t, state, g);
      StepEvolves(D, s, op, t);
    }
  }

  lemma {:induction false} HeldThroughout(D: Digest, ss: seq<EngineState>, ops: seq<Op>, i: nat, j: nat, state: u64,
                                          g: u64)
    requires IgnoresUnhashed(D) && IsRun(D, ss, ops) && i <= j < |ss|
    requires forall k :: 0 <= k < j ==> !ops[k].RecoverOp?
    requires forall k :: i <= k <= j ==> HeldLive(ss[k], state)
    requires state in ss[i].authority.holders && ss[i].authority.holders[state].generation >= g
    ensures state in ss[j].authority.holders && ss[j].authority.holders[state].generation >= g
    decreases j
  {
    hide Step, Allowed, Mirrors, Inv;
    assert HeldLive(ss[j], state);
    if i < j {
      HeldThroughout(D, ss, ops, i, j - 1, state, g);
      RegistryMirrorsEngine(D, ss, ops, j - 1);
      RegistryMirrorsEngine(D, ss, ops, j);
      StepAt(D, ss, ops, j - 1);
      HeldGenerationNeverFalls(D, ss[j - 1], ops[j - 1], ss[j], state);
    }
  }

  /** Without a load, and as long as the state's authority stays with live boots and is not cleared, the
      accepted generations of a state strictly increase. */
  lemma AcceptedGenerationsIncrease(D: Digest, ss: seq<EngineState>, ops: seq<Op>, i: nat, j: nat, state: u64)
    requires IgnoresUnhashed(D) && IsRun(D, ss, ops) && i < j < |ops|
    requires forall k :: 0 <= k < j ==> !ops[k].RecoverOp?
    requires AcceptsPublication(D, ss[i], ops[i], state) && AcceptsPublication(D, ss[j], ops[j], state)
    requires forall k :: i < k <= j ==> HeldLive(ss[k], state)
    ensures ops[i].rec.stateGeneration < ops[j].rec.stateGeneration
  {
    hide Mirrors, Inv, Allowed;
    RegistryMirrorsEngine(D, ss, ops, i);
    StepAt(D, ss, ops, i);
    SoundStepShape(D, ss[i], ops[i], ss[i + 1]);
    HolderAfterPublication(D, ss[i], ops[i].rec, ops[i].env);
    HeldThroughout(D, ss, ops, i + 1, j, state, ops[i].rec.stateGeneration);
    RegistryMirrorsEngine(D, ss, ops, j);
    StepAt(D, ss, ops, j);
    SoundStepShape(D, ss[j], ops[j], ss[j + 1]);
    HolderAfterPublication(D, ss[j], ops[j].rec, ops[j].env);
  }

  lemma SoundStepShape(D: Digest, s: EngineState, op: Op, t: EngineState)
    requires SoundStep(D, s, op, t)
    ensures Shape(s)
    ensures op.RegisterStateOp? ==> t == RegisterState(D, s, op.rec, op.env).state
  {
  }
}
