/** Who may change what: exactly when each mutation is accepted, and that nothing sent with the tokens of a
    worker boot that is gone or of another epoch changes anything. */
module Fencing {
  import opened Basics
  import opened Model
  import opened Authority
  import opened Transitions
  import opened Recovery
  import opened Invariants
  import opened Retirement
  import opened Runs

  // -------- When a mutation is accepted --------

  predicate HasCurrent(s: EngineState, state: u64) {
    state in s.current && s.current[state] in s.records
  }

  /** A location is accepted from a live boot of the present epoch, for a state with a current record, if it is
      newer than what is at its placement whenever the tokens carry a location generation. */
  lemma AdditionAccepted(D: Digest, s: EngineState, state: u64, loc: StateLocation, env: Envelope)
    ensures var o := AddLocation(D, s, state, loc, env);
      && (o.verdict == Accepted <==>
            && env.coordinatorEpoch == s.authority.epoch && env.workerBoot in s.authority.live && HasCurrent(s, state)
            && forall l :: l in s.records[s.current[state]].locations && l.placementId == loc.placementId ==>
                 env.locationGeneration == 0 || loc.locationGeneration > l.locationGeneration)
      && (o.verdict == RejectedStaleEpoch <==> env.coordinatorEpoch != s.authority.epoch)
      && (o.verdict == RejectedStaleBoot <==>
            env.coordinatorEpoch == s.authority.epoch && env.workerBoot !in s.authority.live)
      && (o.verdict == RejectedNotLive <==>
            && env.coordinatorEpoch == s.authority.epoch && env.workerBoot in s.authority.live
            && !HasCurrent(s, state))
      && (o.verdict != Accepted ==> o.state == s)
  {
    hide WithLocations, Merged, CountMerged, StampLocation;
  }

  /** A removal is accepted from a live boot of the present epoch for a state with a current record. */
  lemma RemovalAccepted(D: Digest, s: EngineState, state: u64, placement: u64, env: Envelope)
    ensures var o := RemoveLocation(D, s, state, placement, env);
      && (o.verdict == Accepted <==>
            && env.coordinatorEpoch == s.authority.epoch && env.workerBoot in s.authority.live && HasCurrent(s, state))
      && (o.verdict == RejectedStaleEpoch <==> env.coordinatorEpoch != s.authority.epoch)
      && (o.verdict == RejectedStaleBoot <==>
            env.coordinatorEpoch == s.authority.epoch && env.workerBoot !in s.authority.live)
      && (o.verdict != Accepted ==> o.state == s)
  {
    hide WithLocations, DropPlacement, CountPlacement, Decrement;
  }

  /** An invalidation is accepted from a live boot of the present epoch, unless the state's current record is
      beyond the bound. */
  lemma InvalidationAccepted(D: Digest, s: EngineState, inv: InvalidationRecord, env: Envelope, best: Option<u64>)
    ensures var o := Invalidate(D, s, inv, env, best);
      && (o.verdict == Accepted <==>
            && env.coordinatorEpoch == s.authority.epoch && env.workerBoot in s.authority.live
            && (HasCurrent(s, inv.stateId) ==>
                  s.records[s.current[inv.stateId]].stateGeneration <= inv.boundGeneration))
      && (o.verdict == RejectedStaleEpoch <==> env.coordinatorEpoch != s.authority.epoch)
      && (o.verdict == RejectedStaleBoot <==>
            env.coordinatorEpoch == s.authority.epoch && env.workerBoot !in s.authority.live)
      && (o.verdict != Accepted ==> o.state == s)
  {
    hide InvalidationMarked, InvalidationTargets, TouchHistory;
  }

  /** A tombstone is accepted from a live boot of the present epoch if it raises the state's floor. */
  lemma TombstoneAccepted(D: Digest, s: EngineState, t: TombstoneRecord, env: Envelope)
    ensures var o := Tombstone(D, s, t, env);
      && (o.verdict == Accepted <==>
            && env.coordinatorEpoch == s.authority.epoch && env.workerBoot in s.authority.live
            && (t.stateId in s.tombstones ==> s.tombstones[t.stateId].floorGeneration < t.floorGeneration))
      && (o.verdict == RejectedStaleEpoch <==> env.coordinatorEpoch != s.authority.epoch)
      && (o.verdict != Accepted && o.verdict != RejectedStaleEpoch ==> o.verdict == RejectedStaleBoot)
      && (o.verdict != Accepted ==> o.state == s)
  {
    hide MarkAll, TombstoneTargets, TouchHistory, FindState;
  }

  /** What the registry asks of a publication: tokens, a set generation above the floor, and above the holder's
      as long as that is the same boot or a live one. */
  predicate RegistryAllows(r: Registry, rec: StateRecord, env: Envelope) {
    && env.coordinatorEpoch == r.epoch && env.workerBoot in r.live && rec.stateGeneration != 0
    && (rec.stateId in r.floors ==> rec.stateGeneration > r.floors[rec.stateId])
    && (rec.stateId in r.holders
        && (env.workerBoot == r.holders[rec.stateId].boot || r.holders[rec.stateId].boot in r.live)
        ==> rec.stateGeneration > r.holders[rec.stateId].generation)
  }

  predicate StoredTombstoneCovers(s: EngineState, rec: StateRecord) {
    && rec.stateId in s.tombstones && s.tombstones[rec.stateId].current
    && rec.stateGeneration <= s.tombstones[rec.stateId].floorGeneration
  }

  function OneMoreDuplicate(s: EngineState): EngineState {
    s.(accounting := s.accounting.(duplicateMutationRejections := s.accounting.duplicateMutationRejections + 1))
  }

  function OneMoreStale(s: EngineState): EngineState {
    s.(accounting := s.accounting.(staleMutationRejections := s.accounting.staleMutationRejections + 1))
  }

  /** A publication is accepted if the registry allows it, its id is new and no stored tombstone covers it; what
      is refused is counted as a duplicate or as stale. */
  lemma PublicationAccepted(D: Digest, s: EngineState, rec: StateRecord, env: Envelope)
    ensures var o, r := RegisterState(D, s, rec, env), s.authority;
      && (o.verdict == Accepted <==>
            RegistryAllows(r, rec, env) && rec.recordId !in s.records && !StoredTombstoneCovers(s, rec))
      && (o.verdict == RejectedStaleEpoch <==> env.coordinatorEpoch != r.epoch)
      && (o.verdict == RejectedStaleBoot <==> env.coordinatorEpoch == r.epoch && env.workerBoot !in r.live)
      && (RegistryAllows(r, rec, env) && rec.recordId in s.records ==> o.verdict == RejectedDuplicate)
      && (RegistryAllows(r, rec, env) && rec.recordId !in s.records && StoredTombstoneCovers(s, rec) ==>
            o.verdict == RejectedTombstoned)
      && (o.verdict == RejectedDuplicate ==> o.state == OneMoreDuplicate(s))
      && (o.verdict != Accepted && o.verdict != RejectedDuplicate ==> o.state == OneMoreStale(s))
  {
    hide SetCurrent, CountPublished, Published;
    RegistryMeaning(s.authority, rec, env);
  }

  lemma RegistryMeaning(r: Registry, rec: StateRecord, env: Envelope)
    ensures r.Validate(rec.stateId, env, rec.stateGeneration) == Accepted <==> RegistryAllows(r, rec, env)
    ensures RegistryAllows(r, rec, env) ==> rec.stateGeneration != 0
  {
  }

  // -------- Stale tokens --------

  /** The tokens of a mutation. */
  function TokensOf(op: Op): Option<Envelope> {
    match op
    case RegisterStateOp(_, env) => Some(env)
    case AddLocationOp(_, _, env) => Some(env)
    case RemoveLocationOp(_, _, env) => Some(env)
    case InvalidateOp(_, env) => Some(env)
    case TombstoneOp(_, env) => Some(env)
    case _ => None
  }

  /** t is s, but that a refused publication is counted. */
  predicate OnlyCounted(s: EngineState, op: Op, t: EngineState) {
    if op.RegisterStateOp? then t == OneMoreStale(s) else t == s
  }

  lemma StaleTokens(D: Digest, s: EngineState, op: Op, t: EngineState)
    requires Step(D, s, op, t) && TokensOf(op).Some?
    requires TokensOf(op).value.coordinatorEpoch != s.authority.epoch
             || TokensOf(op).value.workerBoot !in s.authority.live
    ensures OnlyCounted(s, op, t)
  {
    hide RegisterState, AddLocation, RemoveLocation, Invalidate, Tombstone, InvalidationMarked, IsBestPromotable;
    match op {
      case RegisterStateOp(rec, env) => PublicationAccepted(D, s, rec, env);
      case AddLocationOp(state, loc, env) => AdditionAccepted(D, s, state, loc, env);
      case RemoveLocationOp(state, placement, env) => RemovalAccepted(D, s, state, placement, env);
      case InvalidateOp(inv, env) =>
        var best :| IsBestPromotable(InvalidationMarked(D, s, inv, env), inv.stateId, inv.boundGeneration, best)
                    && t == Invalidate(D, s, inv, env, best).state;
        InvalidationAccepted(D, s, inv, env, best);
      case TombstoneOp(tomb, env) => TombstoneAccepted(D, s, tomb, env);
    }
  }

  // -------- Along runs --------

  /** The boot arrived before step i and has since neither left nor been swept away by a load. */
  ghost predicate LiveSince(ops: seq<Op>, boot: u64, i: nat)
    requires i <= |ops|
  {
    exists k :: 0 <= k < i && Arrives(ops[k], boot) && forall m :: k < m < i ==> !Leaves(ops[m], boot)
  }

  predicate Arrives(op: Op, boot: u64) {
    op.RegisterWorkerOp? && op.boot == boot
  }

  predicate Leaves(op: Op, boot: u64) {
    op.RecoverOp? || (op.UnregisterWorkerOp? && op.gone == boot)
  }

  /** How often the epoch was advanced before step i. */
  function Advances(ops: seq<Op>, i: nat): nat
    requires i <= |ops|
  {
    if i == 0 then 0 else Advances(ops, i - 1) + if ops[i - 1].AdvanceEpochOp? then 1 else 0
  }

  /** The epoch after n advances: a 64-bit counter. */
  function EpochAfter(first: u64, n: nat): u64 {
    (first + n) % 0x1_0000_0000_0000_0000
  }

  lemma EpochOneMore(first: u64, n: nat)
    ensures EpochAfter(first, n + 1) == EpochAfter(EpochAfter(first, n), 1) && EpochAfter(first, 0) == first
  {
  }

  lemma StepAuthority(D: Digest, s: EngineState, op: Op, t: EngineState)
    requires SoundStep(D, s, op, t)
    ensures forall boot :: boot in t.authority.live <==>
      Arrives(op, boot) || (boot in s.authority.live && !Leaves(op, boot))
    ensures t.authority.epoch ==
      if op.AdvanceEpochOp? then EpochAfter(s.authority.epoch, 1) else s.authority.epoch
  {
    hide Shape, IsBatchCurrent, CurrentIsBatch, GenerationsSet, TombstonesCurrent, DigestsMatch, CounterCovers,
         RegisterState, AddLocation, RemoveLocation, MarkAll, RecoveredRecords, RebuiltHistory, InvalidationMarked,
         IsBestPromotable, Relocates, LocationsAfter, WithLocations, BecomesCurrent, Publishes, CountMerged,
         Tombstone, Invalidate;
    match op {
      case RegisterStateOp(rec, env) => PublicationAuthority(D, s, rec, env);
      case AddLocationOp(_, _, _) => LocationEffect(D, s, op, t);
      case RemoveLocationOp(_, _, _) => LocationEffect(D, s, op, t);
      case InvalidateOp(inv, env) =>
        InvalidationStep(D, s, inv, env, t);
        InvalidationAuthorityKept(D, s, inv, env);
      case TombstoneOp(tomb, env) => TombstoneAuthorityKept(D, s, tomb, env);
      case _ =>
    }
  }

  lemma PublicationAuthority(D: Digest, s: EngineState, rec: StateRecord, env: Envelope)
    requires Shape(s)
    ensures var t := RegisterState(D, s, rec, env).state;
      t.authority.live == s.authority.live && t.authority.epoch == s.authority.epoch
  {
    hide RegisterState, Shape;
    if Publishes(D, s, rec, env) {
      RegisterEffect(D, s, rec, env);
    } else {
      RegisterRefused(D, s, rec, env);
    }
  }

  lemma InvalidationAuthorityKept(D: Digest, s: EngineState, inv: InvalidationRecord, env: Envelope)
    requires Shape(s) && CurrentIsBatch(s)
    ensures var t := Invalidate(D, s, inv, env, None).state;
      t.authority.live == s.authority.live && t.authority.epoch == s.authority.epoch
  {
    hide Invalidate, Shape, IsBatchCurrent;
    InvalidationAccepted(D, s, inv, env, None);
    if Invalidate(D, s, inv, env, None).verdict == Accepted {
      AcceptedInvalidates(D, s, inv, env);
      InvalidateEffect(D, s, inv, env);
    }
  }

  lemma AcceptedInvalidates(D: Digest, s: EngineState, inv: InvalidationRecord, env: Envelope)
    ensures Invalidate(D, s, inv, env, None).verdict == Accepted <==> Invalidates(s, inv, env)
  {
    hide InvalidationVerdict, InvalidationMarked, InvalidationTargets;
  }

  lemma TombstoneAuthorityKept(D: Digest, s: EngineState, tomb: TombstoneRecord, env: Envelope)
    requires Shape(s) && GenerationsSet(s)
    ensures var t := Tombstone(D, s, tomb, env).state;
      t.authority.live == s.authority.live && t.authority.epoch == s.authority.epoch
  {
    hide Shape, GenerationsSet, MarkAll, TombstoneTargets, TouchHistory, CheckAuthority, FindState, HistoryOf;
    if Tombstones(s, tomb, env) {
      TombstoneEffect(D, s, tomb, env);
    }
  }

  lemma LiveOneMore(ops: seq<Op>, boot: u64, i: nat)
    requires i < |ops|
    ensures LiveSince(ops, boot, i + 1) <==> Arrives(ops[i], boot) || (LiveSince(ops, boot, i) && !Leaves(ops[i], boot))
  {
    if LiveSince(ops, boot, i + 1) && !Arrives(ops[i], boot) {
      var k :| 0 <= k < i + 1 && Arrives(ops[k], boot) && forall m :: k < m < i + 1 ==> !Leaves(ops[m], boot);
      assert k < i;
    }
    if LiveSince(ops, boot, i) && !Leaves(ops[i], boot) {
      var k :| 0 <= k < i && Arrives(ops[k], boot) && forall m :: k < m < i ==> !Leaves(ops[m], boot);
      assert forall m :: k < m < i + 1 ==> !Leaves(ops[m], boot);
    }
  }

  /** The boots that are live and the epoch, by what the run did. */
  ghost predicate AuthorityAt(first: u64, ops: seq<Op>, i: nat, r: Registry)
    requires i <= |ops|
  {
    && (forall boot :: boot in r.live <==> LiveSince(ops, boot, i))
    && r.epoch == EpochAfter(first, Advances(ops, i))
  }

  lemma AuthorityOneMore(first: u64, ops: seq<Op>, i: nat, r: Registry, q: Registry)
    requires i < |ops| && AuthorityAt(first, ops, i, r)
    requires forall boot :: boot in q.live <==> Arrives(ops[i], boot) || (boot in r.live && !Leaves(ops[i], boot))
    requires q.epoch == if ops[i].AdvanceEpochOp? then EpochAfter(r.epoch, 1) else r.epoch
    ensures AuthorityAt(first, ops, i + 1, q)
  {
    hide LiveSince, Arrives, Leaves, EpochAfter;
    forall boot ensures boot in q.live <==> LiveSince(ops, boot, i + 1) {
      LiveOneMore(ops, boot, i);
    }
    EpochOneMore(first, Advances(ops, i));
  }

  lemma AuthorityAtStart(first: u64, ops: seq<Op>)
    ensures AuthorityAt(first, ops, 0, FreshEngine(first).authority)
  {
    EpochOneMore(first, 0);
  }

  /** In every reachable state a boot is live exactly if it arrived and has not left since, and the epoch is the
      first one advanced as often as the run says. */
  lemma {:induction false} AuthorityAlongRuns(D: Digest, ss: seq<EngineState>, ops: seq<Op>, i: nat)
    requires |ss| == |ops| + 1 && i <= |ops| && IgnoresUnhashed(D) && IsRun(D, ss, ops)
    ensures AuthorityAt(ss[0].authority.epoch, ops, i, ss[i].authority)
    decreases i
  {
    hide Step, Allowed, SoundStep, LiveSince, AuthorityAt, Arrives, Leaves, EpochAfter;
    if i == 0 {
      AuthorityAtStart(ss[0].authority.epoch, ops);
    } else {
      AuthorityAlongRuns(D, ss, ops, i - 1);
      StepAt(D, ss, ops, i - 1);
      StepAuthority(D, ss[i - 1], ops[i - 1], ss[i]);
      AuthorityOneMore(ss[0].authority.epoch, ops, i - 1, ss[i - 1].authority, ss[i].authority);
    }
  }

  /** The tokens of step i are those of a boot that is not live, or of another epoch. */
  ghost predicate TokensStale(first: u64, ops: seq<Op>, i: nat)
    requires i < |ops| && TokensOf(ops[i]).Some?
  {
    var env := TokensOf(ops[i]).value;
    !LiveSince(ops, env.workerBoot, i) || env.coordinatorEpoch != EpochAfter(first, Advances(ops, i))
  }

  /** From the moment a worker's boot is gone until it arrives again, and for every epoch but the present one,
      nothing that carries the tokens changes the engine: only refused publications are counted. */
  lemma DeadBootsChangeNothing(D: Digest, ss: seq<EngineState>, ops: seq<Op>, i: nat)
    requires |ss| == |ops| + 1 && i < |ops| && TokensOf(ops[i]).Some? && TokensStale(ss[0].authority.epoch, ops, i)
    requires IgnoresUnhashed(D) && IsRun(D, ss, ops)
    ensures OnlyCounted(ss[i], ops[i], ss[i + 1])
  {
    hide Step, Allowed, LiveSince, EpochAfter, OnlyCounted, Arrives, Leaves;
    AuthorityAlongRuns(D, ss, ops, i);
    assert Step(D, ss[i], ops[i], ss[i + 1]);
    StaleTokens(D, ss[i], ops[i], ss[i + 1]);
  }
}
