/** What invalidation, tombstoning and recovery keep. */
module Retirement {
  import opened Basics
  import opened Model
  import opened Authority
  import opened Transitions
  import opened Recovery
  import opened Invariants

  // -------- Marking --------

  lemma MarkingKeeps(D: Digest, records: map<u64, StateRecord>, ids: set<u64>, lifecycle: u8)
    requires IgnoresUnhashed(D)
    requires forall id :: id in records ==> records[id].semanticDigest == D(records[id])
    ensures
      var after := MarkAll(D, records, ids, lifecycle);
      && (forall id :: id in after ==> after[id].semanticDigest == D(after[id]))
      && TotalLocations(after) == TotalLocations(records)
  {
    var after := MarkAll(D, records, ids, lifecycle);
    forall id | id in after ensures after[id].semanticDigest == D(after[id]) {
      MarkedSealed(D, records[id], lifecycle);
    }
    TotalOfSameSizes(records, after);
  }

  /** Shape survives marking, clearing current records, and touching histories. */
  lemma ShapeAfterMarking(s: EngineState, t: EngineState, D: Digest, ids: set<u64>, lifecycle: u8)
    requires Shape(s) && t.records == MarkAll(D, s.records, ids, lifecycle)
    requires forall state :: HistoryOf(t, state) == HistoryOf(s, state)
    requires forall state :: state in t.current ==> state in s.current && t.current[state] == s.current[state]
    requires forall state :: state in t.tombstones ==> t.tombstones[state].stateId == state
    ensures Shape(t)
  {
  }

  // -------- invalidate --------

  predicate Invalidates(s: EngineState, inv: InvalidationRecord, env: Envelope) {
    InvalidationVerdict(s, inv, env) == Accepted
  }

  /** Nothing of the state that is above the bound is eligible. */
  lemma AboveBoundIneligible(s: EngineState, inv: InvalidationRecord, env: Envelope, id: u64)
    requires Shape(s) && CurrentIsBatch(s) && Invalidates(s, inv, env)
    requires id in s.records && s.records[id].stateId == inv.stateId && EligibleRecord(s.tombstones, s.records[id])
    ensures s.records[id].stateGeneration <= inv.boundGeneration
  {
  }

  /** In any state that satisfies the batch rule the promotion branch is dead. */
  lemma NothingToPromote(D: Digest, s: EngineState, inv: InvalidationRecord, env: Envelope, id: u64)
    requires Shape(s) && CurrentIsBatch(s) && Invalidates(s, inv, env)
    ensures !Promotable(InvalidationMarked(D, s, inv, env), inv.stateId, inv.boundGeneration, id)
  {
    var s1 := InvalidationMarked(D, s, inv, env);
    if Promotable(s1, inv.stateId, inv.boundGeneration, id) {
      assert id in HistoryOf(s, inv.stateId);
      assert s1.records[id] == s.records[id];
      AboveBoundIneligible(s, inv, env, id);
    }
  }

  /** So finding nothing is what the promotion scan does. */
  lemma NoneIsBest(D: Digest, s: EngineState, inv: InvalidationRecord, env: Envelope)
    requires Shape(s) && CurrentIsBatch(s) && Invalidates(s, inv, env)
    ensures IsBestPromotable(InvalidationMarked(D, s, inv, env), inv.stateId, inv.boundGeneration, None)
  {
    hide Shape, IsBatchCurrent, Promotable, InvalidationMarked, Invalidates;
    var s1 := InvalidationMarked(D, s, inv, env);
    forall id ensures !Promotable(s1, inv.stateId, inv.boundGeneration, id) {
      NothingToPromote(D, s, inv, env, id);
    }
  }

  /** An accepted invalidation, part by part. */
  lemma InvalidateEffect(D: Digest, s: EngineState, inv: InvalidationRecord, env: Envelope)
    requires Shape(s) && CurrentIsBatch(s) && Invalidates(s, inv, env)
    ensures
      var t := Invalidate(D, s, inv, env, None).state;
      && t.records == MarkAll(D, s.records, InvalidationTargets(s, inv.stateId, inv.boundGeneration), INVALIDATED)
      && t.current == s.current - {inv.stateId} && t.tombstones == s.tombstones
      && t.accounting.locations == s.accounting.locations
      && (t.authority == s.authority.ClearHolder(inv.stateId)
          || (t.authority == s.authority && inv.stateId !in s.current))
      && (t.history == s.history || t.history == TouchHistory(s.history, inv.stateId))
    ensures forall state :: HistoryOf(Invalidate(D, s, inv, env, None).state, state) == HistoryOf(s, state)
  {
    hide MarkAll, InvalidationTargets, TouchHistory, HistoryOf, CheckAuthority;
    if inv.stateId !in s.current {
      assert s.current - {inv.stateId} == s.current;
    }
    SameHistory(s, Invalidate(D, s, inv, env, None).state, inv.stateId);
  }

  lemma SameHistory(s: EngineState, t: EngineState, touched: u64)
    requires t.history == s.history || t.history == TouchHistory(s.history, touched)
    ensures forall state :: HistoryOf(t, state) == HistoryOf(s, state)
  {
  }

  /** The promotion scan finds nothing, the state is left without a current record, everything of it up
      to the bound is invalidated, and no other record changes. */
  lemma InvalidationClears(D: Digest, s: EngineState, inv: InvalidationRecord, env: Envelope, best: Option<u64>)
    requires Shape(s) && CurrentIsBatch(s) && Invalidates(s, inv, env)
    requires IsBestPromotable(InvalidationMarked(D, s, inv, env), inv.stateId, inv.boundGeneration, best)
    ensures best == None
    ensures
      var t := Invalidate(D, s, inv, env, best).state;
      && t.current == s.current - {inv.stateId}
      && t.records.Keys == s.records.Keys
      && forall id :: id in s.records ==>
           if s.records[id].stateId == inv.stateId && s.records[id].stateGeneration <= inv.boundGeneration
           then t.records[id].lifecycle == INVALIDATED
           else t.records[id] == s.records[id]
  {
    if best.Some? {
      NothingToPromote(D, s, inv, env, best.value);
    }
    InvalidateEffect(D, s, inv, env);
  }

  /** Taking one state's records out of eligibility and clearing its current record. */
  lemma BatchWithout(before: map<u64, StateRecord>, T: map<u64, TombstoneRecord>, current: map<u64, u64>, state: u64,
                     after: map<u64, StateRecord>, U: map<u64, TombstoneRecord>)
    requires IsBatchCurrent(before, T, current) && after.Keys == before.Keys
    requires forall id :: id in before ==> after[id].stateId == before[id].stateId
    requires forall id :: id in before && before[id].stateId != state ==>
      after[id] == before[id] && (EligibleRecord(U, before[id]) <==> EligibleRecord(T, before[id]))
    requires forall id :: id in before && before[id].stateId == state ==> !EligibleRecord(U, after[id])
    ensures IsBatchCurrent(after, U, current - {state})
  {
  }

  lemma BatchAfterInvalidation(D: Digest, s: EngineState, inv: InvalidationRecord, env: Envelope)
    requires Shape(s) && CurrentIsBatch(s) && Invalidates(s, inv, env)
    ensures CurrentIsBatch(Invalidate(D, s, inv, env, None).state)
  {
    InvalidateEffect(D, s, inv, env);
    var after := MarkAll(D, s.records, InvalidationTargets(s, inv.stateId, inv.boundGeneration), INVALIDATED);
    forall id | id in s.records && s.records[id].stateId == inv.stateId
      ensures !EligibleRecord(s.tombstones, after[id])
    {
      if EligibleRecord(s.tombstones, s.records[id]) {
        AboveBoundIneligible(s, inv, env, id);
      }
    }
    BatchWithout(s.records, s.tombstones, s.current, inv.stateId, after, s.tombstones);
  }

  lemma InvalidateKeepsInv(D: Digest, s: EngineState, inv: InvalidationRecord, env: Envelope)
    requires IgnoresUnhashed(D) && Inv(D, s)
    ensures Inv(D, Invalidate(D, s, inv, env, None).state)
  {
    hide IsBatchCurrent, IgnoresUnhashed, InvalidationTargets, TotalLocations, InvalidationMarked, HistoryOf,
         CheckAuthority;
    if Invalidates(s, inv, env) {
      var t := Invalidate(D, s, inv, env, None).state;
      InvalidateEffect(D, s, inv, env);
      var ids := InvalidationTargets(s, inv.stateId, inv.boundGeneration);
      MarkingKeeps(D, s.records, ids, INVALIDATED);
      ShapeAfterMarking(s, t, D, ids, INVALIDATED);
      BatchAfterInvalidation(D, s, inv, env);
      InvOfParts(D, t);
    }
  }

  // -------- tombstone --------

  predicate Tombstones(s: EngineState, t: TombstoneRecord, env: Envelope) {
    TombstoneVerdict(s, t, env) == Accepted
  }

  /** Is the state's current record at or below the floor? */
  predicate CurrentCovered(s: EngineState, t: TombstoneRecord) {
    FindState(s, t.stateId).Some? && FindState(s, t.stateId).value.stateGeneration <= t.floorGeneration
  }

  /** An accepted tombstone, part by part. */
  lemma TombstoneEffect(D: Digest, s: EngineState, t: TombstoneRecord, env: Envelope)
    requires Shape(s) && GenerationsSet(s) && Tombstones(s, t, env)
    ensures
      var u := Tombstone(D, s, t, env).state;
      var clears := t.current && CurrentCovered(s, t);
      && u.records == MarkAll(D, s.records, TombstoneTargets(s, t.stateId, t.floorGeneration), TOMBSTONED)
      && u.current == (if clears then s.current - {t.stateId} else s.current)
      && u.tombstones
        == s.tombstones[t.stateId := t.(coordinatorEpoch := env.coordinatorEpoch, workerBoot := env.workerBoot)]
      && u.accounting.locations == s.accounting.locations
      && u.authority == (if clears then s.authority.SetFloor(t.stateId, t.floorGeneration).ClearHolder(t.stateId)
                         else s.authority.SetFloor(t.stateId, t.floorGeneration))
    ensures forall state :: HistoryOf(Tombstone(D, s, t, env).state, state) == HistoryOf(s, state)
  {
    hide Shape, GenerationsSet, MarkAll, CurrentOf, TombstoneTargets, HistoryOf, TouchHistory, CheckAuthority;
    MarkingKeepsCurrent(D, s, TombstoneTargets(s, t.stateId, t.floorGeneration), TOMBSTONED, t.stateId);
    SameHistory(s, Tombstone(D, s, t, env).state, t.stateId);
  }

  /** Marking does not change which record is current, nor its generation. */
  lemma MarkingKeepsCurrent(D: Digest, s: EngineState, ids: set<u64>, lifecycle: u8, state: u64)
    requires Shape(s) && GenerationsSet(s)
    ensures
      var before, after := FindState(s, state), CurrentOf(MarkAll(D, s.records, ids, lifecycle), s.current, state);
      && before.Some? == after.Some?
      && (before.Some? ==>
            after.value.stateGeneration == before.value.stateGeneration && before.value.stateGeneration != 0)
  {
  }

  /** The floor in force before an accepted tombstone is lower, so it covers nothing above the new one. */
  lemma OldFloorIsLower(s: EngineState, t: TombstoneRecord, env: Envelope, generation: u64)
    requires Tombstones(s, t, env) && generation > t.floorGeneration
    ensures !Tombstoned(s.tombstones, t.stateId, generation)
  {
  }

  /** Records of the state after a tombstone: marked up to the floor, untouched above it. */
  lemma TombstonedRecord(D: Digest, s: EngineState, t: TombstoneRecord, env: Envelope, id: u64)
    requires Shape(s) && GenerationsSet(s) && Tombstones(s, t, env) && id in s.records
    ensures
      var u, r := Tombstone(D, s, t, env).state, s.records[id];
      && id in u.records
      && u.records[id].stateId == r.stateId && u.records[id].stateGeneration == r.stateGeneration
      && (r.stateId != t.stateId ==>
            u.records[id] == r && (EligibleRecord(u.tombstones, r) <==> EligibleRecord(s.tombstones, r)))
      && (r.stateId == t.stateId && r.stateGeneration <= t.floorGeneration ==> u.records[id].lifecycle == TOMBSTONED)
      && (r.stateId == t.stateId && r.stateGeneration > t.floorGeneration ==>
            u.records[id] == r && (EligibleRecord(u.tombstones, r) <==> EligibleRecord(s.tombstones, r)))
  {
    TombstoneEffect(D, s, t, env);
    if s.records[id].stateId == t.stateId && s.records[id].stateGeneration > t.floorGeneration {
      OldFloorIsLower(s, t, env, s.records[id].stateGeneration);
    }
  }

  /** Taking some records out of eligibility, but no current one. */
  lemma BatchWithFewer(before: map<u64, StateRecord>, T: map<u64, TombstoneRecord>, current: map<u64, u64>,
                       after: map<u64, StateRecord>, U: map<u64, TombstoneRecord>)
    requires IsBatchCurrent(before, T, current) && after.Keys == before.Keys
    requires forall id :: id in before && EligibleRecord(U, after[id]) ==>
      after[id] == before[id] && EligibleRecord(T, before[id])
    requires forall state :: state in current ==>
      after[current[state]] == before[current[state]] && EligibleRecord(U, after[current[state]])
    ensures IsBatchCurrent(after, U, current)
  {
  }

  /** Tombstoning keeps the batch rule exactly when the tombstone is in force or the current record is
      above its floor: a tombstone marked not current would leave a tombstoned record current. */
  lemma TombstoneKeepsBatch(D: Digest, s: EngineState, t: TombstoneRecord, env: Envelope)
    requires Shape(s) && GenerationsSet(s) && CurrentIsBatch(s) && Tombstones(s, t, env)
    ensures CurrentIsBatch(Tombstone(D, s, t, env).state) <==> t.current || !CurrentCovered(s, t)
  {
    var u := Tombstone(D, s, t, env).state;
    TombstoneEffect(D, s, t, env);
    forall id | id in s.records ensures u.records[id].stateId == s.records[id].stateId {
      TombstonedRecord(D, s, t, env, id);
    }
    if CurrentCovered(s, t) {
      TombstonedRecord(D, s, t, env, s.current[t.stateId]);
      if t.current {
        BatchAfterCovering(D, s, t, env);
      }
    } else {
      BatchAfterTrimming(D, s, t, env);
    }
  }

  lemma BatchAfterCovering(D: Digest, s: EngineState, t: TombstoneRecord, env: Envelope)
    requires Shape(s) && GenerationsSet(s) && CurrentIsBatch(s) && Tombstones(s, t, env)
    requires t.current && CurrentCovered(s, t)
    ensures CurrentIsBatch(Tombstone(D, s, t, env).state)
  {
    var u := Tombstone(D, s, t, env).state;
    TombstoneEffect(D, s, t, env);
    forall id | id in s.records
      ensures u.records[id].stateId == s.records[id].stateId
      ensures s.records[id].stateId != t.stateId ==>
        u.records[id] == s.records[id]
        && (EligibleRecord(u.tombstones, s.records[id]) <==> EligibleRecord(s.tombstones, s.records[id]))
      ensures s.records[id].stateId == t.stateId ==> !EligibleRecord(u.tombstones, u.records[id])
    {
      TombstonedRecord(D, s, t, env, id);
    }
    BatchWithout(s.records, s.tombstones, s.current, t.stateId, u.records, u.tombstones);
  }

  lemma BatchAfterTrimming(D: Digest, s: EngineState, t: TombstoneRecord, env: Envelope)
    requires Shape(s) && GenerationsSet(s) && CurrentIsBatch(s) && Tombstones(s, t, env)
    requires !CurrentCovered(s, t)
    ensures CurrentIsBatch(Tombstone(D, s, t, env).state)
  {
    var u := Tombstone(D, s, t, env).state;
    TombstoneEffect(D, s, t, env);
    forall id | id in s.records && EligibleRecord(u.tombstones, u.records[id])
      ensures u.records[id] == s.records[id] && EligibleRecord(s.tombstones, s.records[id])
    {
      TombstonedRecord(D, s, t, env, id);
    }
    forall state | state in s.current
      ensures u.records[s.current[state]] == s.records[s.current[state]]
      ensures EligibleRecord(u.tombstones, u.records[s.current[state]])
    {
      TombstonedRecord(D, s, t, env, s.current[state]);
    }
    BatchWithFewer(s.records, s.tombstones, s.current, u.records, u.tombstones);
  }

  lemma TombstoneKeepsParts(D: Digest, s: EngineState, t: TombstoneRecord, env: Envelope)
    requires IgnoresUnhashed(D) && Inv(D, s) && Tombstones(s, t, env)
    ensures var u := Tombstone(D, s, t, env).state;
      && Shape(u) && GenerationsSet(u) && DigestsMatch(D, u) && CounterCovers(u)
      && (TombstonesCurrent(u) <==> t.current)
  {
    hide IsBatchCurrent, IgnoresUnhashed, TombstoneTargets, TotalLocations, HistoryOf, CheckAuthority, Tombstone;
    var u := Tombstone(D, s, t, env).state;
    TombstoneEffect(D, s, t, env);
    var ids := TombstoneTargets(s, t.stateId, t.floorGeneration);
    MarkingKeeps(D, s.records, ids, TOMBSTONED);
    ShapeAfterMarking(s, u, D, ids, TOMBSTONED);
    assert t.stateId in u.tombstones;
  }

  /** A tombstone keeps the invariant exactly when it is refused or marked current. */
  lemma TombstoneKeepsInv(D: Digest, s: EngineState, t: TombstoneRecord, env: Envelope)
    requires IgnoresUnhashed(D) && Inv(D, s)
    ensures Inv(D, Tombstone(D, s, t, env).state) <==> (Tombstones(s, t, env) ==> t.current)
  {
    hide IsBatchCurrent, IgnoresUnhashed, TombstoneTargets, TotalLocations, HistoryOf, CheckAuthority, Shape,
         GenerationsSet, DigestsMatch, CounterCovers, TombstonesCurrent, MarkAll;
    if Tombstones(s, t, env) {
      TombstoneKeepsParts(D, s, t, env);
      TombstoneKeepsBatch(D, s, t, env);
    }
  }

  // -------- recovery --------

  lemma RevalidatedSealed(D: Digest, rec: StateRecord)
    requires IgnoresUnhashed(D) && rec.semanticDigest == D(rec)
    ensures Revalidated(D, rec).semanticDigest == D(Revalidated(D, rec))
  {
    var p := rec.Persisted();
    var u := p.(locations := RecoveredLocations(rec.locations));
    assert u.(semanticDigest := D(u)) == Resealed(u, D(u), u.isHistorical);
  }

  lemma RecoveredSealed(D: Digest, rec: StateRecord, isCurrent: bool)
    requires IgnoresUnhashed(D) && rec.semanticDigest == D(rec)
    ensures RecoveredRecord(D, rec, isCurrent).semanticDigest == D(RecoveredRecord(D, rec, isCurrent))
  {
    RevalidatedSealed(D, rec);
    var v := Revalidated(D, rec);
    assert RecoveredRecord(D, rec, isCurrent) == Resealed(v, v.semanticDigest, !isCurrent);
  }

  lemma RebuiltHistoryExact(s: EngineState, state: u64)
    requires Shape(s)
    ensures (if state in RebuiltHistory(s.records) then RebuiltHistory(s.records)[state] else {}) == HistoryOf(s, state)
  {
    var rebuilt := if state in RebuiltHistory(s.records) then RebuiltHistory(s.records)[state] else {};
    forall id ensures id in rebuilt <==> id in HistoryOf(s, state) {
      if id in HistoryOf(s, state) {
        assert s.records[id].stateId in StatesOf(s.records);
      }
    }
  }

  lemma RecoverKeepsShape(D: Digest, s: EngineState, registry: Registry)
    requires Shape(s)
    ensures Shape(Recovered(D, s, registry))
    ensures forall state :: HistoryOf(Recovered(D, s, registry), state) == HistoryOf(s, state)
  {
    var t := Recovered(D, s, registry);
    forall state ensures HistoryOf(t, state) == HistoryOf(s, state) {
      RebuiltHistoryExact(s, state);
    }
    forall id | id in s.records ensures SameCore(s.records[id], t.records[id]) {
      RecoveredSameCore(D, s.records[id], IsCurrent(s.current, s.records[id]));
    }
    ShapeReadsLittle(s, t);
  }

  lemma RecoverKeepsDigests(D: Digest, s: EngineState, registry: Registry)
    requires IgnoresUnhashed(D) && DigestsMatch(D, s)
    ensures DigestsMatch(D, Recovered(D, s, registry))
  {
    var t := Recovered(D, s, registry);
    forall id | id in t.records ensures t.records[id].semanticDigest == D(t.records[id]) {
      RecoveredSealed(D, s.records[id], IsCurrent(s.current, s.records[id]));
    }
  }

  /** What recovery never changes in a record. */
  ghost predicate SameCore(a: StateRecord, b: StateRecord) {
    && a.recordId == b.recordId && a.stateId == b.stateId && a.stateGeneration == b.stateGeneration
    && a.lifecycle == b.lifecycle && |a.locations| == |b.locations|
    && a.descriptor == b.descriptor && a.authorityBoot == b.authorityBoot
  }

  lemma RecoveredSameCore(D: Digest, rec: StateRecord, isCurrent: bool)
    ensures SameCore(rec, RecoveredRecord(D, rec, isCurrent))
  {
  }

  lemma RestReadsLittle(s: EngineState, t: EngineState)
    requires CurrentIsBatch(s) && GenerationsSet(s) && TombstonesCurrent(s) && CounterCovers(s)
    requires t.records.Keys == s.records.Keys
    requires forall id :: id in s.records ==> SameCore(s.records[id], t.records[id])
    requires t.current == s.current && t.tombstones == s.tombstones && t.accounting == s.accounting
    ensures CurrentIsBatch(t) && GenerationsSet(t) && TombstonesCurrent(t) && CounterCovers(t)
  {
    BatchReadsLittle(s.records, t.records, s.tombstones, s.current);
    TotalOfSameSizes(s.records, t.records);
  }

  lemma RecoverKeepsRest(D: Digest, s: EngineState, registry: Registry)
    requires CurrentIsBatch(s) && GenerationsSet(s) && TombstonesCurrent(s) && CounterCovers(s)
    ensures var t := Recovered(D, s, registry);
      CurrentIsBatch(t) && GenerationsSet(t) && TombstonesCurrent(t) && CounterCovers(t)
  {
    var t := Recovered(D, s, registry);
    forall id | id in s.records ensures SameCore(s.records[id], t.records[id]) {
      RecoveredSameCore(D, s.records[id], IsCurrent(s.current, s.records[id]));
    }
    RestReadsLittle(s, t);
  }

  lemma RecoverKeepsInv(D: Digest, s: EngineState, registry: Registry)
    requires IgnoresUnhashed(D) && Inv(D, s)
    ensures Inv(D, Recovered(D, s, registry))
  {
    RecoverKeepsShape(D, s, registry);
    RecoverKeepsDigests(D, s, registry);
    RecoverKeepsRest(D, s, registry);
    InvOfParts(D, Recovered(D, s, registry));
  }

  /** With one record per generation the batch rule determines the current map, so the scan after a
      load can only find what was current before the save. */
  lemma BatchCurrentUnique(records: map<u64, StateRecord>, T: map<u64, TombstoneRecord>, a: map<u64, u64>, b: map<u64,
                           u64>)
    requires UniqueGenerations(records) && IsBatchCurrent(records, T, a) && IsBatchCurrent(records, T, b)
    ensures a == b
  {
    forall state | state in a ensures state in b && a[state] == b[state] {
      assert records[a[state]].stateGeneration <= records[b[state]].stateGeneration;
      assert records[b[state]].stateGeneration <= records[a[state]].stateGeneration;
    }
    forall state | state in b ensures state in a {
      assert EligibleRecord(T, records[b[state]]);
    }
    assert a.Keys == b.Keys;
  }
}
