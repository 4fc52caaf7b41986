/** What each accepted mutation writes, field by field: stamps, seals, counters and log entries. */
module Effects {
  import opened Basics
  import opened Model
  import opened Authority
  import opened Transitions
  import opened Invariants

  // -------- Seals and counts --------

  /** b is a in another lifecycle, historical, and sealed with its own digest. */
  ghost predicate Retired(D: Digest, a: StateRecord, b: StateRecord, lifecycle: u8) {
    b == a.(lifecycle := lifecycle, isHistorical := true, semanticDigest := b.semanticDigest)
    && b.semanticDigest == D(b)
  }

  lemma MarkedIsRetired(D: Digest, a: StateRecord, lifecycle: u8)
    requires IgnoresUnhashed(D)
    ensures Retired(D, a, Marked(D, a, lifecycle), lifecycle)
  {
    hide IgnoresUnhashed;
    MarkedSealed(D, a, lifecycle);
  }

  /** The places whose domain is among the given ones. */
  function InDomains(ls: seq<StateLocation>, domains: set<u8>): set<nat> {
    set i: nat | i < |ls| && ls[i].domain in domains
  }

  /** The places at a placement. */
  function At(ls: seq<StateLocation>, placement: u64): set<nat> {
    set i: nat | i < |ls| && ls[i].placementId == placement
  }

  lemma {:induction false} DomainsCounted(ls: seq<StateLocation>, domains: set<u8>)
    ensures CountDomains(ls, domains) == |InDomains(ls, domains)|
    decreases |ls|
  {
    hide InDomains;
    if ls == [] {
      NothingInside(domains, 0);
    } else {
      var front, l := ls[..|ls| - 1], ls[|ls| - 1];
      DomainsCounted(front, domains);
      OneMoreInDomains(front, l, domains);
      assert ls == front + [l];
    }
  }

  lemma {:induction false} PlacementCounted(ls: seq<StateLocation>, placement: u64)
    ensures CountPlacement(ls, placement) == |At(ls, placement)|
    decreases |ls|
  {
    hide At;
    if ls == [] {
      NothingInside({}, placement);
    } else {
      var front, l := ls[..|ls| - 1], ls[|ls| - 1];
      PlacementCounted(front, placement);
      OneMoreAt(front, l, placement);
      assert ls == front + [l];
    }
  }

  lemma NothingInside(domains: set<u8>, placement: u64)
    ensures InDomains([], domains) == {} && At([], placement) == {}
  {
  }

  lemma OneMoreInDomains(front: seq<StateLocation>, l: StateLocation, domains: set<u8>)
    ensures |InDomains(front + [l], domains)| == |InDomains(front, domains)| + if l.domain in domains then 1 else 0
  {
    var added: set<nat> := if l.domain in domains then {|front|} else {};
    forall i: nat ensures i in InDomains(front + [l], domains) <==> i in InDomains(front, domains) + added {
    }
    Disjoint(InDomains(front, domains), added, InDomains(front + [l], domains));
  }

  lemma OneMoreAt(front: seq<StateLocation>, l: StateLocation, placement: u64)
    ensures |At(front + [l], placement)| == |At(front, placement)| + if l.placementId == placement then 1 else 0
  {
    var added: set<nat> := if l.placementId == placement then {|front|} else {};
    forall i: nat ensures i in At(front + [l], placement) <==> i in At(front, placement) + added {
    }
    Disjoint(At(front, placement), added, At(front + [l], placement));
  }

  lemma Disjoint(a: set<nat>, b: set<nat>, c: set<nat>)
    requires a * b == {} && forall i: nat :: i in c <==> i in a + b
    ensures |c| == |a| + |b|
  {
    assert c == a + b;
  }

  // -------- Publication --------

  /** The stored form of a published record. */
  ghost predicate StoredAs(D: Digest, s: EngineState, rec: StateRecord, env: Envelope, stored: StateRecord) {
    && stored.authorityBoot == env.workerBoot
    && stored.descriptor == rec.descriptor.(
         authorityEpoch := s.authority.epoch,
         recordGeneration := if env.recordGeneration == 0 then rec.descriptor.recordGeneration
                             else env.recordGeneration)
    && stored == rec.(authorityBoot := stored.authorityBoot, descriptor := stored.descriptor, isHistorical := false,
                      semanticDigest := stored.semanticDigest)
    && stored.semanticDigest == D(stored)
  }

  /** The counters after a publication; the others stay. */
  predicate PublicationCounted(a: Accounting, rec: StateRecord, b: Accounting) {
    var ls := rec.locations;
    && b.logicalStates == a.logicalStates + 1 && b.currentStates == a.currentStates + 1
    && b.dependencies == a.dependencies + |rec.descriptor.dependencies|
    && b.locations == a.locations + |ls| && b.replicas == a.replicas + |ls|
    && b.cudaLocations == a.cudaLocations + |InDomains(ls, {CUDA_DEVICE})|
    && b.hostLocations == a.hostLocations + |InDomains(ls, {HOST_PINNED, HOST_MEMORY})|
    && b.storageLocations == a.storageLocations + |InDomains(ls,
         {LOCAL_FILESYSTEM, LOCAL_NVME_CLASS, SHARED_FILESYSTEM_CLASS, OBJECT_STORAGE_CLASS})|
    && b == a.(logicalStates := b.logicalStates, currentStates := b.currentStates, dependencies := b.dependencies,
               locations := b.locations, replicas := b.replicas, cudaLocations := b.cudaLocations,
               hostLocations := b.hostLocations, storageLocations := b.storageLocations)
  }

  lemma CountsPublication(a: Accounting, rec: StateRecord)
    ensures PublicationCounted(a, rec, CountPublished(a, rec))
  {
    hide CountDomains, InDomains;
    DomainsCounted(rec.locations, {CUDA_DEVICE});
    DomainsCounted(rec.locations, HOST_DOMAINS);
    DomainsCounted(rec.locations, STORAGE_DOMAINS);
    assert HOST_DOMAINS == {HOST_PINNED, HOST_MEMORY};
    assert STORAGE_DOMAINS == {LOCAL_FILESYSTEM, LOCAL_NVME_CLASS, SHARED_FILESYSTEM_CLASS, OBJECT_STORAGE_CLASS};
  }

  lemma StoresPublished(D: Digest, s: EngineState, rec: StateRecord, env: Envelope)
    requires IgnoresUnhashed(D) && env.coordinatorEpoch == s.authority.epoch
    ensures StoredAs(D, s, rec, env, Published(D, rec, env))
  {
    hide IgnoresUnhashed;
    PublishedSealed(D, rec, env);
  }

  /** An accepted publication stores the record stamped with the sender's boot and the present epoch, retires a
      current record of a lower generation, and counts. */
  lemma PublicationEffect(D: Digest, s: EngineState, rec: StateRecord, env: Envelope)
    requires IgnoresUnhashed(D) && Shape(s) && RegisterState(D, s, rec, env).verdict == Accepted
    ensures
      var t := RegisterState(D, s, rec, env).state;
      var had := rec.stateId in s.current;
      var before := if had then s.current[rec.stateId] else 0;
      var takesOver := had && s.records[before].stateGeneration < rec.stateGeneration;
      && t.records.Keys == s.records.Keys + {rec.recordId} && rec.recordId !in s.records
      && StoredAs(D, s, rec, env, t.records[rec.recordId])
      && (forall id :: id in s.records && !(takesOver && id == before) ==> t.records[id] == s.records[id])
      && (takesOver ==> Retired(D, s.records[before], t.records[before], SUPERSEDED))
      && t.current == (if !had || takesOver then s.current[rec.stateId := rec.recordId] else s.current)
      && PublicationCounted(s.accounting, rec, t.accounting)
      && t.invalidations == s.invalidations && t.tombstones == s.tombstones
  {
    hide RegisterState, Published, CountPublished, PublicationCounted, StoredAs, Retired, IgnoresUnhashed, HistoryOf,
         PushHistory;
    AcceptedPublishes(D, s, rec, env);
    RegisterEffect(D, s, rec, env);
    StoresPublished(D, s, rec, env);
    CountsPublication(s.accounting, rec);
    SameCounts(D, s.accounting, rec, env);
    if Supersedes(s, rec) {
      MarkedIsRetired(D, s.records[s.current[rec.stateId]], SUPERSEDED);
    }
  }

  lemma AcceptedPublishes(D: Digest, s: EngineState, rec: StateRecord, env: Envelope)
    requires RegisterState(D, s, rec, env).verdict == Accepted
    ensures Publishes(D, s, rec, env) && env.coordinatorEpoch == s.authority.epoch
  {
    hide SetCurrent, CountPublished, Published;
  }

  lemma SameCounts(D: Digest, a: Accounting, rec: StateRecord, env: Envelope)
    ensures CountPublished(a, Published(D, rec, env)) == CountPublished(a, rec)
  {
    hide CountDomains;
  }

  // -------- Locations --------

  /** The location as it is stored: stamped with the sender's boot and the present epoch. */
  predicate Stamped(s: EngineState, loc: StateLocation, env: Envelope, stored: StateLocation) {
    && stored.authorityEpoch == s.authority.epoch && stored.authorityBoot == env.workerBoot
    && stored.provenanceGeneration
         == (if env.provenanceGeneration == 0 then loc.provenanceGeneration else env.provenanceGeneration)
    && stored == loc.(authorityEpoch := stored.authorityEpoch, authorityBoot := stored.authorityBoot,
                      provenanceGeneration := stored.provenanceGeneration)
  }

  /** after is before with the stamped location at its placement, instead of whatever was there or at the end. */
  ghost predicate Placed(s: EngineState, loc: StateLocation, env: Envelope, before: seq<StateLocation>,
                         after: seq<StateLocation>) {
    && |after| == |before| + (if At(before, loc.placementId) == {} then 1 else 0)
    && (forall i :: 0 <= i < |before| && before[i].placementId != loc.placementId ==> after[i] == before[i])
    && (forall i :: 0 <= i < |after| && (i < |before| ==> before[i].placementId == loc.placementId) ==>
          Stamped(s, loc, env, after[i]))
  }

  /** b is a with other locations, sealed. */
  ghost predicate Moved(D: Digest, a: StateRecord, b: StateRecord) {
    b == a.(locations := b.locations, semanticDigest := b.semanticDigest) && b.semanticDigest == D(b)
  }

  lemma MergedIsPlaced(s: EngineState, loc: StateLocation, env: Envelope, ls: seq<StateLocation>)
    requires env.coordinatorEpoch == s.authority.epoch
    ensures Placed(s, loc, env, ls, Merged(ls, StampLocation(loc, env)))
  {
    hide CountPlacement, At;
    PlacementCounted(ls, loc.placementId);
    assert At(ls, loc.placementId) == {} <==> |At(ls, loc.placementId)| == 0;
  }

  lemma NewLocationsSealed(D: Digest, a: StateRecord, ls: seq<StateLocation>)
    requires IgnoresUnhashed(D)
    ensures Moved(D, a, WithLocations(D, a, ls)) && WithLocations(D, a, ls).locations == ls
  {
    hide IgnoresUnhashed;
    LocationsSealed(D, a, ls);
  }

  /** An accepted addition puts the stamped location in the state's current record and counts what it replaced,
      or one location and one replica. */
  lemma AdditionEffect(D: Digest, s: EngineState, state: u64, loc: StateLocation, env: Envelope)
    requires IgnoresUnhashed(D) && Shape(s) && AddLocation(D, s, state, loc, env).verdict == Accepted
    ensures state in s.current && s.current[state] in s.records
    ensures
      var t, id := AddLocation(D, s, state, loc, env).state, s.current[state];
      var n := |At(s.records[id].locations, loc.placementId)|;
      && id in t.records && Moved(D, s.records[id], t.records[id])
      && Placed(s, loc, env, s.records[id].locations, t.records[id].locations)
      && t == s.(records := s.records[id := t.records[id]],
                 accounting := s.accounting.(locations := s.accounting.locations + (if n == 0 then 1 else n),
                                             replicas := s.accounting.replicas + (if n == 0 then 1 else 0)))
  {
    hide IgnoresUnhashed, WithLocations, Merged, StampLocation, RegressesLocation, Placed, Moved, CountPlacement, At;
    var id := s.current[state];
    PlacementCounted(s.records[id].locations, loc.placementId);
    StampPlacement(loc, env);
    MergedIsPlaced(s, loc, env, s.records[id].locations);
    NewLocationsSealed(D, s.records[id], Merged(s.records[id].locations, StampLocation(loc, env)));
  }

  lemma StampPlacement(loc: StateLocation, env: Envelope)
    ensures StampLocation(loc, env).placementId == loc.placementId
  {
  }

  lemma {:induction false} DroppedElsewhere(ls: seq<StateLocation>, placement: u64)
    ensures At(ls, placement) == {} ==> DropPlacement(ls, placement) == ls
    ensures forall l :: l in DropPlacement(ls, placement) <==> l in ls && l.placementId != placement
    decreases |ls|
  {
    if ls != [] {
      var front := ls[..|ls| - 1];
      assert ls == front + [ls[|ls| - 1]];
      DroppedElsewhere(front, placement);
      assert At(front, placement) <= At(ls, placement);
      assert ls[|ls| - 1].placementId == placement ==> |front| in At(ls, placement);
    }
  }

  /** An accepted removal takes away every location at the placement and counts one location less, in 64 bits;
      with none there it changes nothing. */
  lemma RemovalEffect(D: Digest, s: EngineState, state: u64, placement: u64, env: Envelope)
    requires IgnoresUnhashed(D) && Shape(s) && RemoveLocation(D, s, state, placement, env).verdict == Accepted
    ensures state in s.current && s.current[state] in s.records
    ensures
      var t, id, n := RemoveLocation(D, s, state, placement, env).state, s.current[state], s.accounting.locations;
      if At(s.records[id].locations, placement) == {} then t == s
      else
        && id in t.records && Moved(D, s.records[id], t.records[id])
        && (forall l :: l in t.records[id].locations <==> l in s.records[id].locations && l.placementId != placement)
        && t == s.(records := s.records[id := t.records[id]],
                   accounting := s.accounting.(locations := if n > 0 then n - 1 else 0xFFFF_FFFF_FFFF_FFFF))
  {
    hide IgnoresUnhashed, WithLocations, DropPlacement, Moved, CountPlacement, At;
    var id := s.current[state];
    PlacementCounted(s.records[id].locations, placement);
    DroppedElsewhere(s.records[id].locations, placement);
    NewLocationsSealed(D, s.records[id], DropPlacement(s.records[id].locations, placement));
    assert At(s.records[id].locations, placement) == {} <==> |At(s.records[id].locations, placement)| == 0;
  }

  // -------- Invalidation --------

  /** The log entry of an invalidation. */
  predicate Logged(s: EngineState, inv: InvalidationRecord, env: Envelope, entry: InvalidationRecord) {
    && entry.invalidationSeq == (s.invalidationSeq + 1) % 0x1_0000_0000_0000_0000
    && entry.coordinatorEpoch == s.authority.epoch && entry.workerBoot == env.workerBoot
    && entry.recordGeneration == (if env.recordGeneration == 0 then inv.recordGeneration else env.recordGeneration)
    && entry == inv.(invalidationSeq := entry.invalidationSeq, coordinatorEpoch := entry.coordinatorEpoch,
                     workerBoot := entry.workerBoot, recordGeneration := entry.recordGeneration)
  }

  /** Does the invalidation reach this record? */
  predicate ReachedBy(inv: InvalidationRecord, r: StateRecord) {
    r.stateId == inv.stateId && r.stateGeneration <= inv.boundGeneration && r.lifecycle != INVALIDATED
  }

  lemma TargetsAreReached(s: EngineState, inv: InvalidationRecord, id: u64)
    requires Shape(s) && id in s.records
    ensures id in InvalidationTargets(s, inv.stateId, inv.boundGeneration) <==> ReachedBy(inv, s.records[id])
  {
  }

  lemma EntryLogged(D: Digest, s: EngineState, inv: InvalidationRecord, env: Envelope)
    requires env.coordinatorEpoch == s.authority.epoch
    ensures
      var t := InvalidationMarked(D, s, inv, env);
      && |t.invalidations| == |s.invalidations| + 1 && t.invalidations[..|s.invalidations|] == s.invalidations
      && Logged(s, inv, env, t.invalidations[|s.invalidations|])
      && t.invalidationSeq == t.invalidations[|s.invalidations|].invalidationSeq
      && t.accounting == s.accounting.(invalidations := s.accounting.invalidations + 1)
  {
    hide MarkAll, InvalidationTargets;
  }

  /** An accepted invalidation logs itself under the next number and retires exactly the records it reaches. */
  lemma InvalidationEffect(D: Digest, s: EngineState, inv: InvalidationRecord, env: Envelope, best: Option<u64>)
    requires IgnoresUnhashed(D) && Shape(s) && Invalidate(D, s, inv, env, best).verdict == Accepted
    ensures
      var t := Invalidate(D, s, inv, env, best).state;
      && |t.invalidations| == |s.invalidations| + 1 && t.invalidations[..|s.invalidations|] == s.invalidations
      && Logged(s, inv, env, t.invalidations[|s.invalidations|])
      && t.invalidationSeq == t.invalidations[|s.invalidations|].invalidationSeq
      && t.accounting.invalidations == s.accounting.invalidations + 1
      && t.records.Keys == s.records.Keys && t.tombstones == s.tombstones
      && forall id :: id in s.records ==>
           if ReachedBy(inv, s.records[id]) then Retired(D, s.records[id], t.records[id], INVALIDATED)
           else t.records[id] == s.records[id]
  {
    hide IgnoresUnhashed, Shape, InvalidationTargets, TouchHistory, Logged, Retired, ReachedBy, Marked, FindState;
    var t := Invalidate(D, s, inv, env, best).state;
    EntryLogged(D, s, inv, env);
    forall id | id in s.records
      ensures if ReachedBy(inv, s.records[id]) then Retired(D, s.records[id], t.records[id], INVALIDATED)
              else t.records[id] == s.records[id]
    {
      TargetsAreReached(s, inv, id);
      MarkedIsRetired(D, s.records[id], INVALIDATED);
    }
  }

  /** Could the record take over once everything up to the bound is invalidated? */
  predicate CouldFollow(s: EngineState, inv: InvalidationRecord, r: StateRecord) {
    && r.stateId == inv.stateId && r.stateGeneration > inv.boundGeneration
    && r.lifecycle in {DISCOVERED, AVAILABLE, DEGRADED}
    && !(r.stateId in s.tombstones && s.tombstones[r.stateId].current
         && 0 < r.stateGeneration <= s.tombstones[r.stateId].floorGeneration)
  }

  lemma PromotableMeaning(D: Digest, s: EngineState, inv: InvalidationRecord, env: Envelope, id: u64)
    requires Shape(s)
    ensures Promotable(InvalidationMarked(D, s, inv, env), inv.stateId, inv.boundGeneration, id)
      <==> id in s.records && CouldFollow(s, inv, s.records[id])
  {
    hide Marked;
    if id in s.records && s.records[id].stateGeneration <= inv.boundGeneration {
      KeepsGeneration(D, s.records[id]);
    }
  }

  lemma KeepsGeneration(D: Digest, r: StateRecord)
    ensures Marked(D, r, INVALIDATED).stateGeneration == r.stateGeneration
  {
  }

  /** The scan settles on a record of the highest generation that could follow, if any could. */
  predicate Follows(s: EngineState, inv: InvalidationRecord, best: Option<u64>) {
    match best
    case None => forall id :: id in s.records ==> !CouldFollow(s, inv, s.records[id])
    case Some(b) =>
      && b in s.records && CouldFollow(s, inv, s.records[b])
      && forall id :: id in s.records && CouldFollow(s, inv, s.records[id]) ==>
           s.records[id].stateGeneration <= s.records[b].stateGeneration
  }

  lemma BestFollows(D: Digest, s: EngineState, inv: InvalidationRecord, env: Envelope, best: Option<u64>)
    requires Shape(s)
    requires IsBestPromotable(InvalidationMarked(D, s, inv, env), inv.stateId, inv.boundGeneration, best)
    ensures Follows(s, inv, best)
  {
    hide Promotable, CouldFollow, InvalidationMarked, Shape;
    var m := InvalidationMarked(D, s, inv, env);
    forall id: u64 ensures Promotable(m, inv.stateId, inv.boundGeneration, id)
      <==> id in s.records && CouldFollow(s, inv, s.records[id])
    {
      PromotableMeaning(D, s, inv, env, id);
    }
    forall id | id in s.records && CouldFollow(s, inv, s.records[id])
      ensures id in m.records && m.records[id] == s.records[id]
    {
      AboveBoundSame(D, s, inv, env, id);
    }
  }

  lemma MarkingMovesNothing(D: Digest, s: EngineState, inv: InvalidationRecord, env: Envelope)
    ensures
      var m := InvalidationMarked(D, s, inv, env);
      && m.current == s.current && m.authority == s.authority && m.records.Keys == s.records.Keys
      && m.accounting.currentStates == s.accounting.currentStates
  {
    hide Marked, InvalidationTargets;
  }

  /** If an accepted invalidation reaches a record or finds a current one, the record of the highest generation that
      could follow becomes current and is counted, or the state is left without one; otherwise nothing moves. */
  lemma PromotionEffect(D: Digest, s: EngineState, inv: InvalidationRecord, env: Envelope, best: Option<u64>)
    requires Shape(s) && Invalidate(D, s, inv, env, best).verdict == Accepted
    requires IsBestPromotable(InvalidationMarked(D, s, inv, env), inv.stateId, inv.boundGeneration, best)
    ensures Follows(s, inv, best) && (best.Some? ==> best.value in s.records)
    ensures
      var t, state := Invalidate(D, s, inv, env, best).state, inv.stateId;
      var moves := (exists id :: id in s.records && ReachedBy(inv, s.records[id])) || inv.stateId in s.current;
      if moves && best.Some? then
        && t.current == s.current[state := best.value]
        && t.accounting.currentStates == s.accounting.currentStates + 1
        && t.authority.holders == s.authority.holders[
             state := Holder(s.records[best.value].stateGeneration, s.records[best.value].authorityBoot)]
      else
        && t.current == (if moves then s.current - {state} else s.current)
        && t.accounting.currentStates == s.accounting.currentStates
        && t.authority.holders == (if moves then s.authority.holders - {state} else s.authority.holders)
  {
    hide Follows, IsBestPromotable, InvalidationMarked, InvalidationTargets, ReachedBy, TouchHistory, CouldFollow,
         Shape, FindState, InvalidationVerdict;
    FoundIffCurrent(s, inv.stateId);
    BestFollows(D, s, inv, env, best);
    MarkingMovesNothing(D, s, inv, env);
    TargetsExist(s, inv);
    FollowerCouldFollow(s, inv, best);
    if best.Some? {
      AboveBoundSame(D, s, inv, env, best.value);
    }
  }

  lemma FoundIffCurrent(s: EngineState, state: u64)
    requires Shape(s)
    ensures FindState(s, state).Some? <==> state in s.current
  {
  }

  lemma FollowerCouldFollow(s: EngineState, inv: InvalidationRecord, best: Option<u64>)
    requires Follows(s, inv, best)
    ensures best.Some? ==> best.value in s.records && CouldFollow(s, inv, s.records[best.value])
  {
    hide CouldFollow;
  }

  lemma AboveBoundSame(D: Digest, s: EngineState, inv: InvalidationRecord, env: Envelope, id: u64)
    requires Shape(s) && id in s.records && CouldFollow(s, inv, s.records[id])
    ensures id in InvalidationMarked(D, s, inv, env).records
    ensures InvalidationMarked(D, s, inv, env).records[id] == s.records[id]
    ensures s.records[id].recordId == id
  {
  }

  lemma TargetsExist(s: EngineState, inv: InvalidationRecord)
    requires Shape(s)
    ensures InvalidationTargets(s, inv.stateId, inv.boundGeneration) != {}
      <==> exists id :: id in s.records && ReachedBy(inv, s.records[id])
  {
    if id :| id in s.records && ReachedBy(inv, s.records[id]) {
      assert id in InvalidationTargets(s, inv.stateId, inv.boundGeneration);
    }
    if id :| id in InvalidationTargets(s, inv.stateId, inv.boundGeneration) {
      assert id in s.records && ReachedBy(inv, s.records[id]);
    }
  }

  // -------- Tombstone --------

  /** An accepted tombstone is stored with the sender's boot and the present epoch, sets the floor, and retires
      exactly the records of its state at or below the floor. */
  lemma TombstoneFields(D: Digest, s: EngineState, t: TombstoneRecord, env: Envelope)
    requires IgnoresUnhashed(D) && Shape(s) && Tombstone(D, s, t, env).verdict == Accepted
    ensures
      var u := Tombstone(D, s, t, env).state;
      && u.tombstones
         == s.tombstones[t.stateId := t.(coordinatorEpoch := s.authority.epoch, workerBoot := env.workerBoot)]
      && u.authority.floors == s.authority.floors[t.stateId := t.floorGeneration]
      && u.accounting == s.accounting.(tombstones := s.accounting.tombstones + 1)
      && u.records.Keys == s.records.Keys && u.invalidations == s.invalidations
      && forall id :: id in s.records ==>
           var r := s.records[id];
           if r.stateId == t.stateId && r.stateGeneration <= t.floorGeneration && r.lifecycle != TOMBSTONED
           then Retired(D, r, u.records[id], TOMBSTONED)
           else u.records[id] == r
  {
    hide IgnoresUnhashed, Shape, TombstoneTargets, TouchHistory, Retired, Marked, FindState, Tombstoned;
    forall id | id in s.records
      ensures Retired(D, s.records[id], Marked(D, s.records[id], TOMBSTONED), TOMBSTONED)
      ensures id in TombstoneTargets(s, t.stateId, t.floorGeneration) <==>
        && s.records[id].stateId == t.stateId && s.records[id].stateGeneration <= t.floorGeneration
        && s.records[id].lifecycle != TOMBSTONED
    {
      MarkedIsRetired(D, s.records[id], TOMBSTONED);
      BuriedTargets(s, t, id);
    }
  }

  lemma BuriedTargets(s: EngineState, t: TombstoneRecord, id: u64)
    requires Shape(s) && id in s.records
    ensures id in TombstoneTargets(s, t.stateId, t.floorGeneration) <==>
      && s.records[id].stateId == t.stateId && s.records[id].stateGeneration <= t.floorGeneration
      && s.records[id].lifecycle != TOMBSTONED
  {
  }
}
