/** What every mutation keeps. */
module Invariants {
  import opened Basics
  import opened ByteBuf
  import opened Model
  import opened Authority
  import opened Transitions

  // -------- The invariant --------

  /** Records, histories, current records and tombstones refer to each other consistently; every
      history lists exactly the records of its state. */
  ghost predicate Shape(s: EngineState) {
    && (forall id :: id in s.records ==> s.records[id].recordId == id)
    && (forall state, id :: id in HistoryOf(s, state) ==> id in s.records && s.records[id].stateId == state)
    && (forall id :: id in s.records ==> id in HistoryOf(s, s.records[id].stateId))
    && (forall state :: state in s.current ==>
          s.current[state] in s.records && s.records[s.current[state]].stateId == state)
    && (forall state :: state in s.tombstones ==> s.tombstones[state].stateId == state)
  }

  /** The batch rule of recovery: exactly the states with an eligible record have a current record,
      and it is an eligible one of the highest generation. */
  ghost predicate IsBatchCurrent(records: map<u64, StateRecord>, tombstones: map<u64, TombstoneRecord>,
                                 current: map<u64, u64>) {
    && (forall state :: state in current ==>
          && current[state] in records && records[current[state]].stateId == state
          && EligibleRecord(tombstones, records[current[state]]))
    && (forall id :: id in records && EligibleRecord(tombstones, records[id]) ==>
          && records[id].stateId in current
          && current[records[id].stateId] in records
          && records[id].stateGeneration <= records[current[records[id].stateId]].stateGeneration)
  }

  ghost predicate CurrentIsBatch(s: EngineState) {
    IsBatchCurrent(s.records, s.tombstones, s.current)
  }

  ghost predicate GenerationsSet(s: EngineState) {
    forall id :: id in s.records ==> s.records[id].stateGeneration != 0
  }

  ghost predicate TombstonesCurrent(s: EngineState) {
    forall state :: state in s.tombstones ==> s.tombstones[state].current
  }

  ghost predicate DigestsMatch(D: Digest, s: EngineState) {
    forall id :: id in s.records ==> s.records[id].semanticDigest == D(s.records[id])
  }

  ghost function TotalLocations(records: map<u64, StateRecord>): nat {
    if records == map[] then 0
    else
      var id :| id in records;
      |records[id].locations| + TotalLocations(records - {id})
  }

  ghost predicate CounterCovers(s: EngineState) {
    s.accounting.locations >= TotalLocations(s.records)
  }

  ghost predicate Inv(D: Digest, s: EngineState) {
    && Shape(s) && CurrentIsBatch(s) && GenerationsSet(s) && TombstonesCurrent(s)
    && DigestsMatch(D, s) && CounterCovers(s)
  }

  function Resealed(r: StateRecord, d: Text, historical: bool): StateRecord {
    r.(semanticDigest := d, isHistorical := historical)
  }

  /** A digest that reads neither the stored digest nor what the byte format leaves out. */
  ghost predicate IgnoresUnhashed(D: Digest) {
    && (forall r: StateRecord, d: Text, b: bool {:trigger Resealed(r, d, b)} :: D(Resealed(r, d, b)) == D(r))
    && (forall r: StateRecord {:trigger r.Persisted()} :: D(r.Persisted()) == D(r))
  }

  // -------- Totals --------

  lemma {:induction false} TotalWithout(records: map<u64, StateRecord>, id: u64)
    requires id in records
    ensures TotalLocations(records) == |records[id].locations| + TotalLocations(records - {id})
    decreases |records|
  {
    var pick :| pick in records
      && TotalLocations(records) == |records[pick].locations| + TotalLocations(records - {pick});
    if pick != id {
      TotalWithout(records - {pick}, id);
      TotalWithout(records - {id}, pick);
      assert records - {pick} - {id} == records - {id} - {pick};
    }
  }

  lemma TotalOfUpdate(records: map<u64, StateRecord>, id: u64, rec: StateRecord)
    ensures id !in records ==> TotalLocations(records[id := rec]) == TotalLocations(records) + |rec.locations|
    ensures id in records ==>
      TotalLocations(records[id := rec]) + |records[id].locations| == TotalLocations(records) + |rec.locations|
  {
    var updated := records[id := rec];
    TotalWithout(updated, id);
    assert updated - {id} == records - {id};
    if id in records {
      TotalWithout(records, id);
    } else {
      assert records - {id} == records;
    }
  }

  lemma {:induction false} TotalOfSameSizes(a: map<u64, StateRecord>, b: map<u64, StateRecord>)
    requires a.Keys == b.Keys && forall id :: id in a ==> |a[id].locations| == |b[id].locations|
    ensures TotalLocations(a) == TotalLocations(b)
    decreases |a|
  {
    if a == map[] {
      assert b == map[];
    } else {
      var id :| id in a;
      TotalWithout(a, id);
      TotalWithout(b, id);
      TotalOfSameSizes(a - {id}, b - {id});
    }
  }

  // -------- Small facts about the location lists --------

  lemma {:induction false} DropShortens(ls: seq<StateLocation>, placement: u64)
    ensures |DropPlacement(ls, placement)| + CountPlacement(ls, placement) == |ls|
    decreases |ls|
  {
    if ls != [] {
      DropShortens(ls[..|ls| - 1], placement);
    }
  }

  lemma {:induction false} DroppedMeaning(ls: seq<StateLocation>, placement: u64)
    ensures forall l :: l in DropPlacement(ls, placement) <==> l in ls && l.placementId != placement
    decreases |ls|
  {
    if ls != [] {
      var front := ls[..|ls| - 1];
      DroppedMeaning(front, placement);
      assert ls == front + [ls[|ls| - 1]];
    }
  }

  lemma {:induction false} DroppedTwice(ls: seq<StateLocation>, placement: u64)
    ensures DropPlacement(DropPlacement(ls, placement), placement) == DropPlacement(ls, placement)
    decreases |ls|
  {
    if ls != [] {
      var front := DropPlacement(ls[..|ls| - 1], placement);
      DroppedTwice(ls[..|ls| - 1], placement);
      assert (front + [ls[|ls| - 1]])[..|front|] == front;
      assert front + [] == front;
    }
  }

  lemma {:induction false} ReplacingDrops(ls: seq<StateLocation>, loc: StateLocation)
    ensures DropPlacement(ReplacePlacement(ls, loc), loc.placementId) == DropPlacement(ls, loc.placementId)
    ensures CountPlacement(ls, loc.placementId) > 0 ==> loc in ReplacePlacement(ls, loc)
    decreases |ls|
  {
    if ls != [] {
      var front := ls[..|ls| - 1];
      ReplacingDrops(front, loc);
      var replaced := ReplacePlacement(ls, loc);
      assert replaced[..|ls| - 1] == ReplacePlacement(front, loc);
      assert replaced == ReplacePlacement(front, loc) + [replaced[|ls| - 1]];
    }
  }

  lemma MergedMeaning(ls: seq<StateLocation>, loc: StateLocation)
    ensures loc in Merged(ls, loc)
    ensures forall l :: l in Merged(ls, loc) && l.placementId == loc.placementId ==> l == loc
    ensures DropPlacement(Merged(ls, loc), loc.placementId) == DropPlacement(ls, loc.placementId)
  {
    hide DropPlacement, CountPlacement;
    ReplacingDrops(ls, loc);
    AppendingDrops(ReplacePlacement(ls, loc), loc);
    assert ReplacePlacement(ls, loc) + [] == ReplacePlacement(ls, loc);
  }

  lemma AppendingDrops(ls: seq<StateLocation>, loc: StateLocation)
    ensures DropPlacement(ls + [loc], loc.placementId) == DropPlacement(ls, loc.placementId)
  {
    assert (ls + [loc])[..|ls|] == ls;
  }

  // -------- register_state --------

  /** Is the record accepted for publication? */
  predicate Publishes(D: Digest, s: EngineState, rec: StateRecord, env: Envelope) {
    RegisterState(D, s, rec, env).verdict == Accepted
  }

  /** Does an accepted record take the place of the current one? */
  predicate Supersedes(s: EngineState, rec: StateRecord) {
    && rec.stateId in s.current && s.current[rec.stateId] in s.records
    && s.records[s.current[rec.stateId]].stateGeneration < rec.stateGeneration
  }

  /** Does an accepted record become current? */
  predicate BecomesCurrent(s: EngineState, rec: StateRecord) {
    rec.stateId !in s.current || Supersedes(s, rec)
  }

  lemma PublishGuards(D: Digest, s: EngineState, rec: StateRecord, env: Envelope)
    requires Publishes(D, s, rec, env)
    ensures rec.recordId !in s.records && rec.stateGeneration != 0
    ensures !Tombstoned(s.tombstones, rec.stateId, rec.stateGeneration)
    ensures
      var r := Published(D, rec, env);
      var s1 := SetCurrent(D, s.(records := s.records[r.recordId := r]), r);
      RegisterState(D, s, rec, env).state == s1.(accounting := CountPublished(s.accounting, r))
  {
  }

  /** An accepted publication, part by part. */
  lemma RegisterEffect(D: Digest, s: EngineState, rec: StateRecord, env: Envelope)
    requires Shape(s) && Publishes(D, s, rec, env)
    ensures rec.recordId !in s.records && rec.stateGeneration != 0
    ensures !Tombstoned(s.tombstones, rec.stateId, rec.stateGeneration)
    ensures
      var t, r := RegisterState(D, s, rec, env).state, Published(D, rec, env);
      var added := s.records[rec.recordId := r];
      && t.tombstones == s.tombstones && t.invalidations == s.invalidations
      && t.invalidationSeq == s.invalidationSeq
      && t.history == PushHistory(s.history, rec.stateId, rec.recordId)
      && t.accounting == CountPublished(s.accounting, r)
      && t.current == (if BecomesCurrent(s, rec) then s.current[rec.stateId := rec.recordId] else s.current)
      && t.authority == (if BecomesCurrent(s, rec)
                         then s.authority.SetHolder(rec.stateId, rec.stateGeneration, env.workerBoot) else s.authority)
      && t.records == (if Supersedes(s, rec)
                       then added[s.current[rec.stateId] := Marked(D, s.records[s.current[rec.stateId]], SUPERSEDED)]
                       else added)
  {
    PublishGuards(D, s, rec, env);
    var r := Published(D, rec, env);
    assert rec.stateId in s.current ==> s.current[rec.stateId] != r.recordId;
  }

  /** Adding a record to its history and changing others only in what Shape does not read. */
  lemma ShapeWithNew(s: EngineState, t: EngineState, id: u64, state: u64)
    requires Shape(s) && id !in s.records && t.records.Keys == s.records.Keys + {id}
    requires forall i :: i in s.records ==>
      t.records[i].recordId == s.records[i].recordId && t.records[i].stateId == s.records[i].stateId
    requires t.records[id].recordId == id && t.records[id].stateId == state
    requires t.history == PushHistory(s.history, state, id) && t.tombstones == s.tombstones
    requires t.current == s.current || t.current == s.current[state := id]
    ensures Shape(t)
  {
    assert forall x :: HistoryOf(t, x) == if x == state then HistoryOf(s, x) + {id} else HistoryOf(s, x);
    forall x, i | i in HistoryOf(t, x) ensures i in t.records && t.records[i].stateId == x {
      if i != id {
        assert i in HistoryOf(s, x);
      }
    }
    forall i | i in t.records ensures t.records[i].recordId == i && i in HistoryOf(t, t.records[i].stateId) {
      if i != id {
        assert i in HistoryOf(s, s.records[i].stateId);
      }
    }
  }

  lemma RegisterKeepsShape(D: Digest, s: EngineState, rec: StateRecord, env: Envelope)
    requires Shape(s) && Publishes(D, s, rec, env)
    ensures Shape(RegisterState(D, s, rec, env).state)
  {
    hide RegisterState, Publishes, PushHistory, HistoryOf, CountPublished, Tombstoned;
    RegisterEffect(D, s, rec, env);
    ShapeWithNew(s, RegisterState(D, s, rec, env).state, rec.recordId, rec.stateId);
  }

  /** The first record of a state, or one after its current record was cleared. */
  lemma BatchWithFirst(records: map<u64, StateRecord>, T: map<u64, TombstoneRecord>, current: map<u64, u64>,
                       r: StateRecord)
    requires IsBatchCurrent(records, T, current)
    requires r.recordId !in records && r.stateId !in current && EligibleRecord(T, r)
    ensures IsBatchCurrent(records[r.recordId := r], T, current[r.stateId := r.recordId])
  {
  }

  /** A higher generation takes over, and the record it replaces leaves eligibility. */
  lemma BatchWithSuccessor(records: map<u64, StateRecord>, T: map<u64, TombstoneRecord>, current: map<u64, u64>,
                           r: StateRecord, m: StateRecord)
    requires IsBatchCurrent(records, T, current)
    requires r.recordId !in records && r.stateId in current && EligibleRecord(T, r)
    requires records[current[r.stateId]].stateGeneration < r.stateGeneration
    requires m.stateId == r.stateId && m.Terminal()
    ensures IsBatchCurrent(records[r.recordId := r][current[r.stateId] := m], T, current[r.stateId := r.recordId])
  {
    var after := records[r.recordId := r][current[r.stateId] := m];
    forall id | id in after && EligibleRecord(T, after[id])
      ensures && after[id].stateId in current[r.stateId := r.recordId]
              && current[r.stateId := r.recordId][after[id].stateId] in after
              && after[id].stateGeneration <= after[current[r.stateId := r.recordId][after[id].stateId]].stateGeneration
    {
      if id != r.recordId {
        assert after[id] == records[id];
      }
    }
  }

  /** A record no newer than the current one is only kept. */
  lemma BatchWithOlder(records: map<u64, StateRecord>, T: map<u64, TombstoneRecord>, current: map<u64, u64>,
                       r: StateRecord)
    requires IsBatchCurrent(records, T, current)
    requires r.recordId !in records && r.stateId in current
    requires r.stateGeneration <= records[current[r.stateId]].stateGeneration
    ensures IsBatchCurrent(records[r.recordId := r], T, current)
  {
  }

  /** Publishing keeps the batch rule exactly when the record is fit to be current or does not become
      current; a caller that only publishes records outside the terminal lifecycles never breaks it. */
  lemma RegisterKeepsBatch(D: Digest, s: EngineState, rec: StateRecord, env: Envelope)
    requires Shape(s) && CurrentIsBatch(s) && Publishes(D, s, rec, env)
    ensures CurrentIsBatch(RegisterState(D, s, rec, env).state) <==> !rec.Terminal() || !BecomesCurrent(s, rec)
  {
    RegisterEffect(D, s, rec, env);
    var r := Published(D, rec, env);
    assert r.Terminal() == rec.Terminal();
    if Supersedes(s, rec) {
      var m := Marked(D, s.records[s.current[rec.stateId]], SUPERSEDED);
      if !r.Terminal() {
        BatchWithSuccessor(s.records, s.tombstones, s.current, r, m);
      }
    } else if rec.stateId in s.current {
      BatchWithOlder(s.records, s.tombstones, s.current, r);
    } else if !r.Terminal() {
      BatchWithFirst(s.records, s.tombstones, s.current, r);
    }
  }

  lemma RegisterKeepsDigests(D: Digest, s: EngineState, rec: StateRecord, env: Envelope)
    requires IgnoresUnhashed(D) && Shape(s) && DigestsMatch(D, s) && Publishes(D, s, rec, env)
    ensures DigestsMatch(D, RegisterState(D, s, rec, env).state)
  {
    RegisterEffect(D, s, rec, env);
    PublishedSealed(D, rec, env);
    if Supersedes(s, rec) {
      MarkedSealed(D, s.records[s.current[rec.stateId]], SUPERSEDED);
    }
  }

  lemma RegisterKeepsCounter(D: Digest, s: EngineState, rec: StateRecord, env: Envelope)
    requires Shape(s) && CounterCovers(s) && Publishes(D, s, rec, env)
    ensures CounterCovers(RegisterState(D, s, rec, env).state)
  {
    RegisterEffect(D, s, rec, env);
    var t, r := RegisterState(D, s, rec, env).state, Published(D, rec, env);
    TotalOfUpdate(s.records, rec.recordId, r);
    TotalOfSameSizes(t.records, s.records[rec.recordId := r]);
  }

  lemma MarkedSealed(D: Digest, rec: StateRecord, lifecycle: u8)
    requires IgnoresUnhashed(D)
    ensures Marked(D, rec, lifecycle).semanticDigest == D(Marked(D, rec, lifecycle))
  {
    var u := rec.(lifecycle := lifecycle, isHistorical := true);
    assert Marked(D, rec, lifecycle) == Resealed(u, D(u), true);
  }

  lemma PublishedSealed(D: Digest, rec: StateRecord, env: Envelope)
    requires IgnoresUnhashed(D)
    ensures Published(D, rec, env).semanticDigest == D(Published(D, rec, env))
  {
    var d := rec.descriptor.(authorityEpoch := env.coordinatorEpoch,
                             recordGeneration := if env.recordGeneration != 0 then env.recordGeneration
                                                 else rec.descriptor.recordGeneration);
    var r := rec.(authorityBoot := env.workerBoot, descriptor := d);
    assert Published(D, rec, env) == Resealed(r, D(r), false);
  }

  /** A refused publication changes a rejection counter and nothing else. */
  lemma RegisterRefused(D: Digest, s: EngineState, rec: StateRecord, env: Envelope)
    requires !Publishes(D, s, rec, env)
    ensures
      var t := RegisterState(D, s, rec, env).state;
      t == s.(accounting := CountStale(s.accounting)) || t == s.(accounting := CountDuplicate(s.accounting))
  {
  }

  lemma AccountingAside(D: Digest, s: EngineState, a: Accounting)
    requires Inv(D, s) && a.locations == s.accounting.locations
    ensures Inv(D, s.(accounting := a))
  {
    ShapeReadsLittle(s, s.(accounting := a));
  }

  lemma RegisterKeepsMarks(D: Digest, s: EngineState, rec: StateRecord, env: Envelope)
    requires Shape(s) && GenerationsSet(s) && TombstonesCurrent(s) && Publishes(D, s, rec, env)
    ensures GenerationsSet(RegisterState(D, s, rec, env).state)
      && TombstonesCurrent(RegisterState(D, s, rec, env).state)
  {
    RegisterEffect(D, s, rec, env);
  }

  lemma InvOfParts(D: Digest, s: EngineState)
    requires Shape(s) && CurrentIsBatch(s) && GenerationsSet(s) && TombstonesCurrent(s)
    requires DigestsMatch(D, s) && CounterCovers(s)
    ensures Inv(D, s)
  {
  }

  /** A publication keeps the invariant exactly when it is refused, or the record is fit to be current or does
      not become current. */
  lemma RegisterKeepsInv(D: Digest, s: EngineState, rec: StateRecord, env: Envelope)
    requires IgnoresUnhashed(D) && Inv(D, s)
    ensures Inv(D, RegisterState(D, s, rec, env).state)
      <==> (Publishes(D, s, rec, env) ==> !rec.Terminal() || !BecomesCurrent(s, rec))
  {
    hide Shape, IsBatchCurrent, GenerationsSet, TombstonesCurrent, DigestsMatch, CounterCovers, IgnoresUnhashed,
         RegisterState, BecomesCurrent;
    if Publishes(D, s, rec, env) {
      RegisterKeepsShape(D, s, rec, env);
      RegisterKeepsBatch(D, s, rec, env);
      RegisterKeepsDigests(D, s, rec, env);
      RegisterKeepsCounter(D, s, rec, env);
      RegisterKeepsMarks(D, s, rec, env);
    } else {
      RegisterRefused(D, s, rec, env);
      AccountingAside(D, s, CountStale(s.accounting));
      AccountingAside(D, s, CountDuplicate(s.accounting));
    }
  }

  // -------- add_location and remove_location --------

  lemma LocationsSealed(D: Digest, rec: StateRecord, ls: seq<StateLocation>)
    requires IgnoresUnhashed(D)
    ensures WithLocations(D, rec, ls).semanticDigest == D(WithLocations(D, rec, ls))
  {
    var u := rec.(locations := ls);
    assert WithLocations(D, rec, ls) == Resealed(u, D(u), u.isHistorical);
  }

  /** The batch rule reads only states, generations and lifecycles. */
  lemma BatchReadsLittle(before: map<u64, StateRecord>, after: map<u64, StateRecord>,
                         T: map<u64, TombstoneRecord>, current: map<u64, u64>)
    requires before.Keys == after.Keys
    requires forall id :: id in before ==>
      && after[id].stateId == before[id].stateId && after[id].stateGeneration == before[id].stateGeneration
      && after[id].lifecycle == before[id].lifecycle
    ensures IsBatchCurrent(before, T, current) <==> IsBatchCurrent(after, T, current)
  {
    assert forall id :: id in before ==> EligibleRecord(T, before[id]) == EligibleRecord(T, after[id]);
  }

  lemma ShapeReadsLittle(s: EngineState, t: EngineState)
    requires Shape(s) && t.records.Keys == s.records.Keys
    requires forall id :: id in s.records ==>
      t.records[id].recordId == s.records[id].recordId && t.records[id].stateId == s.records[id].stateId
    requires t.tombstones == s.tombstones && t.current == s.current
    requires forall state :: HistoryOf(t, state) == HistoryOf(s, state)
    ensures Shape(t)
  {
  }

  /** t is s with one record's locations replaced, and enough counted for them. */
  ghost predicate Relocated(D: Digest, s: EngineState, t: EngineState, id: u64, u: StateRecord) {
    && id in s.records && u.semanticDigest == D(u)
    && u.recordId == id && u.stateId == s.records[id].stateId
    && u.stateGeneration == s.records[id].stateGeneration && u.lifecycle == s.records[id].lifecycle
    && t.accounting.locations + |s.records[id].locations| >= s.accounting.locations + |u.locations|
    && t == s.(records := s.records[id := u], accounting := t.accounting)
  }

  lemma RelocationKeepsRecords(D: Digest, s: EngineState, t: EngineState, id: u64, u: StateRecord)
    requires Shape(s) && CurrentIsBatch(s) && Relocated(D, s, t, id, u)
    ensures Shape(t) && CurrentIsBatch(t)
  {
    BatchReadsLittle(s.records, t.records, s.tombstones, s.current);
    ShapeReadsLittle(s, t);
  }

  /** Replacing the locations of one record touches nothing the invariant reads but the totals. */
  lemma RelocationKeepsInv(D: Digest, s: EngineState, t: EngineState, id: u64, u: StateRecord)
    requires Inv(D, s) && Relocated(D, s, t, id, u)
    ensures Inv(D, t)
  {
    RelocationKeepsRecords(D, s, t, id, u);
    TotalOfUpdate(s.records, id, u);
    InvOfParts(D, t);
  }

  lemma AddLocationKeepsInv(D: Digest, s: EngineState, state: u64, loc: StateLocation, env: Envelope)
    requires IgnoresUnhashed(D) && Inv(D, s)
    ensures Inv(D, AddLocation(D, s, state, loc, env).state)
  {
    var o := AddLocation(D, s, state, loc, env);
    if o.verdict == Accepted {
      var id := s.current[state];
      LocationsSealed(D, s.records[id], o.state.records[id].locations);
      RelocationKeepsInv(D, s, o.state, id, o.state.records[id]);
    }
  }

  /** The counter is never zero when a removal decrements it. */
  lemma RemovalNeverWraps(D: Digest, s: EngineState, state: u64, placement: u64, env: Envelope)
    requires Inv(D, s)
    ensures
      var t := RemoveLocation(D, s, state, placement, env).state;
      t == s || (s.accounting.locations > 0 && t.accounting.locations == s.accounting.locations - 1)
  {
    if FindState(s, state).Some? && CountPlacement(FindState(s, state).value.locations, placement) > 0 {
      TotalWithout(s.records, s.current[state]);
    }
  }

  lemma RemoveLocationKeepsInv(D: Digest, s: EngineState, state: u64, placement: u64, env: Envelope)
    requires IgnoresUnhashed(D) && Inv(D, s)
    ensures Inv(D, RemoveLocation(D, s, state, placement, env).state)
  {
    var t := RemoveLocation(D, s, state, placement, env).state;
    if t != s {
      var id := s.current[state];
      DropShortens(s.records[id].locations, placement);
      RemovalNeverWraps(D, s, state, placement, env);
      LocationsSealed(D, s.records[id], t.records[id].locations);
      RelocationKeepsInv(D, s, t, id, t.records[id]);
    }
  }
}
