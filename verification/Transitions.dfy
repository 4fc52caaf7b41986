/** The engine's state, without its secondary indexes, and the effect of every mutation on it.

    The semantic digest is a parameter D: any function of a record. Histories are kept as the set of
    record ids, since nothing depends on their order. */
module Transitions {
  import opened Basics
  import opened ByteBuf
  import opened Model
  import opened Authority

  type Digest = StateRecord -> Text

  datatype EngineState = EngineState(
    authority: Registry,
    accounting: Accounting,
    records: map<u64, StateRecord>,
    current: map<u64, u64>,
    history: map<u64, set<u64>>,
    invalidations: seq<InvalidationRecord>,
    tombstones: map<u64, TombstoneRecord>,
    invalidationSeq: u64
  )

  datatype Outcome = Outcome(state: EngineState, verdict: Verdict)

  function FreshEngine(epoch: u64): EngineState {
    EngineState(Registry(epoch, map[], map[], map[]), NO_ACCOUNTING, map[], map[], map[], [], map[], 0)
  }

  // -------- Lookups --------

  function RecordWith(records: map<u64, StateRecord>, id: u64): Option<StateRecord> {
    if id in records then Some(records[id]) else None
  }

  /** The current record of a state, if the table has it. */
  function CurrentOf(records: map<u64, StateRecord>, current: map<u64, u64>, state: u64): Option<StateRecord> {
    if state in current then RecordWith(records, current[state]) else None
  }

  predicate IsCurrent(current: map<u64, u64>, rec: StateRecord) {
    rec.stateId in current && current[rec.stateId] == rec.recordId
  }

  function FindState(s: EngineState, state: u64): Option<StateRecord> {
    CurrentOf(s.records, s.current, state)
  }

  function HistoryOf(s: EngineState, state: u64): set<u64> {
    if state in s.history then s.history[state] else {}
  }

  predicate Tombstoned(tombstones: map<u64, TombstoneRecord>, state: u64, generation: u64) {
    state in tombstones && tombstones[state].Covers(generation)
  }

  /** Can this record be current? */
  predicate EligibleRecord(tombstones: map<u64, TombstoneRecord>, rec: StateRecord) {
    !rec.Terminal() && !Tombstoned(tombstones, rec.stateId, rec.stateGeneration)
  }

  // -------- Records --------

  /** Moved to a terminal lifecycle and sealed with a new digest. */
  function Marked(D: Digest, rec: StateRecord, lifecycle: u8): StateRecord {
    var u := rec.(lifecycle := lifecycle, isHistorical := true);
    u.(semanticDigest := D(u))
  }

  function MarkAll(D: Digest, records: map<u64, StateRecord>, ids: set<u64>, lifecycle: u8): (r: map<u64, StateRecord>)
    ensures r.Keys == records.Keys
  {
    map id | id in records :: if id in ids then Marked(D, records[id], lifecycle) else records[id]
  }

  /** The record as it is stored on publication. */
  function Published(D: Digest, rec: StateRecord, env: Envelope): StateRecord {
    var d := rec.descriptor.(authorityEpoch := env.coordinatorEpoch,
                             recordGeneration := if env.recordGeneration != 0 then env.recordGeneration
                                                 else rec.descriptor.recordGeneration);
    var r := rec.(authorityBoot := env.workerBoot, descriptor := d);
    r.(semanticDigest := D(r), isHistorical := false)
  }

  function WithLocations(D: Digest, rec: StateRecord, locations: seq<StateLocation>): StateRecord {
    var u := rec.(locations := locations);
    u.(semanticDigest := D(u))
  }

  // -------- Counters --------

  function CountDomains(ls: seq<StateLocation>, domains: set<u8>): nat {
    if ls == [] then 0 else CountDomains(ls[..|ls| - 1], domains) + if ls[|ls| - 1].domain in domains then 1 else 0
  }

  const HOST_DOMAINS: set<u8> := {HOST_MEMORY, HOST_PINNED}
  const STORAGE_DOMAINS: set<u8> := {LOCAL_FILESYSTEM, LOCAL_NVME_CLASS, SHARED_FILESYSTEM_CLASS, OBJECT_STORAGE_CLASS}

  function CountPublished(a: Accounting, rec: StateRecord): Accounting {
    a.(logicalStates := a.logicalStates + 1,
       currentStates := a.currentStates + 1,
       dependencies := a.dependencies + |rec.descriptor.dependencies|,
       locations := a.locations + |rec.locations|,
       replicas := a.replicas + |rec.locations|,
       cudaLocations := a.cudaLocations + CountDomains(rec.locations, {CUDA_DEVICE}),
       hostLocations := a.hostLocations + CountDomains(rec.locations, HOST_DOMAINS),
       storageLocations := a.storageLocations + CountDomains(rec.locations, STORAGE_DOMAINS))
  }

  /** An unsigned decrement: below zero it wraps to the largest 64-bit value. */
  function Decrement(n: nat): nat {
    if n == 0 then MAX_U64 else n - 1
  }

  function CountStale(a: Accounting): Accounting {
    a.(staleMutationRejections := a.staleMutationRejections + 1)
  }

  function CountDuplicate(a: Accounting): Accounting {
    a.(duplicateMutationRejections := a.duplicateMutationRejections + 1)
  }

  // -------- register_state --------

  function PushHistory(history: map<u64, set<u64>>, state: u64, id: u64): map<u64, set<u64>> {
    history[state := (if state in history then history[state] else {}) + {id}]
  }

  /** history_[state] creates the entry it reads. */
  function TouchHistory(history: map<u64, set<u64>>, state: u64): map<u64, set<u64>> {
    if state in history then history else history[state := {}]
  }

  function SetCurrent(D: Digest, s: EngineState, rec: StateRecord): EngineState {
    var state := rec.stateId;
    var held := s.authority.SetHolder(state, rec.stateGeneration, rec.authorityBoot);
    if state in s.current && s.current[state] == rec.recordId then
      s.(authority := held)
    else
      var s1 := s.(history := PushHistory(s.history, state, rec.recordId));
      if state !in s.current then
        s1.(current := s.current[state := rec.recordId], authority := held)
      else
        var previous := RecordWith(s.records, s.current[state]);
        if previous.Some? && previous.value.stateGeneration < rec.stateGeneration then
          s1.(records := s.records[previous.value.recordId := Marked(D, previous.value, SUPERSEDED)],
              current := s.current[state := rec.recordId], authority := held)
        else
          s1
  }

  function RegisterState(D: Digest, s: EngineState, rec: StateRecord, env: Envelope): Outcome {
    var verdict := s.authority.Validate(rec.stateId, env, rec.stateGeneration);
    if verdict != Accepted then
      var counted :=
        if verdict == RejectedDuplicate then CountDuplicate(s.accounting) else CountStale(s.accounting);
      Outcome(s.(accounting := counted), verdict)
    else if rec.recordId in s.records then
      Outcome(s.(accounting := CountDuplicate(s.accounting)), RejectedDuplicate)
    else if rec.stateGeneration == 0 then
      Outcome(s.(accounting := CountStale(s.accounting)), RejectedGenerationRegression)
    else if Tombstoned(s.tombstones, rec.stateId, rec.stateGeneration) then
      Outcome(s.(accounting := CountStale(s.accounting)), RejectedTombstoned)
    else
      var r := Published(D, rec, env);
      var s1 := SetCurrent(D, s.(records := s.records[r.recordId := r]), r);
      Outcome(s1.(accounting := CountPublished(s.accounting, r)), Accepted)
  }

  // -------- add_location and remove_location --------

  /** Every location mutation, invalidation and tombstone starts with these two checks. */
  function CheckAuthority(s: EngineState, env: Envelope): Verdict {
    if env.coordinatorEpoch != s.authority.epoch then RejectedStaleEpoch
    else if env.workerBoot !in s.authority.live then RejectedStaleBoot
    else Accepted
  }

  predicate RegressesLocation(ls: seq<StateLocation>, loc: StateLocation, env: Envelope) {
    exists l :: l in ls && l.placementId == loc.placementId
                && env.locationGeneration != 0 && loc.locationGeneration <= l.locationGeneration
  }

  function StampLocation(loc: StateLocation, env: Envelope): StateLocation {
    loc.(authorityEpoch := env.coordinatorEpoch, authorityBoot := env.workerBoot,
         provenanceGeneration := if env.provenanceGeneration != 0 then env.provenanceGeneration
                                 else loc.provenanceGeneration)
  }

  function CountPlacement(ls: seq<StateLocation>, placement: u64): nat {
    if ls == [] then 0
    else CountPlacement(ls[..|ls| - 1], placement) + if ls[|ls| - 1].placementId == placement then 1 else 0
  }

  /** Every location at loc's placement becomes loc. */
  function ReplacePlacement(ls: seq<StateLocation>, loc: StateLocation): (r: seq<StateLocation>)
    ensures |r| == |ls|
  {
    seq(|ls|, i requires 0 <= i < |ls| => if ls[i].placementId == loc.placementId then loc else ls[i])
  }

  /** Every location at loc's placement becomes loc; if there is none, loc is appended. */
  function Merged(ls: seq<StateLocation>, loc: StateLocation): seq<StateLocation> {
    ReplacePlacement(ls, loc) + if CountPlacement(ls, loc.placementId) == 0 then [loc] else []
  }

  /** Each replacement counts as a location, and an appended one as a replica too. */
  function CountMerged(a: Accounting, ls: seq<StateLocation>, placement: u64): Accounting {
    var matches := CountPlacement(ls, placement);
    a.(locations := a.locations + if matches == 0 then 1 else matches,
       replicas := a.replicas + if matches == 0 then 1 else 0)
  }

  function DropPlacement(ls: seq<StateLocation>, placement: u64): seq<StateLocation> {
    if ls == [] then []
    else DropPlacement(ls[..|ls| - 1], placement)
         + if ls[|ls| - 1].placementId == placement then [] else [ls[|ls| - 1]]
  }

  function AddLocation(D: Digest, s: EngineState, state: u64, loc: StateLocation, env: Envelope): Outcome {
    var check := CheckAuthority(s, env);
    var found := FindState(s, state);
    if check != Accepted then Outcome(s, check)
    else if found.None? then Outcome(s, RejectedNotLive)
    else if RegressesLocation(found.value.locations, loc, env) then Outcome(s, RejectedGenerationRegression)
    else
      var rec, stamped := found.value, StampLocation(loc, env);
      Outcome(s.(records := s.records[rec.recordId := WithLocations(D, rec, Merged(rec.locations, stamped))],
                 accounting := CountMerged(s.accounting, rec.locations, stamped.placementId)), Accepted)
  }

  function RemoveLocation(D: Digest, s: EngineState, state: u64, placement: u64, env: Envelope): Outcome {
    var check := CheckAuthority(s, env);
    var found := FindState(s, state);
    if check != Accepted then Outcome(s, check)
    else if found.None? then Outcome(s, RejectedNotLive)
    else if CountPlacement(found.value.locations, placement) == 0 then Outcome(s, Accepted)
    else
      var rec := found.value;
      var locations := DropPlacement(rec.locations, placement);
      Outcome(s.(records := s.records[rec.recordId := WithLocations(D, rec, locations)],
                 accounting := s.accounting.(locations := Decrement(s.accounting.locations))), Accepted)
  }

  // -------- invalidate --------

  /** The records an invalidation marks: everything at or below the bound not yet invalidated. */
  function InvalidationTargets(s: EngineState, state: u64, bound: u64): set<u64> {
    set id | id in HistoryOf(s, state) && id in s.records
             && s.records[id].stateGeneration <= bound && s.records[id].lifecycle != INVALIDATED
  }

  predicate Promotable(s: EngineState, state: u64, bound: u64, id: u64) {
    && id in HistoryOf(s, state) && id in s.records
    && (var r := s.records[id];
        && (r.lifecycle == AVAILABLE || r.lifecycle == DEGRADED || r.lifecycle == DISCOVERED)
        && !Tombstoned(s.tombstones, r.stateId, r.stateGeneration)
        && r.stateGeneration > bound)
  }

  /** best is a promotable record of the highest generation, or there is none. */
  ghost predicate IsBestPromotable(s: EngineState, state: u64, bound: u64, best: Option<u64>) {
    match best
    case None => forall id :: !Promotable(s, state, bound, id)
    case Some(b) =>
      && Promotable(s, state, bound, b)
      && forall id :: Promotable(s, state, bound, id) ==> s.records[id].stateGeneration <= s.records[b].stateGeneration
  }

  function InvalidationVerdict(s: EngineState, inv: InvalidationRecord, env: Envelope): Verdict {
    var check := CheckAuthority(s, env);
    var found := FindState(s, inv.stateId);
    if check != Accepted then check
    else if found.Some? && found.value.stateGeneration > inv.boundGeneration then RejectedNonMonotonic
    else Accepted
  }

  /** The state once the invalidation is recorded and its targets are marked. */
  function InvalidationMarked(D: Digest, s: EngineState, inv: InvalidationRecord, env: Envelope): EngineState {
    var seqNo: u64 := if s.invalidationSeq == MAX_U64 then 0 else s.invalidationSeq + 1;
    var entry := inv.(invalidationSeq := seqNo, coordinatorEpoch := env.coordinatorEpoch, workerBoot := env.workerBoot,
                      recordGeneration := if env.recordGeneration != 0 then env.recordGeneration
                                          else inv.recordGeneration);
    s.(invalidations := s.invalidations + [entry],
       invalidationSeq := seqNo,
       accounting := s.accounting.(invalidations := s.accounting.invalidations + 1),
       records := MarkAll(D, s.records, InvalidationTargets(s, inv.stateId, inv.boundGeneration), INVALIDATED))
  }

  /** The whole effect, given the record that the promotion scan settled on. */
  function Invalidate(D: Digest, s: EngineState, inv: InvalidationRecord, env: Envelope, best: Option<u64>): Outcome {
    var verdict := InvalidationVerdict(s, inv, env);
    if verdict != Accepted then Outcome(s, verdict)
    else
      var s1 := InvalidationMarked(D, s, inv, env);
      if InvalidationTargets(s, inv.stateId, inv.boundGeneration) == {} && FindState(s, inv.stateId).None? then
        Outcome(s1, Accepted)
      else
        var s2 := s1.(history := TouchHistory(s.history, inv.stateId));
        if best.Some? && best.value in s2.records then
          var b := s2.records[best.value];
          Outcome(s2.(current := s2.current[inv.stateId := b.recordId],
                      accounting := s2.accounting.(currentStates := s2.accounting.currentStates + 1),
                      authority := s2.authority.SetHolder(inv.stateId, b.stateGeneration, b.authorityBoot)), Accepted)
        else
          Outcome(s2.(current := s2.current - {inv.stateId},
                      authority := s2.authority.ClearHolder(inv.stateId)), Accepted)
  }

  // -------- tombstone --------

  function TombstoneVerdict(s: EngineState, t: TombstoneRecord, env: Envelope): Verdict {
    var check := CheckAuthority(s, env);
    if check != Accepted then check
    else if t.stateId in s.tombstones && s.tombstones[t.stateId].floorGeneration >= t.floorGeneration then
      RejectedStaleBoot
    else Accepted
  }

  function TombstoneTargets(s: EngineState, state: u64, floor: u64): set<u64> {
    set id | id in HistoryOf(s, state) && id in s.records
             && s.records[id].stateGeneration <= floor && s.records[id].lifecycle != TOMBSTONED
  }

  function Tombstone(D: Digest, s: EngineState, t: TombstoneRecord, env: Envelope): Outcome {
    var verdict := TombstoneVerdict(s, t, env);
    if verdict != Accepted then Outcome(s, verdict)
    else
      var stamped := t.(coordinatorEpoch := env.coordinatorEpoch, workerBoot := env.workerBoot);
      var targets := TombstoneTargets(s, t.stateId, t.floorGeneration);
      var s1 := s.(tombstones := s.tombstones[t.stateId := stamped],
                   authority := s.authority.SetFloor(t.stateId, t.floorGeneration),
                   accounting := s.accounting.(tombstones := s.accounting.tombstones + 1),
                   history := TouchHistory(s.history, t.stateId),
                   records := MarkAll(D, s.records, targets, TOMBSTONED));
      var cur := FindState(s1, t.stateId);
      if cur.Some? && Tombstoned(s1.tombstones, t.stateId, cur.value.stateGeneration) then
        Outcome(s1.(current := s1.current - {t.stateId}, authority := s1.authority.ClearHolder(t.stateId)), Accepted)
      else
        Outcome(s1, Accepted)
  }
}
