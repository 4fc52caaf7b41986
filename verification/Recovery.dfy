/** What saving an engine and loading the image gives, as a function of the saved state. */
module Recovery {
  import opened Basics
  import opened Model
  import opened Authority
  import opened Transitions

  /** Process-local memory must be revalidated, and process handles are gone. */
  function RecoveredLocation(l: StateLocation): StateLocation {
    var p := l.Persisted();
    if p.ProcessLocal() then p.(freshness := REVALIDATION_REQUIRED) else p
  }

  function RecoveredLocations(ls: seq<StateLocation>): (r: seq<StateLocation>)
    ensures |r| == |ls|
  {
    seq(|ls|, i requires 0 <= i < |ls| => RecoveredLocation(ls[i]))
  }

  /** A record whose locations change on recovery is sealed again. */
  function Revalidated(D: Digest, rec: StateRecord): StateRecord {
    var p := rec.Persisted();
    var u := p.(locations := RecoveredLocations(rec.locations));
    if u == p then p else u.(semanticDigest := D(u))
  }

  function RecoveredRecord(D: Digest, rec: StateRecord, isCurrent: bool): StateRecord {
    Revalidated(D, rec).(isHistorical := !isCurrent)
  }

  function StatesOf(records: map<u64, StateRecord>): set<u64> {
    set id | id in records :: records[id].stateId
  }

  /** The history map rebuilt from the records alone. */
  function RebuiltHistory(records: map<u64, StateRecord>): map<u64, set<u64>> {
    map state | state in StatesOf(records) :: set id | id in records && records[id].stateId == state
  }

  function RecoveredRecords(D: Digest, s: EngineState): (r: map<u64, StateRecord>)
    ensures r.Keys == s.records.Keys
  {
    map id | id in s.records :: RecoveredRecord(D, s.records[id], IsCurrent(s.current, s.records[id]))
  }

  /** The engine after loading an image of s into an engine whose registry was `registry`: the registry
      keeps whatever holders and floors it had. */
  function Recovered(D: Digest, s: EngineState, registry: Registry): EngineState {
    s.(authority := registry.Reset(s.authority.epoch),
       records := RecoveredRecords(D, s),
       history := RebuiltHistory(s.records))
  }

  /** No state has two records of one generation. */
  ghost predicate UniqueGenerations(records: map<u64, StateRecord>) {
    forall i, j ::
      (i in records && j in records && records[i].stateId == records[j].stateId
       && records[i].stateGeneration == records[j].stateGeneration) ==> i == j
  }

  /** The bounds the loader enforces. */
  ghost predicate FitsImage(s: EngineState) {
    && |s.records| <= MAX_RECORDS && |s.invalidations| <= MAX_RECORDS && |s.tombstones| <= MAX_RECORDS
    && (forall id :: id in s.records ==> s.records[id].FitsImage())
    && s.accounting.Fits()
  }
}
