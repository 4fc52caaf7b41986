/** Facts about values that loading an image needs. */
module LoadFacts {
  import opened Basics
  import opened ByteBuf
  import opened Model
  import opened RecordCodec
  import opened RecordIO
  import opened Authority
  import opened Transitions
  import opened Recovery
  import opened Invariants
  import opened Retirement
  import opened Sorting
  import opened Indexes
  import opened Image
  import opened Persistence
  import opened Survival
  import opened SecondaryIndexes
  import opened EngineFacts

  /** A load never touches tombstone floors and holders. */
  predicate SameFences(a: Registry, b: Registry) {
    a.floors == b.floors && a.holders == b.holders
  }

  // -------- Reading records --------

  function GenerationsOf(rs: seq<StateRecord>): set<(u64, u64)> {
    set r | r in rs :: (r.stateId, r.stateGeneration)
  }

  /** The three checks on the next record are what it takes for the longer list to be loadable. */
  lemma LoadableOneMore(D: Digest, rs: seq<StateRecord>, rec: StateRecord)
    requires Loadable(D, rs)
    ensures Loadable(D, rs + [rec]) <==>
      && rec.recordId !in IdsOf(rs) && (rec.stateId, rec.stateGeneration) !in GenerationsOf(rs)
      && rec.semanticDigest == D(rec)
    ensures IdsOf(rs + [rec]) == IdsOf(rs) + {rec.recordId}
    ensures GenerationsOf(rs + [rec]) == GenerationsOf(rs) + {(rec.stateId, rec.stateGeneration)}
    ensures RecordTable(rs + [rec]) == RecordTable(rs)[rec.recordId := rec]
  {
    var longer := rs + [rec];
    assert longer[..|longer| - 1] == rs && longer[|longer| - 1] == rec;
    if Loadable(D, longer) {
      assert rec in longer;
      forall r | r in rs
        ensures r.recordId != rec.recordId
        ensures (r.stateId, r.stateGeneration) != (rec.stateId, rec.stateGeneration)
      {
        var i :| 0 <= i < |rs| && rs[i] == r;
        assert longer[i] == r;
      }
    }
  }

  /** Records that passed the checks: keyed by id, sealed, and one for each generation of a state. */
  ghost predicate Admitted(D: Digest, records: map<u64, StateRecord>) {
    && (forall id :: id in records ==> records[id].recordId == id && records[id].semanticDigest == D(records[id]))
    && UniqueGenerations(records)
  }

  lemma LoadableIsAdmitted(D: Digest, rs: seq<StateRecord>)
    requires Loadable(D, rs)
    ensures Admitted(D, RecordTable(rs))
  {
    hide RecordTable;
    RecordTableMeaning(rs);
    var records := RecordTable(rs);
    forall i, j | i in records && j in records && records[i].stateId == records[j].stateId
                  && records[i].stateGeneration == records[j].stateGeneration
      ensures i == j
    {
      var k :| 0 <= k < |rs| && rs[k] == records[i];
      var l :| 0 <= l < |rs| && rs[l] == records[j];
    }
  }

  /** What reading k more records behind front gives. */
  ghost function PendingRecords(front: seq<StateRecord>, k: nat, s: Bytes): Option<(seq<StateRecord>, Bytes)> {
    Pending(GetRecord, front, k, s)
  }

  lemma RecordStep(front: seq<StateRecord>, k: nat, s: Bytes, rec: Option<StateRecord>, rest: Bytes)
    requires k > 0 && Reads(rec, rest, GetRecord(s))
    ensures rec.None? ==> PendingRecords(front, k, s).None?
    ensures rec.Some? ==> PendingRecords(front, k, s) == PendingRecords(front + [rec.value], k - 1, rest)
  {
    hide GetRecord, Pending;
    PendingStep(GetRecord, front, k, s, rec, rest);
  }

  lemma NoMoreRecords(front: seq<StateRecord>, s: Bytes)
    ensures PendingRecords(front, 0, s) == Some((front, s))
  {
    hide GetRecord, Pending;
    PendingEnds(GetRecord, front, 0, s);
  }

  lemma RecordsFromStart(n: nat, s: Bytes)
    ensures PendingRecords([], n, s) == GetList(GetRecord, n, s)
  {
    hide GetRecord, Pending, GetList;
    PendingEnds(GetRecord, [], n, s);
  }

  /** A list that starts with an unloadable one is unloadable. */
  lemma UnloadableStart(D: Digest, front: seq<StateRecord>, k: nat, s: Bytes)
    requires !Loadable(D, front)
    ensures var all := PendingRecords(front, k, s); all.None? || !Loadable(D, all.value.0)
  {
    hide GetRecord, GetList;
    if Pending(GetRecord, front, k, s).Some? {
      var all := Pending(GetRecord, front, k, s).value.0;
      var rest := GetList(GetRecord, k, s).value.0;
      assert all == front + rest;
      assert forall i :: 0 <= i < |front| ==> all[i] == front[i];
      assert forall r :: r in front ==> r in all;
    }
  }

  // -------- What is read back holds no process-local part --------

  predicate NoProcess(l: StateLocation) {
    l.processHandle.None? && l.processScope.None?
  }

  lemma ReadPlaceNoProcess(s: Bytes)
    ensures GetPlace(s).Some? ==> NoProcess(GetPlace(s).value.0)
  {
    hide GetU8, GetU64, GetText;
  }

  lemma ReadConditionKeeps(l: StateLocation, s: Bytes)
    ensures GetCondition(l, s).Some? ==> NoProcess(GetCondition(l, s).value.0) == NoProcess(l)
  {
    hide GetU8, GetText, GetRetrieval;
  }

  lemma ReadAuthorityKeeps(l: StateLocation, s: Bytes)
    ensures GetAuthority(l, s).Some? ==> NoProcess(GetAuthority(l, s).value.0) == NoProcess(l)
  {
    hide GetU64, GetI64;
  }

  lemma ReadLocationPersisted(s: Bytes)
    ensures GetLocation(s).Some? ==> GetLocation(s).value.0.Persisted() == GetLocation(s).value.0
  {
    hide GetPlace, GetCondition, GetAuthority;
    ReadPlaceNoProcess(s);
    if GetPlace(s).Some? {
      var (l, rest) := GetPlace(s).value;
      ReadConditionKeeps(l, rest);
      if GetCondition(l, rest).Some? {
        ReadAuthorityKeeps(GetCondition(l, rest).value.0, GetCondition(l, rest).value.1);
      }
    }
  }

  lemma {:induction false} ReadLocationsPersisted(n: nat, s: Bytes)
    ensures GetList(GetLocation, n, s).Some? ==>
      forall l :: l in GetList(GetLocation, n, s).value.0 ==> l.Persisted() == l
    decreases n
  {
    hide GetLocation;
    if n > 0 && GetLocation(s).Some? {
      ReadLocationPersisted(s);
      ReadLocationsPersisted(n - 1, GetLocation(s).value.1);
    }
  }

  lemma ReadBodyPersisted(rec: StateRecord, s: Bytes)
    requires !rec.isHistorical
    ensures GetRecordBody(rec, s).Some? ==>
      && !GetRecordBody(rec, s).value.0.isHistorical
      && PersistedLocations(GetRecordBody(rec, s).value.0.locations) == GetRecordBody(rec, s).value.0.locations
  {
    hide GetLocation, GetDependency, GetCompatibility, GetProvenance, GetU64, GetBool, GetList;
    var a := GetOption(GetCompatibility, s);
    if a.Some? {
      var b := GetOption(GetProvenance, a.value.1);
      if b.Some? {
        var c := GetBounded(GetDependency, MAX_DEPENDENCIES, b.value.1);
        if c.Some? && GetU64(c.value.1).Some? {
          ReadLocationsPersisted(GetU64(c.value.1).value.0, GetU64(c.value.1).value.1);
        }
      }
    }
  }

  lemma ReadEndPersisted(rec: StateRecord, s: Bytes)
    ensures GetRecordEnd(rec, s).Some? ==>
      && GetRecordEnd(rec, s).value.0.isHistorical == rec.isHistorical
      && GetRecordEnd(rec, s).value.0.locations == rec.locations
  {
  }

  lemma ReadHeadPersisted(s: Bytes)
    ensures GetRecordHead(s).Some? ==> !GetRecordHead(s).value.0.isHistorical
  {
  }

  lemma ReadRecordPersisted(s: Bytes)
    ensures GetRecord(s).Some? ==> GetRecord(s).value.0.Persisted() == GetRecord(s).value.0
  {
    hide GetRecordHead, GetRecordBody, GetRecordEnd;
    ReadHeadPersisted(s);
    if GetRecordHead(s).Some? {
      var (rec, rest) := GetRecordHead(s).value;
      ReadBodyPersisted(rec, rest);
      if GetRecordBody(rec, rest).Some? {
        ReadEndPersisted(GetRecordBody(rec, rest).value.0, GetRecordBody(rec, rest).value.1);
      }
    }
  }

  lemma {:induction false} ReadRecordsPersisted(n: nat, s: Bytes)
    ensures GetList(GetRecord, n, s).Some? ==> forall r :: r in GetList(GetRecord, n, s).value.0 ==> r.Persisted() == r
    decreases n
  {
    hide GetRecord;
    if n > 0 && GetRecord(s).Some? {
      ReadRecordPersisted(s);
      ReadRecordsPersisted(n - 1, GetRecord(s).value.1);
    }
  }

  ghost predicate AllPersisted(records: map<u64, StateRecord>) {
    forall id :: id in records ==> records[id].Persisted() == records[id]
  }

  lemma ReadTablePersisted(D: Digest, s: Bytes)
    ensures var spec := GetBounded(GetRecord, MAX_RECORDS, s);
      spec.Some? && Loadable(D, spec.value.0) ==> AllPersisted(RecordTable(spec.value.0))
  {
    hide GetRecord, GetList, RecordTable;
    if GetU64(s).Some? {
      ReadRecordsPersisted(GetU64(s).value.0, GetU64(s).value.1);
      var spec := GetBounded(GetRecord, MAX_RECORDS, s);
      if spec.Some? && Loadable(D, spec.value.0) {
        RecordTableMeaning(spec.value.0);
      }
    }
  }

  // -------- Rebuilding histories --------

  lemma StatesOneMore(done: map<u64, StateRecord>, id: u64, rec: StateRecord)
    requires id !in done
    ensures StatesOf(done[id := rec]) == StatesOf(done) + {rec.stateId}
  {
    var more := done[id := rec];
    forall state ensures state in StatesOf(more) <==> state in StatesOf(done) + {rec.stateId} {
      if state in StatesOf(more) {
        var x :| x in more && more[x].stateId == state;
        if x != id {
          assert x in done && done[x].stateId == state;
        }
      }
      if state in StatesOf(done) {
        var x :| x in done && done[x].stateId == state;
        assert x in more && more[x].stateId == state;
      }
      if state == rec.stateId {
        assert id in more && more[id].stateId == state;
      }
    }
  }

  lemma UnlistedState(done: map<u64, StateRecord>, state: u64)
    ensures state !in StatesOf(done) ==> forall x :: x in done ==> done[x].stateId != state
  {
    if state !in StatesOf(done) {
      forall x | x in done ensures done[x].stateId != state {
        assert done[x].stateId in StatesOf(done);
      }
    }
  }

  lemma RebuiltOneMore(done: map<u64, StateRecord>, id: u64, rec: StateRecord)
    requires id !in done
    ensures RebuiltHistory(done[id := rec]) == PushHistory(RebuiltHistory(done), rec.stateId, id)
  {
    hide StatesOf;
    var more := done[id := rec];
    StatesOneMore(done, id, rec);
    UnlistedState(done, rec.stateId);
    var left, right := RebuiltHistory(more), PushHistory(RebuiltHistory(done), rec.stateId, id);
    assert left.Keys == right.Keys;
    forall state | state in left ensures left[state] == right[state] {
      forall x ensures x in left[state] <==> x in right[state] {
      }
    }
  }

  // -------- The batch scan --------

  /** One more record for the scan that recomputes the current map. */
  lemma ScannedOneMore(done: map<u64, StateRecord>, T: map<u64, TombstoneRecord>, current: map<u64, u64>,
                       r: StateRecord)
    requires IsBatchCurrent(done, T, current) && r.recordId !in done
    ensures !EligibleRecord(T, r) ==> IsBatchCurrent(done[r.recordId := r], T, current)
    ensures
      var older := r.stateId in current && r.stateGeneration <= done[current[r.stateId]].stateGeneration;
      EligibleRecord(T, r) ==>
        IsBatchCurrent(done[r.recordId := r], T, if older then current else current[r.stateId := r.recordId])
  {
    hide EligibleRecord;
  }

  // -------- Revalidation --------

  /** Every record in its recovered form but for whether it is historical. */
  function RevalidatedTable(D: Digest, records: map<u64, StateRecord>): map<u64, StateRecord> {
    map id | id in records :: Revalidated(D, records[id])
  }

  /** Revalidation of a record as it was read. */
  lemma RevalidatedForm(D: Digest, rec: StateRecord)
    requires rec.Persisted() == rec
    ensures var u := rec.(locations := RecoveredLocations(rec.locations));
      Revalidated(D, rec) == if u.locations == rec.locations then u else u.(semanticDigest := D(u))
  {
    hide StateRecord.Persisted, RecoveredLocation;
    var u := rec.(locations := RecoveredLocations(rec.locations));
    assert u == rec <==> u.locations == rec.locations;
  }

  /** Revalidation does to every location what a load must do. */
  lemma TableSurvives(D: Digest, records: map<u64, StateRecord>, current: map<u64, u64>)
    ensures forall id :: id in records ==>
      id in HistoricalTable(RevalidatedTable(D, records), current)
      && LocationsSurvive(records[id].locations, HistoricalTable(RevalidatedTable(D, records), current)[id].locations)
  {
    hide LocationsSurvive;
    forall id | id in records
      ensures LocationsSurvive(records[id].locations,
                               HistoricalTable(RevalidatedTable(D, records), current)[id].locations)
    {
      RevalidatedKeepsLocations(D, records[id]);
    }
  }

  lemma RevalidatedKeepsLocations(D: Digest, rec: StateRecord)
    ensures LocationsSurvive(rec.locations, Revalidated(D, rec).locations)
  {
    hide LocationsSurvive;
    RecoveredLocationsSurvive(rec.locations);
  }

  lemma RevalidatedPointwise(D: Digest, records: map<u64, StateRecord>, after: map<u64, StateRecord>)
    requires after.Keys == records.Keys && forall id :: id in records ==> after[id] == Revalidated(D, records[id])
    ensures after == RevalidatedTable(D, records)
  {
    hide Revalidated;
  }

  lemma PersistedAt(records: map<u64, StateRecord>, id: u64)
    requires AllPersisted(records) && id in records
    ensures records[id].Persisted() == records[id]
  {
  }

  function WithHistorical(rec: StateRecord, current: map<u64, u64>): StateRecord {
    rec.(isHistorical := !(rec.stateId in current && current[rec.stateId] == rec.recordId))
  }

  function HistoricalTable(records: map<u64, StateRecord>, current: map<u64, u64>): map<u64, StateRecord> {
    map id | id in records :: WithHistorical(records[id], current)
  }

  lemma RecoveredInTwoSteps(D: Digest, s: EngineState)
    ensures HistoricalTable(RevalidatedTable(D, s.records), s.current) == RecoveredRecords(D, s)
  {
    forall id | id in s.records
      ensures WithHistorical(Revalidated(D, s.records[id]), s.current)
        == RecoveredRecord(D, s.records[id], IsCurrent(s.current, s.records[id]))
    {
      SameIdentity(D, s.records[id]);
    }
  }

  lemma SameIdentity(D: Digest, rec: StateRecord)
    ensures var u := Revalidated(D, rec);
      u.stateId == rec.stateId && u.recordId == rec.recordId && u.stateGeneration == rec.stateGeneration
      && u.lifecycle == rec.lifecycle && u.descriptor == rec.descriptor
  {
  }

  /** The scan reads nothing that revalidation changes. */
  lemma ScanBeforeRevalidation(D: Digest, records: map<u64, StateRecord>, T: map<u64, TombstoneRecord>,
                               current: map<u64, u64>)
    requires IsBatchCurrent(RevalidatedTable(D, records), T, current)
    ensures IsBatchCurrent(records, T, current)
  {
    hide Revalidated;
    forall id | id in records
      ensures && RevalidatedTable(D, records)[id].stateId == records[id].stateId
              && RevalidatedTable(D, records)[id].stateGeneration == records[id].stateGeneration
              && RevalidatedTable(D, records)[id].lifecycle == records[id].lifecycle
    {
      SameIdentity(D, records[id]);
    }
    BatchReadsLittle(records, RevalidatedTable(D, records), T, current);
  }

  // -------- Indexes across recovery --------

  lemma RecoveredPlace(l: StateLocation)
    ensures LocationKeys(RecoveredLocation(l)) == LocationKeys(l) && RecoveredLocation(l).placementId == l.placementId
  {
  }

  lemma RecoveredAt(ls: seq<StateLocation>)
    ensures forall l :: l in RecoveredLocations(ls) <==> exists x :: x in ls && l == RecoveredLocation(x)
  {
    hide RecoveredLocation;
    var rs := RecoveredLocations(ls);
    forall l | l in rs ensures exists x :: x in ls && l == RecoveredLocation(x) {
      var i :| 0 <= i < |rs| && rs[i] == l;
      assert ls[i] in ls;
    }
    forall x | x in ls ensures RecoveredLocation(x) in rs {
      var i :| 0 <= i < |ls| && ls[i] == x;
      assert rs[i] == RecoveredLocation(x);
    }
  }

  lemma RecoveredLocationKeys(ls: seq<StateLocation>)
    ensures AllLocationKeys(RecoveredLocations(ls)) == AllLocationKeys(ls)
    ensures Placements(RecoveredLocations(ls)) == Placements(ls)
  {
    hide LocationKeys, RecoveredLocations, RecoveredLocation;
    RecoveredAt(ls);
    var rs := RecoveredLocations(ls);
    forall l
      ensures LocationKeys(RecoveredLocation(l)) == LocationKeys(l)
      ensures RecoveredLocation(l).placementId == l.placementId
    {
      RecoveredPlace(l);
    }
    forall l | l in ls ensures RecoveredLocation(l) in rs {
    }
    assert AllLocationKeys(rs) == AllLocationKeys(ls);
    assert Placements(rs) == Placements(ls);
  }

  lemma RevalidatedLocations(D: Digest, rec: StateRecord)
    ensures Revalidated(D, rec).locations == RecoveredLocations(rec.locations)
  {
  }

  lemma RecoveredKeys(D: Digest, rec: StateRecord, isCurrent: bool)
    ensures KeysOf(RecoveredRecord(D, rec, isCurrent)) == KeysOf(rec)
    ensures Placements(RecoveredRecord(D, rec, isCurrent).locations) == Placements(rec.locations)
  {
    hide FixedKeys, AllLocationKeys, Placements, Revalidated;
    SameIdentity(D, rec);
    RevalidatedLocations(D, rec);
    RecoveredLocationKeys(rec.locations);
  }

  /** Indexes built before the locations were revalidated are right after it. */
  lemma ExtendsSameKeys(before: IndexView, a: map<u64, StateRecord>, b: map<u64, StateRecord>, after: IndexView)
    requires Extends(before, a, a.Keys, after) && b.Keys == a.Keys
    requires forall id :: id in a ==>
      KeysOf(b[id]) == KeysOf(a[id]) && Placements(b[id].locations) == Placements(a[id].locations)
    ensures Extends(before, b, b.Keys, after)
  {
    hide KeysOf, Placements;
    forall k ensures HoldersAmong(b, b.Keys, k) == HoldersAmong(a, a.Keys, k) {
    }
    assert forall id, p :: HeldBy(b, id, p) == HeldBy(a, id, p);
  }

  lemma LatestSameKeys(owner: map<u64, u64>, a: map<u64, StateRecord>, b: map<u64, StateRecord>)
    requires LatestOwns(owner, a) && b.Keys == a.Keys
    requires forall id :: id in a ==> Placements(b[id].locations) == Placements(a[id].locations)
    ensures LatestOwns(owner, b)
  {
    hide Placements;
    assert forall id, p :: HeldBy(b, id, p) ==> HeldBy(a, id, p);
  }

  // -------- The loaded engine --------

  lemma {:induction false} TombstoneTableKeyed(ts: seq<TombstoneRecord>)
    ensures forall state :: state in TombstoneTable(ts) ==> TombstoneTable(ts)[state].stateId == state
    decreases |ts|
  {
    if ts != [] {
      TombstoneTableKeyed(ts[..|ts| - 1]);
    }
  }

  /** The stored state with its history rebuilt. */
  function Rebuilt(c: Contents, current: map<u64, u64>): EngineState {
    StoredState(c, current).(history := RebuiltHistory(RecordTable(c.records)))
  }

  lemma RebuiltHasShape(c: Contents, current: map<u64, u64>)
    requires DistinctRecords(c.records) && CurrentIsBatch(StoredState(c, current))
    ensures Shape(Rebuilt(c, current)) && CurrentIsBatch(Rebuilt(c, current))
  {
    hide EligibleRecord, RecordTable, TombstoneTable, DistinctRecords;
    RecordTableMeaning(c.records);
    TombstoneTableKeyed(c.tombstones);
    var s := Rebuilt(c, current);
    forall id | id in s.records ensures id in HistoryOf(s, s.records[id].stateId) {
      assert s.records[id].stateId in StatesOf(s.records);
    }
  }

  /** Whatever image was loaded, the engine is consistent: histories list exactly the records of their
      state, the current map obeys the batch rule and every digest matches. */
  lemma LoadedIsConsistent(h: Hash, c: Contents, registry: Registry, t: EngineState)
    requires Loadable(DigestOf(h), c.records) && Loads(DigestOf(h), c, registry, t)
    ensures Shape(t) && CurrentIsBatch(t) && DigestsMatch(DigestOf(h), t)
  {
    hide *;
    var s := Rebuilt(c, t.current);
    LoadsUnfolds(DigestOf(h), c, registry, t);
    RebuiltHasShape(c, t.current);
    RecoverKeepsShape(DigestOf(h), s, registry);
    DigestIgnoresUnhashed(h);
    LoadedSealed(DigestOf(h), c, t.current);
    RecoverKeepsDigests(DigestOf(h), s, registry);
    BatchAfterRecovery(DigestOf(h), s, registry);
  }

  lemma LoadsUnfolds(D: Digest, c: Contents, registry: Registry, t: EngineState)
    requires Loadable(D, c.records) && Loads(D, c, registry, t)
    ensures DistinctRecords(c.records) && CurrentIsBatch(StoredState(c, t.current))
    ensures t == Recovered(D, Rebuilt(c, t.current), registry)
  {
    hide DistinctRecords, IsBatchCurrent, RecordTable, TombstoneTable, RecoveredRecord, RebuiltHistory;
    var a, b := Recovered(D, StoredState(c, t.current), registry), Recovered(D, Rebuilt(c, t.current), registry);
    assert RecoveredRecords(D, StoredState(c, t.current)) == RecoveredRecords(D, Rebuilt(c, t.current));
  }

  lemma LoadedSealed(D: Digest, c: Contents, current: map<u64, u64>)
    requires Loadable(D, c.records)
    ensures DigestsMatch(D, Rebuilt(c, current))
  {
    RecordTableMeaning(c.records);
  }

  lemma BatchAfterRecovery(D: Digest, s: EngineState, registry: Registry)
    requires CurrentIsBatch(s)
    ensures CurrentIsBatch(Recovered(D, s, registry))
  {
    var t := Recovered(D, s, registry);
    forall id | id in s.records ensures SameCore(s.records[id], t.records[id]) {
      RecoveredSameCore(D, s.records[id], IsCurrent(s.current, s.records[id]));
    }
    BatchReadsLittle(s.records, t.records, s.tombstones, s.current);
  }

  // -------- Where the loops start --------

  lemma NothingLoaded(D: Digest)
    ensures Loadable(D, []) && RecordTable([]) == map[] && IdsOf([]) == {} && GenerationsOf([]) == {}
  {
  }

  lemma NoHistory()
    ensures OnceEach(map[]) && HistorySets(map[]) == RebuiltHistory(map[])
  {
    assert StatesOf(map[]) == {};
  }

  lemma NothingScanned(T: map<u64, TombstoneRecord>)
    ensures IsBatchCurrent(map[], T, map[])
  {
  }

  lemma EligibleMeans(T: map<u64, TombstoneRecord>, rec: StateRecord)
    ensures EligibleRecord(T, rec) <==> !rec.Terminal() && !Tombstoned(T, rec.stateId, rec.stateGeneration)
  {
  }

  lemma NotYetListed(done: map<u64, StateRecord>, history: map<u64, seq<u64>>, state: u64, id: u64)
    requires id !in done && HistorySets(history) == RebuiltHistory(done)
    ensures id !in HistoryList(history, state)
  {
    ListElements(history, state);
    assert id !in Elements(HistoryList(history, state));
  }

  lemma AlreadyPersisted(rec: StateRecord)
    requires rec.Persisted() == rec
    ensures !rec.isHistorical
    ensures forall i :: 0 <= i < |rec.locations| ==>
      rec.locations[i].Persisted() == rec.locations[i]
      && rec.locations[i].processHandle == None && rec.locations[i].processScope == None
  {
    forall i | 0 <= i < |rec.locations| ensures rec.locations[i].Persisted() == rec.locations[i] {
      assert PersistedLocations(rec.locations)[i] == rec.locations[i].Persisted();
    }
  }

  lemma TableKeyed(D: Digest, rs: seq<StateRecord>)
    requires Loadable(D, rs)
    ensures forall id :: id in RecordTable(rs) ==> RecordTable(rs)[id].recordId == id
  {
    RecordTableMeaning(rs);
  }

  lemma RevalidatedKeyed(D: Digest, records: map<u64, StateRecord>)
    requires forall id :: id in records ==> records[id].recordId == id
    ensures forall id :: id in RevalidatedTable(D, records) ==> RevalidatedTable(D, records)[id].recordId == id
  {
    hide Revalidated;
    forall id | id in records ensures RevalidatedTable(D, records)[id].recordId == id {
      SameIdentity(D, records[id]);
    }
  }

  /** What the load loops leave behind is a loaded engine. */
  lemma LoadedForm(D: Digest, c: Contents, registry: Registry, t: EngineState)
    requires IsBatchCurrent(RevalidatedTable(D, RecordTable(c.records)), TombstoneTable(c.tombstones), t.current)
    requires t == EngineState(registry.Reset(c.epoch), c.accounting,
                              HistoricalTable(RevalidatedTable(D, RecordTable(c.records)), t.current), t.current,
                              RebuiltHistory(RecordTable(c.records)), c.invalidations, TombstoneTable(c.tombstones),
                              c.invalidationSeq)
    ensures Loads(D, c, registry, t)
  {
    hide RecordTable, TombstoneTable, IsBatchCurrent, RevalidatedTable, HistoricalTable, RebuiltHistory,
         RecoveredRecords;
    ScanBeforeRevalidation(D, RecordTable(c.records), TombstoneTable(c.tombstones), t.current);
    RecoveredInTwoSteps(D, StoredState(c, t.current));
  }

  lemma IndexesAfterRecovery(D: Digest, records: map<u64, StateRecord>, current: map<u64, u64>, v: IndexView)
    requires Extends(EMPTY_INDEX, records, records.Keys, v) && LatestOwns(v.owner, records)
    ensures var after := HistoricalTable(RevalidatedTable(D, records), current);
      Extends(EMPTY_INDEX, after, after.Keys, v) && LatestOwns(v.owner, after)
  {
    hide Extends, LatestOwns, KeysOf, Placements, Revalidated, RecoveredRecord, WithHistorical;
    var after := HistoricalTable(RevalidatedTable(D, records), current);
    forall id | id in records
      ensures KeysOf(after[id]) == KeysOf(records[id])
        && Placements(after[id].locations) == Placements(records[id].locations)
    {
      HistoricalKeys(D, records[id], current);
    }
    ExtendsSameKeys(EMPTY_INDEX, records, after, v);
    LatestSameKeys(v.owner, records, after);
  }

  lemma HistoricalKeys(D: Digest, rec: StateRecord, current: map<u64, u64>)
    ensures var u := WithHistorical(Revalidated(D, rec), current);
      KeysOf(u) == KeysOf(rec) && Placements(u.locations) == Placements(rec.locations)
  {
    hide KeysOf, Placements, Revalidated;
    SameIdentity(D, rec);
    var isCurrent := rec.stateId in current && current[rec.stateId] == rec.recordId;
    RecoveredKeys(D, rec, isCurrent);
  }

  /** With the three facts that only the image can vouch for, the whole invariant holds. */
  lemma LoadedInv(h: Hash, c: Contents, registry: Registry, t: EngineState)
    requires Loadable(DigestOf(h), c.records) && Loads(DigestOf(h), c, registry, t)
    requires GenerationsSet(t) && TombstonesCurrent(t) && CounterCovers(t)
    ensures Inv(DigestOf(h), t)
  {
    hide *;
    LoadedIsConsistent(h, c, registry, t);
    InvOfParts(DigestOf(h), t);
  }

  lemma LoadedSoundly(h: Hash, c: Contents, registry: Registry, t: EngineState)
    requires Loadable(DigestOf(h), c.records) && Loads(DigestOf(h), c, registry, t)
    ensures GenerationsSet(t) && TombstonesCurrent(t) && CounterCovers(t) ==> Inv(DigestOf(h), t)
  {
    hide *;
    if GenerationsSet(t) && TombstonesCurrent(t) && CounterCovers(t) {
      LoadedInv(h, c, registry, t);
    }
  }

  /** Reading the contents in the order of the load: records, their checks, then the rest. */
  lemma ContentsParts(D: Digest, payload: Bytes)
    ensures
      var spec := GetBounded(GetRecord, MAX_RECORDS, payload);
      if spec.Some? && Loadable(D, spec.value.0) then
        var rest := GetLedgers(spec.value.0, spec.value.1);
        ReadContents(D, payload) == (if rest.Some? then Some(rest.value.0) else None)
        && (rest.Some? ==> rest.value.0.records == spec.value.0)
      else ReadContents(D, payload).None?
  {
    hide GetBounded, GetLedgers, Loadable;
    var spec := GetBounded(GetRecord, MAX_RECORDS, payload);
    if spec.Some? {
      LedgersKeepRecords(spec.value.0, spec.value.1);
    }
  }

  lemma RebuiltFrom(c: Contents, registry: Registry, t: EngineState)
    requires t.authority == registry.Reset(c.epoch) && t.accounting == c.accounting
      && t.records == RecordTable(c.records)
    requires t.current == map[] && t.history == RebuiltHistory(RecordTable(c.records))
    requires t.invalidations == c.invalidations && t.tombstones == TombstoneTable(c.tombstones)
    requires t.invalidationSeq == c.invalidationSeq
    ensures t == Rebuilt(c, map[]).(authority := registry.Reset(c.epoch))
  {
    hide RecordTable, TombstoneTable, RebuiltHistory;
  }

  lemma LedgersKeepRecords(rs: seq<StateRecord>, s: Bytes)
    ensures GetLedgers(rs, s).Some? ==> GetLedgers(rs, s).value.0.records == rs
  {
    hide GetBounded;
  }

  // -------- Save, then load --------

  lemma FittingCounts(s: EngineState, states: seq<u64>)
    requires Shape(s) && FitsImage(s) && Lists(states, s.tombstones.Keys)
    ensures SavedContents(s, states).CountsFit()
  {
    hide Shape, AscendingOf;
    SavedCount(s);
    CountElements(states);
    assert |s.tombstones| == |s.tombstones.Keys|;
    AllFitWhenSaved(s);
  }

  /** The image of a sound state within the bounds is readable. */
  lemma SavedIsReadable(h: Hash, s: EngineState, states: seq<u64>)
    requires Inv(DigestOf(h), s) && FitsImage(s) && UniqueGenerations(s.records) && Lists(states, s.tombstones.Keys)
    ensures ReadImage(h, SavedImage(h, s, states)).Ok?
  {
    hide *;
    InvParts(DigestOf(h), s);
    FittingCounts(s, states);
    SavedImageLoads(h, s, states);
  }

  lemma InvParts(D: Digest, s: EngineState)
    requires Inv(D, s)
    ensures Shape(s) && CurrentIsBatch(s) && GenerationsSet(s) && TombstonesCurrent(s) && DigestsMatch(D, s)
      && CounterCovers(s)
  {
    hide Shape, CurrentIsBatch, GenerationsSet, TombstonesCurrent, DigestsMatch, CounterCovers;
  }

  lemma RecoveredParts(h: Hash, s: EngineState, registry: Registry)
    requires Inv(DigestOf(h), s)
    ensures var t := Recovered(DigestOf(h), s, registry); GenerationsSet(t) && TombstonesCurrent(t) && CounterCovers(t)
  {
    hide *;
    DigestIgnoresUnhashed(h);
    RecoverKeepsInv(DigestOf(h), s, registry);
    InvParts(DigestOf(h), Recovered(DigestOf(h), s, registry));
  }

  lemma LoadIsUnique(h: Hash, s: EngineState, states: seq<u64>, registry: Registry, t: EngineState)
    requires Inv(DigestOf(h), s) && FitsImage(s) && UniqueGenerations(s.records) && Lists(states, s.tombstones.Keys)
    requires ReadImage(h, SavedImage(h, s, states)).Ok?
    requires Loads(DigestOf(h), ReadImage(h, SavedImage(h, s, states)).value, registry, t)
    ensures t == Recovered(DigestOf(h), s, registry)
  {
    hide *;
    InvParts(DigestOf(h), s);
    FittingCounts(s, states);
    SavedImageLoads(h, s, states);
    LoadGivesRecovered(h, s, states, registry, t);
  }
}
