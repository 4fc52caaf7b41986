/** Saving an engine and loading the image: when it loads, and what the loaded engine is. */
module Persistence {
  import opened Basics
  import opened ByteBuf
  import opened Model
  import opened RecordCodec
  import opened RecordIO
  import opened Authority
  import opened Transitions
  import opened Recovery
  import opened Invariants
  import opened Retirement
  import opened Runs
  import opened Sorting
  import opened Image

  // -------- What is saved --------

  function RecordsAt(records: map<u64, StateRecord>, ids: seq<u64>): (r: seq<StateRecord>)
    requires forall id :: id in ids ==> id in records
    ensures |r| == |ids|
  {
    seq(|ids|, i requires 0 <= i < |ids| => records[ids[i]])
  }

  function TombstonesAt(tombstones: map<u64, TombstoneRecord>, states: seq<u64>): (r: seq<TombstoneRecord>)
    requires forall state :: state in states ==> state in tombstones
    ensures |r| == |states|
  {
    seq(|states|, i requires 0 <= i < |states| => tombstones[states[i]])
  }

  predicate NoDuplicates(xs: seq<u64>) {
    forall i, j :: 0 <= i < j < |xs| ==> xs[i] != xs[j]
  }

  /** Some order in which a hash table may list its keys. */
  ghost predicate Lists(keys: seq<u64>, domain: set<u64>) {
    NoDuplicates(keys) && Elements(keys) == domain
  }

  /** Records by ascending id; tombstones in the order the hash table yields their states. */
  ghost function SavedContents(s: EngineState, states: seq<u64>): Contents
    requires Lists(states, s.tombstones.Keys)
  {
    Contents(RecordsAt(s.records, AscendingOf(s.records.Keys)), s.invalidations, TombstonesAt(s.tombstones, states),
             s.authority.epoch, s.invalidationSeq, s.accounting)
  }

  ghost function SavedImage(h: Hash, s: EngineState, states: seq<u64>): Bytes
    requires Lists(states, s.tombstones.Keys)
  {
    PutImage(h, PutContents(SavedContents(s, states), []))
  }

  /** The image of s, for some order of its tombstones. */
  ghost predicate IsSavedImage(h: Hash, s: EngineState, image: Bytes) {
    exists states :: Lists(states, s.tombstones.Keys) && image == SavedImage(h, s, states)
  }

  lemma OrderOf(h: Hash, s: EngineState, image: Bytes) returns (states: seq<u64>)
    requires IsSavedImage(h, s, image)
    ensures Lists(states, s.tombstones.Keys) && image == SavedImage(h, s, states)
  {
    hide Lists, SavedImage;
    states :| Lists(states, s.tombstones.Keys) && image == SavedImage(h, s, states);
  }

  // -------- What is loaded --------

  function RecordTable(rs: seq<StateRecord>): map<u64, StateRecord> {
    if rs == [] then map[] else RecordTable(rs[..|rs| - 1])[rs[|rs| - 1].recordId := rs[|rs| - 1]]
  }

  function TombstoneTable(ts: seq<TombstoneRecord>): map<u64, TombstoneRecord> {
    if ts == [] then map[] else TombstoneTable(ts[..|ts| - 1])[ts[|ts| - 1].stateId := ts[|ts| - 1]]
  }

  predicate DistinctRecords(rs: seq<StateRecord>) {
    forall i, j :: 0 <= i < j < |rs| ==>
      && rs[i].recordId != rs[j].recordId
      && !(rs[i].stateId == rs[j].stateId && rs[i].stateGeneration == rs[j].stateGeneration)
  }

  predicate AllSealed(D: Digest, rs: seq<StateRecord>) {
    forall r :: r in rs ==> r.semanticDigest == D(r)
  }

  /** The loader accepts a record list without repeated ids or generations whose digests match. */
  predicate Loadable(D: Digest, rs: seq<StateRecord>) {
    DistinctRecords(rs) && AllSealed(D, rs)
  }

  function ReadContents(D: Digest, payload: Bytes): Option<Contents> {
    var (c, rest) :- GetContents(payload);
    if Loadable(D, c.records) then Some(c) else None
  }

  function ReadImage(h: Hash, b: Bytes): Result<Contents, LoadError> {
    var payload :- OpenImage(h, b);
    var c := ReadContents(DigestOf(h), payload);
    if c.Some? then Ok(c.value) else Err(BadContents)
  }

  /** The engine that the contents describe, before locations are revalidated. */
  function StoredState(c: Contents, current: map<u64, u64>): EngineState {
    EngineState(Registry(c.epoch, map[], map[], map[]), c.accounting, RecordTable(c.records), current, map[],
                c.invalidations, TombstoneTable(c.tombstones), c.invalidationSeq)
  }

  /** Loading: the current map is recomputed by the batch rule, then everything takes its recovered form. */
  ghost predicate Loads(D: Digest, c: Contents, registry: Registry, t: EngineState) {
    CurrentIsBatch(StoredState(c, t.current)) && t == Recovered(D, StoredState(c, t.current), registry)
  }

  // -------- The digest --------

  lemma ResealedPrintsSame(r: StateRecord, d: Text, b: bool)
    ensures var x, y := r.(semanticDigest := []), Resealed(r, d, b).(semanticDigest := []);
      PutRecord(x, []) == PutRecord(y, [])
  {
    var x, y := r.(semanticDigest := []), Resealed(r, d, b).(semanticDigest := []);
    assert PutRecordEnd(x, []) == PutRecordEnd(y, []);
    var t := PutRecordEnd(x, []);
    assert PutRecordBody(x, t) == PutRecordBody(y, t);
    var u := PutRecordBody(x, t);
    assert PutRecordHead(x, u) == PutRecordHead(y, u);
  }

  /** The record digest reads neither the stored digest nor what the format leaves out. */
  lemma DigestIgnoresUnhashed(h: Hash)
    ensures IgnoresUnhashed(DigestOf(h))
  {
    hide PutRecord;
    var D := DigestOf(h);
    forall r: StateRecord, d: Text, b: bool ensures D(Resealed(r, d, b)) == D(r) {
      ResealedPrintsSame(r, d, b);
    }
    forall r: StateRecord ensures D(r.Persisted()) == D(r) {
      DigestIgnoresUnpersisted(h, r);
    }
  }

  // -------- Tables --------

  lemma {:induction false} RecordTableMeaning(rs: seq<StateRecord>)
    requires DistinctRecords(rs)
    ensures forall i :: 0 <= i < |rs| ==> rs[i].recordId in RecordTable(rs) && RecordTable(rs)[rs[i].recordId] == rs[i]
    ensures forall id :: id in RecordTable(rs) ==> RecordTable(rs)[id] in rs && RecordTable(rs)[id].recordId == id
    decreases |rs|
  {
    if rs != [] {
      RecordTableMeaning(rs[..|rs| - 1]);
    }
  }

  lemma {:induction false} TombstoneTableMeaning(tombstones: map<u64, TombstoneRecord>, states: seq<u64>)
    requires NoDuplicates(states) && forall state :: state in states ==> state in tombstones
    requires forall state :: state in tombstones ==> tombstones[state].stateId == state
    ensures TombstoneTable(TombstonesAt(tombstones, states)).Keys == Elements(states)
    ensures forall state :: state in states ==>
      TombstoneTable(TombstonesAt(tombstones, states))[state] == tombstones[state]
    decreases |states|
  {
    if states != [] {
      var front, last := states[..|states| - 1], states[|states| - 1];
      TombstoneTableMeaning(tombstones, front);
      assert TombstonesAt(tombstones, states)[..|states| - 1] == TombstonesAt(tombstones, front);
      assert states == front + [last];
      ElementsOfLonger(front, last);
    }
  }

  lemma TombstonesSurvive(s: EngineState, states: seq<u64>)
    requires Shape(s) && Lists(states, s.tombstones.Keys)
    ensures TombstoneTable(TombstonesAt(s.tombstones, states)) == s.tombstones
  {
    TombstoneTableMeaning(s.tombstones, states);
    assert forall state :: state in s.tombstones ==> state in Elements(states);
  }

  // -------- When a saved image loads --------

  lemma SavedRecord(s: EngineState, i: nat)
    requires Shape(s) && i < |AscendingOf(s.records.Keys)|
    ensures var ids := AscendingOf(s.records.Keys);
      && ids[i] in s.records && RecordsAt(s.records, ids)[i] == s.records[ids[i]]
      && s.records[ids[i]].recordId == ids[i]
  {
    assert AscendingOf(s.records.Keys)[i] in Elements(AscendingOf(s.records.Keys));
  }

  lemma IsSaved(s: EngineState, id: u64) returns (i: nat)
    requires id in s.records
    ensures i < |AscendingOf(s.records.Keys)| && AscendingOf(s.records.Keys)[i] == id
  {
    var ids := AscendingOf(s.records.Keys);
    assert id in Elements(ids);
    i :| 0 <= i < |ids| && ids[i] == id;
  }

  lemma SavedCount(s: EngineState)
    ensures |AscendingOf(s.records.Keys)| == |s.records|
  {
    var ids := AscendingOf(s.records.Keys);
    CountElements(ids);
    assert Elements(ids) == s.records.Keys;
  }

  lemma {:induction false} CountElements(xs: seq<u64>)
    requires NoDuplicates(xs)
    ensures |Elements(xs)| == |xs|
    decreases |xs|
  {
    if xs != [] {
      var front, last := xs[..|xs| - 1], xs[|xs| - 1];
      CountElements(front);
      assert xs == front + [last];
      ElementsOfLonger(front, last);
    }
  }

  /** The records as they are read back. */
  ghost function ReadBack(s: EngineState): seq<StateRecord> {
    PersistedRecords(RecordsAt(s.records, AscendingOf(s.records.Keys)))
  }

  lemma ReadBackAt(s: EngineState, i: nat)
    requires Shape(s) && i < |AscendingOf(s.records.Keys)|
    ensures var id := AscendingOf(s.records.Keys)[i];
      && i < |ReadBack(s)| && id in s.records && s.records[id].recordId == id
      && ReadBack(s)[i] == s.records[id].Persisted()
      && ReadBack(s)[i].recordId == id && ReadBack(s)[i].stateId == s.records[id].stateId
      && ReadBack(s)[i].stateGeneration == s.records[id].stateGeneration
  {
    hide Shape;
    SavedRecord(s, i);
  }

  lemma SealedWhenRead(h: Hash, s: EngineState)
    requires Shape(s)
    ensures AllSealed(DigestOf(h), ReadBack(s)) <==> DigestsMatch(DigestOf(h), s)
  {
    hide Shape, SemanticDigest;
    var D, rs := DigestOf(h), ReadBack(s);
    forall r: StateRecord ensures D(r.Persisted()) == D(r) {
      DigestIgnoresUnpersisted(h, r);
    }
    forall i | 0 <= i < |rs| ensures rs[i].semanticDigest == D(rs[i]) <==>
      s.records[AscendingOf(s.records.Keys)[i]].semanticDigest == D(s.records[AscendingOf(s.records.Keys)[i]])
    {
      SavedRecord(s, i);
    }
    if AllSealed(D, rs) {
      forall id | id in s.records ensures s.records[id].semanticDigest == D(s.records[id]) {
        var i := IsSaved(s, id);
        assert rs[i] in rs;
      }
    }
  }

  lemma DistinctWhenRead(s: EngineState)
    requires Shape(s)
    ensures DistinctRecords(ReadBack(s)) <==> UniqueGenerations(s.records)
  {
    hide Shape, ReadBack, AscendingOf, UniqueGenerations, DistinctRecords;
    if UniqueGenerations(s.records) {
      UniqueReadsDistinct(s);
    }
    if DistinctRecords(ReadBack(s)) {
      DistinctReadIsUnique(s);
    }
  }

  lemma UniqueReadsDistinct(s: EngineState)
    requires Shape(s) && UniqueGenerations(s.records)
    ensures DistinctRecords(ReadBack(s))
  {
    assert |ReadBack(s)| == |AscendingOf(s.records.Keys)|;
    hide Shape, ReadBack, AscendingOf;
    var ids, rs := AscendingOf(s.records.Keys), ReadBack(s);
    forall i, j | 0 <= i < j < |rs| ensures rs[i].recordId != rs[j].recordId
      && !(rs[i].stateId == rs[j].stateId && rs[i].stateGeneration == rs[j].stateGeneration)
    {
      ReadBackAt(s, i);
      ReadBackAt(s, j);
    }
  }

  lemma DistinctReadIsUnique(s: EngineState)
    requires Shape(s) && DistinctRecords(ReadBack(s))
    ensures UniqueGenerations(s.records)
  {
    hide Shape, ReadBack, AscendingOf;
    forall a, b | a in s.records && b in s.records && s.records[a].stateId == s.records[b].stateId
                  && s.records[a].stateGeneration == s.records[b].stateGeneration
      ensures a == b
    {
      var i := IsSaved(s, a);
      var j := IsSaved(s, b);
      ReadBackAt(s, i);
      ReadBackAt(s, j);
    }
  }

  lemma AllFitWhenSaved(s: EngineState)
    requires Shape(s)
    ensures (forall r :: r in RecordsAt(s.records, AscendingOf(s.records.Keys)) ==> r.FitsImage())
      <==> (forall id :: id in s.records ==> s.records[id].FitsImage())
  {
    hide Shape, AscendingOf;
    var ids := AscendingOf(s.records.Keys);
    assert forall id :: id in ids <==> id in Elements(ids);
    var rs := RecordsAt(s.records, ids);
    forall id | id in s.records ensures s.records[id] in rs {
      var i := IsSaved(s, id);
      assert rs[i] == s.records[id];
    }
    forall r | r in rs ensures exists id :: id in s.records && s.records[id] == r {
      var i :| 0 <= i < |rs| && rs[i] == r;
      SavedRecord(s, i);
    }
  }

  lemma BoundsWhenSaved(s: EngineState, states: seq<u64>)
    requires Shape(s) && Lists(states, s.tombstones.Keys) && s.accounting.Fits()
    ensures SavedContents(s, states).WithinBounds() <==> FitsImage(s)
  {
    SavedCount(s);
    CountElements(states);
    assert |s.tombstones| == |s.tombstones.Keys|;
    AllFitWhenSaved(s);
  }

  /** A saved image loads exactly when it is within the loader's bounds, no state has two records of one
      generation, and every stored digest matches; it then reads back as what was saved, without the
      fields the format drops. */
  lemma SavedImageLoads(h: Hash, s: EngineState, states: seq<u64>)
    requires Shape(s) && Lists(states, s.tombstones.Keys) && SavedContents(s, states).CountsFit()
    ensures ReadImage(h, SavedImage(h, s, states)).Ok?
      <==> FitsImage(s) && UniqueGenerations(s.records) && DigestsMatch(DigestOf(h), s)
    ensures ReadImage(h, SavedImage(h, s, states)).Ok? ==>
      ReadImage(h, SavedImage(h, s, states)) == Ok(SavedContents(s, states).Persisted())
  {
    hide Shape, PutContents, GetContents, PutImage, OpenImage, FitsImage, UniqueGenerations, DigestsMatch,
         DistinctRecords, AllSealed, DigestOf, SemanticDigest;
    var c := SavedContents(s, states);
    ContentsReadBack(c, []);
    ImageOpens(h, PutContents(c, []));
    BoundsWhenSaved(s, states);
    DistinctWhenRead(s);
    SealedWhenRead(h, s);
  }

  // -------- What the loaded engine is --------

  lemma StoredRecords(s: EngineState, id: u64)
    requires Shape(s) && UniqueGenerations(s.records)
    ensures id in RecordTable(ReadBack(s)) <==> id in s.records
    ensures id in s.records ==> RecordTable(ReadBack(s))[id] == s.records[id].Persisted()
  {
    hide Shape, UniqueGenerations;
    DistinctWhenRead(s);
    RecordTableMeaning(ReadBack(s));
    if id in s.records {
      var i := IsSaved(s, id);
      SavedRecord(s, i);
      assert ReadBack(s)[i] == s.records[id].Persisted();
    }
    if id in RecordTable(ReadBack(s)) {
      var r := RecordTable(ReadBack(s))[id];
      var i :| 0 <= i < |ReadBack(s)| && ReadBack(s)[i] == r;
      SavedRecord(s, i);
    }
  }

  lemma PersistedRecoversSame(D: Digest, rec: StateRecord, isCurrent: bool)
    ensures RecoveredRecord(D, rec.Persisted(), isCurrent) == RecoveredRecord(D, rec, isCurrent)
  {
    assert rec.Persisted().Persisted() == rec.Persisted();
    assert RecoveredLocations(rec.Persisted().locations) == RecoveredLocations(rec.locations);
  }

  ghost predicate PersistedForm(a: map<u64, StateRecord>, b: map<u64, StateRecord>) {
    b.Keys == a.Keys && forall id :: id in a ==> b[id] == a[id].Persisted()
  }

  /** Histories are rebuilt from record ids and states alone. */
  lemma SameStatesSameHistory(a: map<u64, StateRecord>, b: map<u64, StateRecord>)
    requires a.Keys == b.Keys && forall id :: id in a ==> a[id].stateId == b[id].stateId
    ensures RebuiltHistory(a) == RebuiltHistory(b)
  {
    assert StatesOf(a) == StatesOf(b) by {
      forall state ensures state in StatesOf(a) <==> state in StatesOf(b) {
        if state in StatesOf(a) {
          var id :| id in a && a[id].stateId == state;
          assert id in b && b[id].stateId == state;
        }
        if state in StatesOf(b) {
          var id :| id in b && b[id].stateId == state;
          assert id in a && a[id].stateId == state;
        }
      }
    }
    forall state | state in StatesOf(a) ensures RebuiltHistory(a)[state] == RebuiltHistory(b)[state] {
      assert forall id :: id in a && a[id].stateId == state <==> id in b && b[id].stateId == state;
    }
  }

  lemma PersistedTableRecoversSame(D: Digest, s: EngineState, t: EngineState)
    requires PersistedForm(s.records, t.records) && t.current == s.current
    ensures RecoveredRecords(D, t) == RecoveredRecords(D, s)
    ensures RebuiltHistory(t.records) == RebuiltHistory(s.records)
  {
    hide RecoveredRecord, RebuiltHistory, StatesOf;
    forall id | id in s.records
      ensures RecoveredRecords(D, t)[id] == RecoveredRecords(D, s)[id] && t.records[id].stateId == s.records[id].stateId
    {
      PersistedRecoversSame(D, s.records[id], IsCurrent(s.current, s.records[id]));
    }
    assert RecoveredRecords(D, t) == RecoveredRecords(D, s);
    SameStatesSameHistory(t.records, s.records);
  }

  lemma PersistedTableIsBatch(a: map<u64, StateRecord>, b: map<u64, StateRecord>, T: map<u64, TombstoneRecord>,
                              current: map<u64, u64>)
    requires PersistedForm(a, b)
    ensures IsBatchCurrent(a, T, current) <==> IsBatchCurrent(b, T, current)
  {
    BatchReadsLittle(a, b, T, current);
  }

  /** Loading what was saved from a state that obeys the batch rule gives exactly its recovered form:
      the same records, current map, tombstones, invalidations, epoch and counters, with histories rebuilt
      and process-local locations marked for revalidation, whatever order the tombstones were written in. */
  lemma LoadGivesRecovered(h: Hash, s: EngineState, states: seq<u64>, registry: Registry, t: EngineState)
    requires Shape(s) && CurrentIsBatch(s) && UniqueGenerations(s.records) && Lists(states, s.tombstones.Keys)
    ensures Loads(DigestOf(h), SavedContents(s, states).Persisted(), registry, t)
      <==> t == Recovered(DigestOf(h), s, registry)
  {
    var c := SavedContents(s, states).Persisted();
    TombstonesSurvive(s, states);
    StoredForm(s);
    var stored := StoredState(c, t.current);
    hide Shape, RecordTable, TombstoneTable, PersistedForm, IsBatchCurrent, UniqueGenerations, RecoveredRecords,
         RebuiltHistory, DigestOf;
    PersistedTableIsBatch(s.records, stored.records, s.tombstones, t.current);
    if CurrentIsBatch(stored) {
      BatchCurrentUnique(s.records, s.tombstones, t.current, s.current);
    }
    if t.current == s.current {
      PersistedTableRecoversSame(DigestOf(h), s, stored);
    }
  }

  lemma StoredForm(s: EngineState)
    requires Shape(s) && UniqueGenerations(s.records)
    ensures PersistedForm(s.records, RecordTable(ReadBack(s)))
  {
    hide Shape, UniqueGenerations;
    forall id ensures (id in RecordTable(ReadBack(s)) <==> id in s.records)
      && (id in s.records ==> RecordTable(ReadBack(s))[id] == s.records[id].Persisted())
    {
      StoredRecords(s, id);
    }
  }

  /** Recovering twice is recovering once: the second save and load only replaces the registry. */
  lemma RecoveryIdempotent(D: Digest, s: EngineState, r1: Registry, r2: Registry)
    requires Shape(s)
    ensures Recovered(D, Recovered(D, s, r1), r2) == Recovered(D, s, r1).(authority := r2.Reset(s.authority.epoch))
  {
    hide RecoveredRecord, RebuiltHistory, StatesOf;
    var t := Recovered(D, s, r1);
    forall id | id in s.records
      ensures RecoveredRecords(D, t)[id] == t.records[id] && t.records[id].stateId == s.records[id].stateId
    {
      RecordRecoversOnce(D, s.records[id], IsCurrent(s.current, s.records[id]));
    }
    assert RecoveredRecords(D, t) == t.records;
    SameStatesSameHistory(t.records, s.records);
  }

  lemma RecordRecoversOnce(D: Digest, rec: StateRecord, isCurrent: bool)
    ensures var once := RecoveredRecord(D, rec, isCurrent);
      && once.stateId == rec.stateId && once.recordId == rec.recordId
      && RecoveredRecord(D, once, isCurrent) == once
  {
    var once := RecoveredRecord(D, rec, isCurrent);
    assert RecoveredLocations(once.locations) == once.locations;
    assert PersistedLocations(once.locations) == once.locations;
  }

  /** Every reachable state within the bounds, with one record per generation, saves to an image that
      loads into any engine, and the loaded engine is the state's recovered form. */
  lemma ReachableImageLoads(h: Hash, ss: seq<EngineState>, ops: seq<Op>, i: nat, states: seq<u64>, registry: Registry)
    requires IsRun(DigestOf(h), ss, ops) && i < |ss|
    requires Lists(states, ss[i].tombstones.Keys) && SavedContents(ss[i], states).CountsFit()
    requires FitsImage(ss[i]) && UniqueGenerations(ss[i].records)
    ensures ReadImage(h, SavedImage(h, ss[i], states)) == Ok(SavedContents(ss[i], states).Persisted())
    ensures Loads(DigestOf(h), SavedContents(ss[i], states).Persisted(), registry,
      Recovered(DigestOf(h), ss[i], registry))
  {
    hide Step, Allowed, Shape, SavedContents, SavedImage, IsBatchCurrent, UniqueGenerations, Recovered, Loads,
         DigestsMatch;
    DigestIgnoresUnhashed(h);
    ReachableInv(DigestOf(h), ss, ops, i);
    SavedImageLoads(h, ss[i], states);
    LoadGivesRecovered(h, ss[i], states, registry, Recovered(DigestOf(h), ss[i], registry));
  }
}
