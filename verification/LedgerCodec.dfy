/** The byte format of invalidations, tombstones and counters, and the methods that write and read it. */
module LedgerCodec {
  import opened Basics
  import opened ByteBuf
  import opened Model
  import opened RecordCodec

  // -------- Printers --------

  function PutInvalidation(i: InvalidationRecord, tail: Bytes): Bytes {
    PutU64(i.invalidationSeq, PutU64(i.invalidationId, PutU64(i.stateId, PutU64(i.boundGeneration,
    PutU64(i.coordinatorEpoch, PutU64(i.workerBoot, PutU64(i.recordGeneration, PutU64(i.locationGeneration,
    PutU64(i.compatibilityGeneration, PutU64(i.provenanceGeneration, PutU64(i.dependencyGeneration,
    PutU64(i.policyGeneration, PutText(i.reason, PutI64(i.timestamp, PutU8(i.evidence,
    PutBool(i.current, tail))))))))))))))))
  }

  function PutTombstone(t: TombstoneRecord, tail: Bytes): Bytes {
    PutU64(t.tombstoneId, PutU64(t.stateId, PutU64(t.floorGeneration, PutU64(t.coordinatorEpoch,
    PutU64(t.workerBoot, PutText(t.reason, PutI64(t.timestamp, PutU8(t.evidence, PutBool(t.current, tail)))))))))
  }

  function PutAccounting(a: Accounting, tail: Bytes): Bytes {
    PutCount(a.logicalStates, PutCount(a.currentStates, PutCount(a.historicalRecords, PutCount(a.locations,
    PutCount(a.replicas, PutCount(a.cudaLocations, PutCount(a.hostLocations, PutCount(a.storageLocations,
    PutCount(a.invalidations, PutCount(a.tombstones, PutCount(a.dependencies, PutCount(a.exactQueries,
    PutCount(a.predicateQueries, PutCount(a.queryHits, PutCount(a.queryMisses, PutCount(a.staleOnlyOutcomes,
    PutCount(a.incompatibleOnlyOutcomes, PutCount(a.staleMutationRejections, PutCount(a.duplicateMutationRejections,
    PutCount(a.workerRestarts, tail))))))))))))))))))))
  }

  // -------- Parsers --------

  function GetInvalidation(s: Bytes): Option<(InvalidationRecord, Bytes)> {
    var (number, s) :- GetU64(s);
    var (id, s) :- GetU64(s);
    var (state, s) :- GetU64(s);
    var (bound, s) :- GetU64(s);
    var (epoch, s) :- GetU64(s);
    var (boot, s) :- GetU64(s);
    var (recordGeneration, s) :- GetU64(s);
    var (locationGeneration, s) :- GetU64(s);
    var (compatibilityGeneration, s) :- GetU64(s);
    var (provenanceGeneration, s) :- GetU64(s);
    var (dependencyGeneration, s) :- GetU64(s);
    var (policyGeneration, s) :- GetU64(s);
    var (reason, s) :- GetText(s);
    var (timestamp, s) :- GetI64(s);
    var (evidence, s) :- GetU8(s);
    var (current, s) :- GetBool(s);
    Some((InvalidationRecord(number, id, state, bound, epoch, boot, recordGeneration, locationGeneration,
                             compatibilityGeneration, provenanceGeneration, dependencyGeneration, policyGeneration,
                             reason, timestamp, evidence, current), s))
  }

  function GetTombstone(s: Bytes): Option<(TombstoneRecord, Bytes)> {
    var (id, s) :- GetU64(s);
    var (state, s) :- GetU64(s);
    var (floor, s) :- GetU64(s);
    var (epoch, s) :- GetU64(s);
    var (boot, s) :- GetU64(s);
    var (reason, s) :- GetText(s);
    var (timestamp, s) :- GetI64(s);
    var (evidence, s) :- GetU8(s);
    var (current, s) :- GetBool(s);
    Some((TombstoneRecord(id, state, floor, epoch, boot, reason, timestamp, evidence, current), s))
  }

  function GetAccounting(s: Bytes): Option<(Accounting, Bytes)> {
    var (logicalStates, s) :- GetU64(s);
    var (currentStates, s) :- GetU64(s);
    var (historicalRecords, s) :- GetU64(s);
    var (locations, s) :- GetU64(s);
    var (replicas, s) :- GetU64(s);
    var (cudaLocations, s) :- GetU64(s);
    var (hostLocations, s) :- GetU64(s);
    var (storageLocations, s) :- GetU64(s);
    var (invalidations, s) :- GetU64(s);
    var (tombstones, s) :- GetU64(s);
    var (dependencies, s) :- GetU64(s);
    var (exactQueries, s) :- GetU64(s);
    var (predicateQueries, s) :- GetU64(s);
    var (queryHits, s) :- GetU64(s);
    var (queryMisses, s) :- GetU64(s);
    var (staleOnly, s) :- GetU64(s);
    var (incompatibleOnly, s) :- GetU64(s);
    var (staleRejections, s) :- GetU64(s);
    var (duplicateRejections, s) :- GetU64(s);
    var (workerRestarts, s) :- GetU64(s);
    Some((Accounting(logicalStates, currentStates, historicalRecords, locations, replicas, cudaLocations, hostLocations,
                     storageLocations, invalidations, tombstones, dependencies, exactQueries, predicateQueries,
                     queryHits, queryMisses, staleOnly, incompatibleOnly, staleRejections, duplicateRejections,
                     workerRestarts), s))
  }

  // -------- Round trips --------

  lemma InvalidationRoundTrip()
    ensures Undoes(GetInvalidation, PutInvalidation, (i: InvalidationRecord) => i)
  {
    ScalarsRoundTrip();
    TextsRoundTrip();
    hide PutU8, PutU64, PutI64, PutBool, PutText, GetU8, GetU64, GetI64, GetBool, GetText;
    forall i: InvalidationRecord, t: Bytes ensures GetInvalidation(PutInvalidation(i, t)) == Some((i, t)) {
    }
  }

  lemma TombstoneRoundTrip()
    ensures Undoes(GetTombstone, PutTombstone, (t: TombstoneRecord) => t)
  {
    ScalarsRoundTrip();
    TextsRoundTrip();
    hide PutU8, PutU64, PutI64, PutBool, PutText, GetU8, GetU64, GetI64, GetBool, GetText;
    forall x: TombstoneRecord, t: Bytes ensures GetTombstone(PutTombstone(x, t)) == Some((x, t)) {
    }
  }

  lemma CountsRoundTrip()
    ensures forall n: nat, t: Bytes {:trigger PutCount(n, t)} :: n <= MAX_U64 ==> GetU64(PutCount(n, t)) == Some((n, t))
  {
    Powers();
    forall n: nat, t: Bytes | n <= MAX_U64 ensures GetU64(PutCount(n, t)) == Some((n, t)) {
      NumberRoundTrip(n, 8, t);
    }
  }

  lemma AccountingRoundTrip(a: Accounting, t: Bytes)
    requires a.Fits()
    ensures GetAccounting(PutAccounting(a, t)) == Some((a, t))
  {
    CountsRoundTrip();
    hide PutCount, GetU64;
  }

  // -------- Writers --------

  method SerializeInvalidation(i: InvalidationRecord, w: ByteWriter)
    modifies w
    ensures forall t: Bytes {:trigger PutInvalidation(i, t)} :: w.buf + t == old(w.buf) + PutInvalidation(i, t)
  {
    hide PutU8, PutU64, PutI64, PutBool, PutText;
    w.PushU64(i.invalidationSeq);
    w.PushU64(i.invalidationId);
    w.PushU64(i.stateId);
    w.PushU64(i.boundGeneration);
    w.PushU64(i.coordinatorEpoch);
    w.PushU64(i.workerBoot);
    w.PushU64(i.recordGeneration);
    w.PushU64(i.locationGeneration);
    w.PushU64(i.compatibilityGeneration);
    w.PushU64(i.provenanceGeneration);
    w.PushU64(i.dependencyGeneration);
    w.PushU64(i.policyGeneration);
    w.PushString(i.reason);
    w.PushI64(i.timestamp);
    w.PushByte(i.evidence);
    w.PushBool(i.current);
  }

  method SerializeTombstone(x: TombstoneRecord, w: ByteWriter)
    modifies w
    ensures forall t: Bytes {:trigger PutTombstone(x, t)} :: w.buf + t == old(w.buf) + PutTombstone(x, t)
  {
    hide PutU8, PutU64, PutI64, PutBool, PutText;
    w.PushU64(x.tombstoneId);
    w.PushU64(x.stateId);
    w.PushU64(x.floorGeneration);
    w.PushU64(x.coordinatorEpoch);
    w.PushU64(x.workerBoot);
    w.PushString(x.reason);
    w.PushI64(x.timestamp);
    w.PushByte(x.evidence);
    w.PushBool(x.current);
  }

  method SerializeInvalidations(invs: seq<InvalidationRecord>, w: ByteWriter)
    modifies w
    ensures forall t: Bytes {:trigger PutList(PutInvalidation, invs, t)} ::
      w.buf + t == old(w.buf) + PutList(PutInvalidation, invs, t)
  {
    hide PutInvalidation;
    ghost var before := w.buf;
    AppendedNothing(PutInvalidation, before, invs);
    var i := 0;
    while i < |invs|
      invariant 0 <= i <= |invs| && Appended(PutInvalidation, before, invs, i, w.buf)
    {
      ghost var middle := w.buf;
      SerializeInvalidation(invs[i], w);
      AppendedOneMore(PutInvalidation, before, invs, i, middle, w.buf);
      i := i + 1;
    }
    AppendedAll(PutInvalidation, before, invs, w.buf);
  }

  method SerializeTombstones(ts: seq<TombstoneRecord>, w: ByteWriter)
    modifies w
    ensures forall t: Bytes {:trigger PutList(PutTombstone, ts, t)} ::
      w.buf + t == old(w.buf) + PutList(PutTombstone, ts, t)
  {
    hide PutTombstone;
    ghost var before := w.buf;
    AppendedNothing(PutTombstone, before, ts);
    var i := 0;
    while i < |ts|
      invariant 0 <= i <= |ts| && Appended(PutTombstone, before, ts, i, w.buf)
    {
      ghost var middle := w.buf;
      SerializeTombstone(ts[i], w);
      AppendedOneMore(PutTombstone, before, ts, i, middle, w.buf);
      i := i + 1;
    }
    AppendedAll(PutTombstone, before, ts, w.buf);
  }

  method SerializeAccounting(a: Accounting, w: ByteWriter)
    modifies w
    ensures forall t: Bytes {:trigger PutAccounting(a, t)} :: w.buf + t == old(w.buf) + PutAccounting(a, t)
  {
    hide PutNumber;
    w.PushNumber(a.logicalStates, 8);
    w.PushNumber(a.currentStates, 8);
    w.PushNumber(a.historicalRecords, 8);
    w.PushNumber(a.locations, 8);
    w.PushNumber(a.replicas, 8);
    w.PushNumber(a.cudaLocations, 8);
    w.PushNumber(a.hostLocations, 8);
    w.PushNumber(a.storageLocations, 8);
    w.PushNumber(a.invalidations, 8);
    w.PushNumber(a.tombstones, 8);
    w.PushNumber(a.dependencies, 8);
    w.PushNumber(a.exactQueries, 8);
    w.PushNumber(a.predicateQueries, 8);
    w.PushNumber(a.queryHits, 8);
    w.PushNumber(a.queryMisses, 8);
    w.PushNumber(a.staleOnlyOutcomes, 8);
    w.PushNumber(a.incompatibleOnlyOutcomes, 8);
    w.PushNumber(a.staleMutationRejections, 8);
    w.PushNumber(a.duplicateMutationRejections, 8);
    w.PushNumber(a.workerRestarts, 8);
  }

  // -------- Readers --------

  method DeserializeInvalidation(r: ByteReader) returns (res: Option<InvalidationRecord>)
    requires r.Valid()
    modifies r`pos
    ensures r.Valid() && Reads(res, r.Rest(), GetInvalidation(old(r.Rest())))
  {
    hide GetU8, GetU64, GetI64, GetBool, GetText;
    var number :- r.ReadU64();
    var id :- r.ReadU64();
    var state :- r.ReadU64();
    var bound :- r.ReadU64();
    var epoch :- r.ReadU64();
    var boot :- r.ReadU64();
    var recordGeneration :- r.ReadU64();
    var locationGeneration :- r.ReadU64();
    var compatibilityGeneration :- r.ReadU64();
    var provenanceGeneration :- r.ReadU64();
    var dependencyGeneration :- r.ReadU64();
    var policyGeneration :- r.ReadU64();
    var reason :- r.ReadString();
    var timestamp :- r.ReadI64();
    var evidence :- r.ReadU8();
    var current :- r.ReadBool();
    res := Some(InvalidationRecord(number, id, state, bound, epoch, boot, recordGeneration, locationGeneration,
                                   compatibilityGeneration, provenanceGeneration, dependencyGeneration,
                                   policyGeneration, reason, timestamp, evidence, current));
  }

  method DeserializeTombstone(r: ByteReader) returns (res: Option<TombstoneRecord>)
    requires r.Valid()
    modifies r`pos
    ensures r.Valid() && Reads(res, r.Rest(), GetTombstone(old(r.Rest())))
  {
    hide GetU8, GetU64, GetI64, GetBool, GetText;
    var id :- r.ReadU64();
    var state :- r.ReadU64();
    var floor :- r.ReadU64();
    var epoch :- r.ReadU64();
    var boot :- r.ReadU64();
    var reason :- r.ReadString();
    var timestamp :- r.ReadI64();
    var evidence :- r.ReadU8();
    var current :- r.ReadBool();
    res := Some(TombstoneRecord(id, state, floor, epoch, boot, reason, timestamp, evidence, current));
  }

  method DeserializeAccounting(r: ByteReader) returns (res: Option<Accounting>)
    requires r.Valid()
    modifies r`pos
    ensures r.Valid() && Reads(res, r.Rest(), GetAccounting(old(r.Rest())))
  {
    hide GetU64;
    var logicalStates :- r.ReadU64();
    var currentStates :- r.ReadU64();
    var historicalRecords :- r.ReadU64();
    var locations :- r.ReadU64();
    var replicas :- r.ReadU64();
    var cudaLocations :- r.ReadU64();
    var hostLocations :- r.ReadU64();
    var storageLocations :- r.ReadU64();
    var invalidations :- r.ReadU64();
    var tombstones :- r.ReadU64();
    var dependencies :- r.ReadU64();
    var exactQueries :- r.ReadU64();
    var predicateQueries :- r.ReadU64();
    var queryHits :- r.ReadU64();
    var queryMisses :- r.ReadU64();
    var staleOnly :- r.ReadU64();
    var incompatibleOnly :- r.ReadU64();
    var staleRejections :- r.ReadU64();
    var duplicateRejections :- r.ReadU64();
    var workerRestarts :- r.ReadU64();
    res := Some(Accounting(logicalStates, currentStates, historicalRecords, locations, replicas, cudaLocations,
                           hostLocations, storageLocations, invalidations, tombstones, dependencies, exactQueries,
                           predicateQueries, queryHits, queryMisses, staleOnly, incompatibleOnly, staleRejections,
                           duplicateRejections, workerRestarts));
  }
}
