/** The byte formats as plain concatenations: which field stands where and how wide it is. */
module Layouts {
  import opened Basics
  import opened ByteBuf
  import opened Crc
  import opened Model
  import opened RecordCodec
  import opened RecordIO
  import opened LedgerCodec
  import opened Image
  import opened Frame
  import opened Queries
  import opened QueryCodec

  // -------- Fields --------

  /** The digits of n to the base 256, the lowest first. */
  function Number(n: nat, width: nat): (b: Bytes)
    ensures |b| == width
  {
    seq(width, i requires 0 <= i < width => Digit(n, i))
  }

  function Digit(n: nat, i: nat): u8 {
    if i == 0 then n % 256 else Digit(n / 256, i - 1)
  }

  /** A negative number is written as its complement to 2^64. */
  function Signed(n: i64): Bytes {
    Number(if n < 0 then 0x1_0000_0000_0000_0000 + n else n, 8)
  }

  function Flag(b: bool): Bytes {
    if b then [1] else [0]
  }

  function Chars(s: Bytes): Bytes {
    Number(|s|, 8) + s
  }

  function Joined(parts: seq<Bytes>): Bytes {
    if parts == [] then [] else parts[0] + Joined(parts[1..])
  }

  /** The values one after the other. */
  function Values<T>(bytes: T -> Bytes, xs: seq<T>): Bytes {
    Joined(Map(bytes, xs))
  }

  function Optional<T>(bytes: T -> Bytes, x: Option<T>): Bytes {
    if x.None? then [0] else [1] + bytes(x.value)
  }

  lemma {:induction false} EndianDigits(n: nat, width: nat)
    ensures LittleEndian(n, width) == Number(n, width)
    decreases width
  {
    if width > 0 {
      EndianDigits(n / 256, width - 1);
      forall i: nat | i < width ensures LittleEndian(n, width)[i] == Digit(n, i) {
        if i > 0 {
          assert LittleEndian(n, width)[i] == LittleEndian(n / 256, width - 1)[i - 1];
        }
      }
    }
  }

  // -------- What each printer puts in front of a tail --------

  lemma Scalars()
    ensures forall v: u8, t: Bytes {:trigger PutU8(v, t)} :: PutU8(v, t) == [v] + t
    ensures forall v: u16, t: Bytes {:trigger PutU16(v, t)} :: PutU16(v, t) == Number(v, 2) + t
    ensures forall v: u32, t: Bytes {:trigger PutU32(v, t)} :: PutU32(v, t) == Number(v, 4) + t
    ensures forall v: u64, t: Bytes {:trigger PutU64(v, t)} :: PutU64(v, t) == Number(v, 8) + t
    ensures forall v: i64, t: Bytes {:trigger PutI64(v, t)} :: PutI64(v, t) == Signed(v) + t
    ensures forall v: bool, t: Bytes {:trigger PutBool(v, t)} :: PutBool(v, t) == Flag(v) + t
    ensures forall n: nat, t: Bytes {:trigger PutCount(n, t)} :: PutCount(n, t) == Number(n, 8) + t
    ensures forall s: Text, t: Bytes {:trigger PutText(s, t)} :: PutText(s, t) == Chars(s) + t
  {
    hide LittleEndian, Number;
    forall n: nat, width: nat ensures LittleEndian(n, width) == Number(n, width) {
      EndianDigits(n, width);
    }
    forall s: Text, t: Bytes ensures PutText(s, t) == Chars(s) + t {
      Associates(Number(|s|, 8), s, t);
    }
  }

  lemma {:induction false} ListLayout<T(!new)>(put: Printer<T>, bytes: T -> Bytes, xs: seq<T>, t: Bytes)
    requires forall x: T, u: Bytes :: put(x, u) == bytes(x) + u
    ensures PutList(put, xs, t) == Values(bytes, xs) + t
    decreases |xs|
  {
    if xs != [] {
      ListLayout(put, bytes, xs[1..], t);
      assert Map(bytes, xs)[1..] == Map(bytes, xs[1..]);
      Associates(bytes(xs[0]), Joined(Map(bytes, xs[1..])), t);
    } else {
      assert [] + t == t;
    }
  }

  lemma OptionalLayout<T(!new)>(put: Printer<T>, bytes: T -> Bytes, x: Option<T>, t: Bytes)
    requires forall v: T, u: Bytes :: put(v, u) == bytes(v) + u
    ensures PutOption(put, x, t) == Optional(bytes, x) + t
  {
    if x.Some? {
      Associates([1], bytes(x.value), t);
    }
  }

  lemma Flat3(a: Bytes, b: Bytes, c: Bytes, t: Bytes)
    ensures a + b + c + t == a + (b + (c + t))
  {
    Associates(a + b, c, t);
    Associates(a, b, c + t);
  }

  lemma Flat4(a: Bytes, b: Bytes, c: Bytes, d: Bytes, t: Bytes)
    ensures a + b + c + d + t == a + (b + (c + (d + t)))
  {
    Associates(a + b + c, d, t);
    Flat3(a, b, c, d + t);
  }

  lemma Flat5(a: Bytes, b: Bytes, c: Bytes, d: Bytes, e: Bytes, t: Bytes)
    ensures a + b + c + d + e + t == a + (b + (c + (d + (e + t))))
  {
    Associates(a + b + c + d, e, t);
    Flat4(a, b, c, d, e + t);
  }

  lemma Flat6(a: Bytes, b: Bytes, c: Bytes, d: Bytes, e: Bytes, f: Bytes, t: Bytes)
    ensures a + b + c + d + e + f + t == a + (b + (c + (d + (e + (f + t)))))
  {
    Associates(a + b + c + d + e, f, t);
    Flat5(a, b, c, d, e, f + t);
  }

  // -------- Ledgers --------

  function TombstoneBytes(x: TombstoneRecord): Bytes {
    (Number(x.tombstoneId, 8) + Number(x.stateId, 8) + Number(x.floorGeneration, 8) + Number(x.coordinatorEpoch, 8)
      + Number(x.workerBoot, 8))
    + (Chars(x.reason) + Signed(x.timestamp) + [x.evidence] + Flag(x.current))
  }

  lemma TombstoneLayout(x: TombstoneRecord, t: Bytes)
    ensures PutTombstone(x, t) == TombstoneBytes(x) + t
  {
    hide Number, Chars, Signed, Flag, PutU8, PutU16, PutU32, PutU64, PutI64, PutBool, PutText, PutCount;
    Scalars();
    var part1 := Number(x.tombstoneId, 8) + Number(x.stateId, 8) + Number(x.floorGeneration, 8)
      + Number(x.coordinatorEpoch, 8) + Number(x.workerBoot, 8);
    var part2 := Chars(x.reason) + Signed(x.timestamp) + [x.evidence] + Flag(x.current);
    Flat4(Chars(x.reason), Signed(x.timestamp), [x.evidence], Flag(x.current), t);
    Flat5(Number(x.tombstoneId, 8), Number(x.stateId, 8), Number(x.floorGeneration, 8), Number(x.coordinatorEpoch, 8),
          Number(x.workerBoot, 8), part2 + t);
    Associates(part1, part2, t);
  }

  function InvalidationBytes(i: InvalidationRecord): Bytes {
    (Number(i.invalidationSeq, 8) + Number(i.invalidationId, 8) + Number(i.stateId, 8) + Number(i.boundGeneration, 8)
      + Number(i.coordinatorEpoch, 8) + Number(i.workerBoot, 8))
    + (Number(i.recordGeneration, 8) + Number(i.locationGeneration, 8) + Number(i.compatibilityGeneration, 8)
      + Number(i.provenanceGeneration, 8) + Number(i.dependencyGeneration, 8) + Number(i.policyGeneration, 8))
    + (Chars(i.reason) + Signed(i.timestamp) + [i.evidence] + Flag(i.current))
  }

  lemma InvalidationLayout(i: InvalidationRecord, t: Bytes)
    ensures PutInvalidation(i, t) == InvalidationBytes(i) + t
  {
    hide Number, Chars, Signed, Flag, PutU8, PutU16, PutU32, PutU64, PutI64, PutBool, PutText, PutCount;
    Scalars();
    var part1 := Number(i.invalidationSeq, 8) + Number(i.invalidationId, 8) + Number(i.stateId, 8)
      + Number(i.boundGeneration, 8) + Number(i.coordinatorEpoch, 8) + Number(i.workerBoot, 8);
    var part2 := Number(i.recordGeneration, 8) + Number(i.locationGeneration, 8)
      + Number(i.compatibilityGeneration, 8) + Number(i.provenanceGeneration, 8) + Number(i.dependencyGeneration, 8)
      + Number(i.policyGeneration, 8);
    var part3 := Chars(i.reason) + Signed(i.timestamp) + [i.evidence] + Flag(i.current);
    Flat4(Chars(i.reason), Signed(i.timestamp), [i.evidence], Flag(i.current), t);
    Flat6(Number(i.recordGeneration, 8), Number(i.locationGeneration, 8), Number(i.compatibilityGeneration, 8),
          Number(i.provenanceGeneration, 8), Number(i.dependencyGeneration, 8), Number(i.policyGeneration, 8),
          part3 + t);
    Flat6(Number(i.invalidationSeq, 8), Number(i.invalidationId, 8), Number(i.stateId, 8),
          Number(i.boundGeneration, 8), Number(i.coordinatorEpoch, 8), Number(i.workerBoot, 8), part2 + (part3 + t));
    Flat3(part1, part2, part3, t);
  }

  function AccountingBytes(a: Accounting): Bytes {
    (Number(a.logicalStates, 8) + Number(a.currentStates, 8) + Number(a.historicalRecords, 8) + Number(a.locations, 8)
      + Number(a.replicas, 8))
    + (Number(a.cudaLocations, 8) + Number(a.hostLocations, 8) + Number(a.storageLocations, 8)
      + Number(a.invalidations, 8) + Number(a.tombstones, 8))
    + (Number(a.dependencies, 8) + Number(a.exactQueries, 8) + Number(a.predicateQueries, 8) + Number(a.queryHits, 8)
      + Number(a.queryMisses, 8))
    + (Number(a.staleOnlyOutcomes, 8) + Number(a.incompatibleOnlyOutcomes, 8) + Number(a.staleMutationRejections, 8)
      + Number(a.duplicateMutationRejections, 8) + Number(a.workerRestarts, 8))
  }

  lemma AccountingLayout(a: Accounting, t: Bytes)
    ensures PutAccounting(a, t) == AccountingBytes(a) + t
  {
    hide Number, Chars, Signed, Flag, PutU8, PutU16, PutU32, PutU64, PutI64, PutBool, PutText, PutCount;
    Scalars();
    var part1 := Number(a.logicalStates, 8) + Number(a.currentStates, 8) + Number(a.historicalRecords, 8)
      + Number(a.locations, 8) + Number(a.replicas, 8);
    var part2 := Number(a.cudaLocations, 8) + Number(a.hostLocations, 8) + Number(a.storageLocations, 8)
      + Number(a.invalidations, 8) + Number(a.tombstones, 8);
    var part3 := Number(a.dependencies, 8) + Number(a.exactQueries, 8) + Number(a.predicateQueries, 8)
      + Number(a.queryHits, 8) + Number(a.queryMisses, 8);
    var part4 := Number(a.staleOnlyOutcomes, 8) + Number(a.incompatibleOnlyOutcomes, 8)
      + Number(a.staleMutationRejections, 8) + Number(a.duplicateMutationRejections, 8) + Number(a.workerRestarts, 8);
    Flat5(Number(a.staleOnlyOutcomes, 8), Number(a.incompatibleOnlyOutcomes, 8), Number(a.staleMutationRejections, 8),
          Number(a.duplicateMutationRejections, 8), Number(a.workerRestarts, 8), t);
    Flat5(Number(a.dependencies, 8), Number(a.exactQueries, 8), Number(a.predicateQueries, 8), Number(a.queryHits, 8),
          Number(a.queryMisses, 8), part4 + t);
    Flat5(Number(a.cudaLocations, 8), Number(a.hostLocations, 8), Number(a.storageLocations, 8),
          Number(a.invalidations, 8), Number(a.tombstones, 8), part3 + (part4 + t));
    Flat5(Number(a.logicalStates, 8), Number(a.currentStates, 8), Number(a.historicalRecords, 8),
          Number(a.locations, 8), Number(a.replicas, 8), part2 + (part3 + (part4 + t)));
    Flat4(part1, part2, part3, part4, t);
  }

  // -------- Records --------

  function CompatibilityBytes(c: CompatibilityRef): Bytes {
    Number(c.id, 8) + Number(c.generation, 8) + [c.outcome] + [c.freshness] + [c.provenance] + Chars(c.evidenceNote)
  }

  lemma CompatibilityLayout(c: CompatibilityRef, t: Bytes)
    ensures PutCompatibility(c, t) == CompatibilityBytes(c) + t
  {
    hide Number, Chars, Signed, Flag, PutU8, PutU16, PutU32, PutU64, PutI64, PutBool, PutText, PutCount;
    Scalars();
    Flat6(Number(c.id, 8), Number(c.generation, 8), [c.outcome], [c.freshness], [c.provenance], Chars(c.evidenceNote),
          t);
  }

  function ProvenanceBytes(p: ProvenanceRef): Bytes {
    (Number(p.id, 8) + Number(p.generation, 8) + Number(p.producer, 8) + Number(p.sourceGeneration, 8))
    + (Chars(p.derivationDigest) + [p.quality] + [p.freshness])
  }

  lemma ProvenanceLayout(p: ProvenanceRef, t: Bytes)
    ensures PutProvenance(p, t) == ProvenanceBytes(p) + t
  {
    hide Number, Chars, Signed, Flag, PutU8, PutU16, PutU32, PutU64, PutI64, PutBool, PutText, PutCount;
    Scalars();
    var part1 := Number(p.id, 8) + Number(p.generation, 8) + Number(p.producer, 8) + Number(p.sourceGeneration, 8);
    var part2 := Chars(p.derivationDigest) + [p.quality] + [p.freshness];
    Flat3(Chars(p.derivationDigest), [p.quality], [p.freshness], t);
    Flat4(Number(p.id, 8), Number(p.generation, 8), Number(p.producer, 8), Number(p.sourceGeneration, 8), part2 + t);
    Associates(part1, part2, t);
  }

  function DependencyBytes(d: DependencyRef): Bytes {
    Number(d.id, 8) + Number(d.generation, 8) + [d.kind] + Number(d.targetState, 8) + Number(d.requiredGeneration, 8)
    + Flag(d.required)
  }

  lemma DependencyLayout(d: DependencyRef, t: Bytes)
    ensures PutDependency(d, t) == DependencyBytes(d) + t
  {
    hide Number, Chars, Signed, Flag, PutU8, PutU16, PutU32, PutU64, PutI64, PutBool, PutText, PutCount;
    Scalars();
    Flat6(Number(d.id, 8), Number(d.generation, 8), [d.kind], Number(d.targetState, 8),
          Number(d.requiredGeneration, 8), Flag(d.required), t);
  }

  function RetrievalBytes(e: RetrievalEstimate): Bytes {
    ([e.evidence] + Number(e.localAccessCost, 8) + Number(e.expectedLatencyMs, 8) + Number(e.expectedBandwidthMbps, 8)
      + Number(e.transferBytes, 8))
    + (Number(e.restoreCost, 8) + Number(e.recomputeCost, 8) + Number(e.adaptationCost, 8) + Flag(e.stagingRequired)
      + Flag(e.restoreRequired))
  }

  lemma RetrievalLayout(e: RetrievalEstimate, t: Bytes)
    ensures PutRetrieval(e, t) == RetrievalBytes(e) + t
  {
    hide Number, Chars, Signed, Flag, PutU8, PutU16, PutU32, PutU64, PutI64, PutBool, PutText, PutCount;
    Scalars();
    var part1 := [e.evidence] + Number(e.localAccessCost, 8) + Number(e.expectedLatencyMs, 8)
      + Number(e.expectedBandwidthMbps, 8) + Number(e.transferBytes, 8);
    var part2 := Number(e.restoreCost, 8) + Number(e.recomputeCost, 8) + Number(e.adaptationCost, 8)
      + Flag(e.stagingRequired) + Flag(e.restoreRequired);
    Flat5(Number(e.restoreCost, 8), Number(e.recomputeCost, 8), Number(e.adaptationCost, 8), Flag(e.stagingRequired),
          Flag(e.restoreRequired), t);
    Flat5([e.evidence], Number(e.localAccessCost, 8), Number(e.expectedLatencyMs, 8),
          Number(e.expectedBandwidthMbps, 8), Number(e.transferBytes, 8), part2 + t);
    Associates(part1, part2, t);
  }

  function PlaceBytes(l: StateLocation): Bytes {
    (Number(l.placementId, 8) + Number(l.replicaId, 8) + Number(l.nodeId, 8) + Number(l.deviceId, 8)
      + Number(l.domainId, 8))
    + ([l.domain] + [l.backend] + [l.tier])
    + (Number(l.locationGeneration, 8) + Number(l.placementGeneration, 8) + Number(l.replicaGeneration, 8)
      + Chars(l.address) + Number(l.byteSize, 8))
  }

  lemma PlaceLayout(l: StateLocation, t: Bytes)
    ensures PutPlace(l, t) == PlaceBytes(l) + t
  {
    hide Number, Chars, Signed, Flag, PutU8, PutU16, PutU32, PutU64, PutI64, PutBool, PutText, PutCount;
    Scalars();
    var part1 := Number(l.placementId, 8) + Number(l.replicaId, 8) + Number(l.nodeId, 8) + Number(l.deviceId, 8)
      + Number(l.domainId, 8);
    var part2 := [l.domain] + [l.backend] + [l.tier];
    var part3 := Number(l.locationGeneration, 8) + Number(l.placementGeneration, 8) + Number(l.replicaGeneration, 8)
      + Chars(l.address) + Number(l.byteSize, 8);
    Flat5(Number(l.locationGeneration, 8), Number(l.placementGeneration, 8), Number(l.replicaGeneration, 8),
          Chars(l.address), Number(l.byteSize, 8), t);
    Flat3([l.domain], [l.backend], [l.tier], part3 + t);
    Flat5(Number(l.placementId, 8), Number(l.replicaId, 8), Number(l.nodeId, 8), Number(l.deviceId, 8),
          Number(l.domainId, 8), part2 + (part3 + t));
    Flat3(part1, part2, part3, t);
  }

  function ConditionBytes(l: StateLocation): Bytes {
    [l.accessClass] + [l.health] + [l.freshness] + [l.provenance] + Chars(l.localityMetadata)
    + RetrievalBytes(l.retrieval)
  }

  lemma ConditionLayout(l: StateLocation, t: Bytes)
    ensures PutCondition(l, t) == ConditionBytes(l) + t
  {
    hide Number, Chars, Signed, Flag, PutU8, PutU16, PutU32, PutU64, PutI64, PutBool, PutText, PutCount,
         PutRetrieval, RetrievalBytes;
    Scalars();
    RetrievalLayout(l.retrieval, t);
    Flat6([l.accessClass], [l.health], [l.freshness], [l.provenance], Chars(l.localityMetadata),
          RetrievalBytes(l.retrieval), t);
  }

  function SenderBytes(l: StateLocation): Bytes {
    Number(l.observationGeneration, 8) + Number(l.provenanceGeneration, 8) + Number(l.authorityEpoch, 8)
    + Number(l.authorityBoot, 8) + Signed(l.createdAt) + Signed(l.updatedAt)
  }

  lemma SenderLayout(l: StateLocation, t: Bytes)
    ensures PutAuthority(l, t) == SenderBytes(l) + t
  {
    hide Number, Chars, Signed, Flag, PutU8, PutU16, PutU32, PutU64, PutI64, PutBool, PutText, PutCount;
    Scalars();
    Flat6(Number(l.observationGeneration, 8), Number(l.provenanceGeneration, 8), Number(l.authorityEpoch, 8),
          Number(l.authorityBoot, 8), Signed(l.createdAt), Signed(l.updatedAt), t);
  }

  function LocationBytes(l: StateLocation): Bytes {
    PlaceBytes(l) + ConditionBytes(l) + SenderBytes(l)
  }

  lemma LocationLayout(l: StateLocation, t: Bytes)
    ensures PutLocation(l, t) == LocationBytes(l) + t
  {
    hide PutPlace, PutCondition, PutAuthority, PlaceBytes, ConditionBytes, SenderBytes;
    SenderLayout(l, t);
    ConditionLayout(l, SenderBytes(l) + t);
    PlaceLayout(l, ConditionBytes(l) + (SenderBytes(l) + t));
    Flat3(PlaceBytes(l), ConditionBytes(l), SenderBytes(l), t);
  }

  lemma References()
    ensures forall x: Option<CompatibilityRef>, t: Bytes {:trigger PutOption(PutCompatibility, x, t)} ::
      PutOption(PutCompatibility, x, t) == Optional(CompatibilityBytes, x) + t
    ensures forall x: Option<ProvenanceRef>, t: Bytes {:trigger PutOption(PutProvenance, x, t)} ::
      PutOption(PutProvenance, x, t) == Optional(ProvenanceBytes, x) + t
    ensures forall xs: seq<DependencyRef>, t: Bytes {:trigger PutList(PutDependency, xs, t)} ::
      PutList(PutDependency, xs, t) == Values(DependencyBytes, xs) + t
    ensures forall xs: seq<StateLocation>, t: Bytes {:trigger PutList(PutLocation, xs, t)} ::
      PutList(PutLocation, xs, t) == Values(LocationBytes, xs) + t
  {
    hide PutOption, Optional, PutList, Values, PutCompatibility, PutProvenance, PutDependency, PutLocation,
         CompatibilityBytes, ProvenanceBytes, DependencyBytes, LocationBytes;
    forall v: CompatibilityRef, t: Bytes ensures PutCompatibility(v, t) == CompatibilityBytes(v) + t {
      CompatibilityLayout(v, t);
    }
    forall v: ProvenanceRef, t: Bytes ensures PutProvenance(v, t) == ProvenanceBytes(v) + t {
      ProvenanceLayout(v, t);
    }
    forall v: DependencyRef, t: Bytes ensures PutDependency(v, t) == DependencyBytes(v) + t {
      DependencyLayout(v, t);
    }
    forall v: StateLocation, t: Bytes ensures PutLocation(v, t) == LocationBytes(v) + t {
      LocationLayout(v, t);
    }
    forall x: Option<CompatibilityRef>, t: Bytes
      ensures PutOption(PutCompatibility, x, t) == Optional(CompatibilityBytes, x) + t
    {
      OptionalLayout(PutCompatibility, CompatibilityBytes, x, t);
    }
    forall x: Option<ProvenanceRef>, t: Bytes
      ensures PutOption(PutProvenance, x, t) == Optional(ProvenanceBytes, x) + t
    {
      OptionalLayout(PutProvenance, ProvenanceBytes, x, t);
    }
    forall xs: seq<DependencyRef>, t: Bytes
      ensures PutList(PutDependency, xs, t) == Values(DependencyBytes, xs) + t
    {
      ListLayout(PutDependency, DependencyBytes, xs, t);
    }
    forall xs: seq<StateLocation>, t: Bytes
      ensures PutList(PutLocation, xs, t) == Values(LocationBytes, xs) + t
    {
      ListLayout(PutLocation, LocationBytes, xs, t);
    }
  }

  function RecordHeadBytes(r: StateRecord): Bytes {
    (Number(r.recordId, 8) + Number(r.stateId, 8) + Number(r.stateGeneration, 8)
      + Number(r.descriptor.recordGeneration, 8) + Number(r.descriptor.kind, 2))
    + (Number(r.descriptor.namespaceId, 8) + Number(r.descriptor.ownerId, 8) + Number(r.descriptor.producerId, 8)
      + Number(r.descriptor.logicalSize, 8) + Chars(r.descriptor.contentDigest))
  }

  lemma RecordHeadLayout(r: StateRecord, t: Bytes)
    ensures PutRecordHead(r, t) == RecordHeadBytes(r) + t
  {
    hide Number, Chars, Signed, Flag, PutU8, PutU16, PutU32, PutU64, PutI64, PutBool, PutText, PutCount;
    Scalars();
    var part1 := Number(r.recordId, 8) + Number(r.stateId, 8) + Number(r.stateGeneration, 8)
      + Number(r.descriptor.recordGeneration, 8) + Number(r.descriptor.kind, 2);
    var part2 := Number(r.descriptor.namespaceId, 8) + Number(r.descriptor.ownerId, 8)
      + Number(r.descriptor.producerId, 8) + Number(r.descriptor.logicalSize, 8) + Chars(r.descriptor.contentDigest);
    Flat5(Number(r.descriptor.namespaceId, 8), Number(r.descriptor.ownerId, 8), Number(r.descriptor.producerId, 8),
          Number(r.descriptor.logicalSize, 8), Chars(r.descriptor.contentDigest), t);
    Flat5(Number(r.recordId, 8), Number(r.stateId, 8), Number(r.stateGeneration, 8),
          Number(r.descriptor.recordGeneration, 8), Number(r.descriptor.kind, 2), part2 + t);
    Associates(part1, part2, t);
  }

  function RecordBodyBytes(r: StateRecord): Bytes {
    Optional(CompatibilityBytes, r.descriptor.compatibility) + Optional(ProvenanceBytes, r.descriptor.provenance)
    + Number(|r.descriptor.dependencies|, 8) + Values(DependencyBytes, r.descriptor.dependencies)
    + Number(|r.locations|, 8) + Values(LocationBytes, r.locations)
  }

  lemma RecordBodyLayout(r: StateRecord, t: Bytes)
    ensures PutRecordBody(r, t) == RecordBodyBytes(r) + t
  {
    hide Number, Chars, Signed, Flag, PutU8, PutU16, PutU32, PutU64, PutI64, PutBool, PutText, PutCount, PutOption,
         PutList, Optional, Values, PutCompatibility, PutProvenance, PutDependency, PutLocation, CompatibilityBytes,
         ProvenanceBytes, DependencyBytes, LocationBytes;
    Scalars();
    References();
    Flat6(Optional(CompatibilityBytes, r.descriptor.compatibility), Optional(ProvenanceBytes, r.descriptor.provenance),
          Number(|r.descriptor.dependencies|, 8), Values(DependencyBytes, r.descriptor.dependencies),
          Number(|r.locations|, 8), Values(LocationBytes, r.locations), t);
  }

  function RecordEndBytes(r: StateRecord): Bytes {
    ([r.lifecycle] + [r.descriptor.freshness] + [r.descriptor.health] + Number(r.descriptor.policyGeneration, 8)
      + Number(r.descriptor.authorityEpoch, 8) + Number(r.authorityBoot, 8))
    + (Signed(r.descriptor.createdAt) + Signed(r.descriptor.updatedAt) + Number(r.descriptor.supersedesGeneration, 8)
      + Chars(r.descriptor.description) + Chars(r.semanticDigest))
  }

  lemma RecordEndLayout(r: StateRecord, t: Bytes)
    ensures PutRecordEnd(r, t) == RecordEndBytes(r) + t
  {
    hide Number, Chars, Signed, Flag, PutU8, PutU16, PutU32, PutU64, PutI64, PutBool, PutText, PutCount;
    Scalars();
    var part1 := [r.lifecycle] + [r.descriptor.freshness] + [r.descriptor.health]
      + Number(r.descriptor.policyGeneration, 8) + Number(r.descriptor.authorityEpoch, 8) + Number(r.authorityBoot, 8);
    var part2 := Signed(r.descriptor.createdAt) + Signed(r.descriptor.updatedAt)
      + Number(r.descriptor.supersedesGeneration, 8) + Chars(r.descriptor.description) + Chars(r.semanticDigest);
    Flat5(Signed(r.descriptor.createdAt), Signed(r.descriptor.updatedAt), Number(r.descriptor.supersedesGeneration, 8),
          Chars(r.descriptor.description), Chars(r.semanticDigest), t);
    Flat6([r.lifecycle], [r.descriptor.freshness], [r.descriptor.health], Number(r.descriptor.policyGeneration, 8),
          Number(r.descriptor.authorityEpoch, 8), Number(r.authorityBoot, 8), part2 + t);
    Associates(part1, part2, t);
  }

  function RecordBytes(r: StateRecord): Bytes {
    RecordHeadBytes(r) + RecordBodyBytes(r) + RecordEndBytes(r)
  }

  /** A record is its fields in this order, at these widths, and nothing between or behind them. */
  lemma RecordLayout(r: StateRecord, t: Bytes)
    ensures PutRecord(r, t) == RecordBytes(r) + t
  {
    hide PutRecordHead, PutRecordBody, PutRecordEnd, RecordHeadBytes, RecordBodyBytes, RecordEndBytes;
    RecordEndLayout(r, t);
    RecordBodyLayout(r, RecordEndBytes(r) + t);
    RecordHeadLayout(r, RecordBodyBytes(r) + (RecordEndBytes(r) + t));
    Flat3(RecordHeadBytes(r), RecordBodyBytes(r), RecordEndBytes(r), t);
  }

  // -------- Queries --------

  function Id(v: u64): Bytes {
    Number(v, 8)
  }

  function Code(v: u8): Bytes {
    [v]
  }

  function Kind(v: u16): Bytes {
    Number(v, 2)
  }

  function RequirementBytes(d: DependencyRequirement): Bytes {
    Number(d.targetState, 8) + Number(d.minimumGeneration, 8) + Flag(d.required)
  }

  lemma RequirementLayout(d: DependencyRequirement, t: Bytes)
    ensures PutRequirement(d, t) == RequirementBytes(d) + t
  {
    hide Number, Flag, PutU64, PutBool;
    Scalars();
    Flat3(Number(d.targetState, 8), Number(d.minimumGeneration, 8), Flag(d.required), t);
  }

  lemma QueryParts()
    ensures forall x: Option<u16>, t: Bytes {:trigger PutOption(PutKind, x, t)} ::
      PutOption(PutKind, x, t) == Optional(Kind, x) + t
    ensures forall x: Option<u64>, t: Bytes {:trigger PutOption(PutId, x, t)} ::
      PutOption(PutId, x, t) == Optional(Id, x) + t
    ensures forall xs: seq<u8>, t: Bytes {:trigger PutList(PutCode, xs, t)} ::
      PutList(PutCode, xs, t) == Values(Code, xs) + t
    ensures forall xs: seq<u64>, t: Bytes {:trigger PutList(PutId, xs, t)} ::
      PutList(PutId, xs, t) == Values(Id, xs) + t
    ensures forall xs: seq<DependencyRequirement>, t: Bytes {:trigger PutList(PutRequirement, xs, t)} ::
      PutList(PutRequirement, xs, t) == Values(RequirementBytes, xs) + t
  {
    hide PutOption, Optional, PutList, Values, Number, RequirementBytes, PutRequirement, PutU8, PutU16, PutU64;
    Scalars();
    forall v: DependencyRequirement, t: Bytes ensures PutRequirement(v, t) == RequirementBytes(v) + t {
      RequirementLayout(v, t);
    }
    forall x: Option<u16>, t: Bytes ensures PutOption(PutKind, x, t) == Optional(Kind, x) + t {
      OptionalLayout(PutKind, Kind, x, t);
    }
    forall x: Option<u64>, t: Bytes ensures PutOption(PutId, x, t) == Optional(Id, x) + t {
      OptionalLayout(PutId, Id, x, t);
    }
    forall xs: seq<u8>, t: Bytes ensures PutList(PutCode, xs, t) == Values(Code, xs) + t {
      ListLayout(PutCode, Code, xs, t);
    }
    forall xs: seq<u64>, t: Bytes ensures PutList(PutId, xs, t) == Values(Id, xs) + t {
      ListLayout(PutId, Id, xs, t);
    }
    forall xs: seq<DependencyRequirement>, t: Bytes
      ensures PutList(PutRequirement, xs, t) == Values(RequirementBytes, xs) + t
    {
      ListLayout(PutRequirement, RequirementBytes, xs, t);
    }
  }

  function ConstraintBytes(k: LocationConstraint): Bytes {
    (Number(|k.domains|, 8) + Values(Code, k.domains) + Number(|k.nodes|, 8) + Values(Id, k.nodes))
    + (Number(|k.devices|, 8) + Values(Id, k.devices) + [k.preferredAccess])
  }

  lemma ConstraintLayout(k: LocationConstraint, t: Bytes)
    ensures PutConstraint(k, t) == ConstraintBytes(k) + t
  {
    hide Number, PutU8, PutCount, PutList, Values;
    Scalars();
    QueryParts();
    var part1 := Number(|k.domains|, 8) + Values(Code, k.domains) + Number(|k.nodes|, 8) + Values(Id, k.nodes);
    var part2 := Number(|k.devices|, 8) + Values(Id, k.devices) + [k.preferredAccess];
    Flat3(Number(|k.devices|, 8), Values(Id, k.devices), [k.preferredAccess], t);
    Flat4(Number(|k.domains|, 8), Values(Code, k.domains), Number(|k.nodes|, 8), Values(Id, k.nodes), part2 + t);
    Associates(part1, part2, t);
  }

  function QueryHeadBytes(q: Query): Bytes {
    (Number(q.queryId, 8) + Optional(Kind, q.kind) + Optional(Id, q.stateId) + Flag(q.wildcardStateId)
      + Optional(Id, q.namespaceId))
    + ([q.generationRule] + Optional(Id, q.minimumGeneration) + Optional(Id, q.exactGeneration)
      + Optional(Id, q.asOfGeneration) + [q.compatibility])
  }

  lemma QueryHeadLayout(q: Query, t: Bytes)
    ensures PutQueryHead(q, t) == QueryHeadBytes(q) + t
  {
    hide Number, Flag, Optional, PutU8, PutU64, PutBool, PutOption;
    Scalars();
    QueryParts();
    var part1 := Number(q.queryId, 8) + Optional(Kind, q.kind) + Optional(Id, q.stateId) + Flag(q.wildcardStateId)
      + Optional(Id, q.namespaceId);
    var part2 := [q.generationRule] + Optional(Id, q.minimumGeneration) + Optional(Id, q.exactGeneration)
      + Optional(Id, q.asOfGeneration) + [q.compatibility];
    Flat5([q.generationRule], Optional(Id, q.minimumGeneration), Optional(Id, q.exactGeneration),
          Optional(Id, q.asOfGeneration), [q.compatibility], t);
    Flat5(Number(q.queryId, 8), Optional(Kind, q.kind), Optional(Id, q.stateId), Flag(q.wildcardStateId),
          Optional(Id, q.namespaceId), part2 + t);
    Associates(part1, part2, t);
  }

  function QueryBodyBytes(q: Query): Bytes {
    Number(|q.dependencyRequirements|, 8) + Values(RequirementBytes, q.dependencyRequirements)
    + Chars(q.contentDigest) + Optional(Id, q.ownerId) + Optional(Id, q.producerId)
    + ConstraintBytes(q.locationConstraint)
  }

  lemma QueryBodyLayout(q: Query, t: Bytes)
    ensures PutQueryBody(q, t) == QueryBodyBytes(q) + t
  {
    hide Number, Chars, Optional, Values, ConstraintBytes, PutCount, PutText, PutList, PutOption, PutConstraint;
    Scalars();
    QueryParts();
    ConstraintLayout(q.locationConstraint, t);
    Flat6(Number(|q.dependencyRequirements|, 8), Values(RequirementBytes, q.dependencyRequirements),
          Chars(q.contentDigest), Optional(Id, q.ownerId), Optional(Id, q.producerId),
          ConstraintBytes(q.locationConstraint), t);
  }

  /** The cost limit is written as its whole thousandths. */
  function QueryEndBytes(q: Query): Bytes
    requires CostFits(q.maxRetrievalCost)
  {
    ([q.requiredFreshness] + [q.requiredHealth] + Number((q.maxRetrievalCost * 1000.0).Floor, 8)
      + Number(|q.localityPreference|, 8) + Values(Code, q.localityPreference))
    + (Number(q.minReplicaCount, 4) + Number(q.policyGeneration, 8) + Number(q.queryGeneration, 8)
      + Flag(q.includeInvalidated) + Flag(q.historicalOnly))
  }

  lemma QueryEndLayout(q: Query, t: Bytes)
    requires CostFits(q.maxRetrievalCost)
    ensures PutQueryEnd(q, t) == QueryEndBytes(q) + t
  {
    hide Number, Flag, Values, PutU8, PutU32, PutU64, PutBool, PutCount, PutList;
    Scalars();
    QueryParts();
    var cost := Number((q.maxRetrievalCost * 1000.0).Floor, 8);
    var part1 := [q.requiredFreshness] + [q.requiredHealth] + cost + Number(|q.localityPreference|, 8)
      + Values(Code, q.localityPreference);
    var part2 := Number(q.minReplicaCount, 4) + Number(q.policyGeneration, 8) + Number(q.queryGeneration, 8)
      + Flag(q.includeInvalidated) + Flag(q.historicalOnly);
    Flat5(Number(q.minReplicaCount, 4), Number(q.policyGeneration, 8), Number(q.queryGeneration, 8),
          Flag(q.includeInvalidated), Flag(q.historicalOnly), t);
    Flat5([q.requiredFreshness], [q.requiredHealth], cost, Number(|q.localityPreference|, 8),
          Values(Code, q.localityPreference), part2 + t);
    Associates(part1, part2, t);
  }

  /** A query is its fields in this order, at these widths, and nothing between or behind them. */
  lemma QueryLayout(q: Query, t: Bytes)
    requires CostFits(q.maxRetrievalCost)
    ensures PutQuery(q, t) == QueryHeadBytes(q) + QueryBodyBytes(q) + QueryEndBytes(q) + t
  {
    hide PutQueryHead, PutQueryBody, PutQueryEnd, QueryHeadBytes, QueryBodyBytes, QueryEndBytes;
    QueryEndLayout(q, t);
    QueryBodyLayout(q, QueryEndBytes(q) + t);
    QueryHeadLayout(q, QueryBodyBytes(q) + (QueryEndBytes(q) + t));
    Flat3(QueryHeadBytes(q), QueryBodyBytes(q), QueryEndBytes(q), t);
  }

  // -------- Images --------

  function LedgerBytes(c: Contents): Bytes {
    (Number(|c.invalidations|, 8) + Values(InvalidationBytes, c.invalidations)
      + Number(|c.tombstones|, 8) + Values(TombstoneBytes, c.tombstones))
    + (Number(c.epoch, 8) + Number(c.invalidationSeq, 8) + AccountingBytes(c.accounting))
  }

  lemma LedgerLists(c: Contents, t: Bytes, u: Bytes)
    ensures PutList(PutInvalidation, c.invalidations, t) == Values(InvalidationBytes, c.invalidations) + t
    ensures PutList(PutTombstone, c.tombstones, u) == Values(TombstoneBytes, c.tombstones) + u
  {
    hide PutList, Values, PutInvalidation, PutTombstone, InvalidationBytes, TombstoneBytes;
    forall v: InvalidationRecord, w: Bytes ensures PutInvalidation(v, w) == InvalidationBytes(v) + w {
      InvalidationLayout(v, w);
    }
    forall v: TombstoneRecord, w: Bytes ensures PutTombstone(v, w) == TombstoneBytes(v) + w {
      TombstoneLayout(v, w);
    }
    ListLayout(PutInvalidation, InvalidationBytes, c.invalidations, t);
    ListLayout(PutTombstone, TombstoneBytes, c.tombstones, u);
  }

  lemma LedgersLayout(c: Contents, t: Bytes)
    ensures PutLedgers(c, t) == LedgerBytes(c) + t
  {
    hide Number, PutU64, PutCount, PutList, Values, PutAccounting, AccountingBytes, PutInvalidation, PutTombstone,
         InvalidationBytes, TombstoneBytes;
    Scalars();
    AccountingLayout(c.accounting, t);
    var part1 := Number(|c.invalidations|, 8) + Values(InvalidationBytes, c.invalidations)
      + Number(|c.tombstones|, 8) + Values(TombstoneBytes, c.tombstones);
    var part2 := Number(c.epoch, 8) + Number(c.invalidationSeq, 8) + AccountingBytes(c.accounting);
    Flat3(Number(c.epoch, 8), Number(c.invalidationSeq, 8), AccountingBytes(c.accounting), t);
    var rest := Number(|c.tombstones|, 8) + (Values(TombstoneBytes, c.tombstones) + (part2 + t));
    LedgerLists(c, rest, part2 + t);
    Flat4(Number(|c.invalidations|, 8), Values(InvalidationBytes, c.invalidations), Number(|c.tombstones|, 8),
          Values(TombstoneBytes, c.tombstones), part2 + t);
    Associates(part1, part2, t);
  }

  function ContentsBytes(c: Contents): Bytes {
    Number(|c.records|, 8) + Values(RecordBytes, c.records) + LedgerBytes(c)
  }

  /** The payload of an image: counted records, invalidations and tombstones, the epoch, the invalidation
      number and the counters. */
  lemma ContentsLayout(c: Contents, t: Bytes)
    ensures PutContents(c, t) == ContentsBytes(c) + t
  {
    hide Number, PutCount, PutList, Values, PutRecord, RecordBytes, PutLedgers, LedgerBytes;
    Scalars();
    LedgersLayout(c, t);
    forall v: StateRecord, w: Bytes ensures PutRecord(v, w) == RecordBytes(v) + w {
      RecordLayout(v, w);
    }
    ListLayout(PutRecord, RecordBytes, c.records, LedgerBytes(c) + t);
    Flat3(Number(|c.records|, 8), Values(RecordBytes, c.records), LedgerBytes(c), t);
  }

  /** The image file: the magic number 0x53494944, version 1, two zero bytes, the payload, its checksum and its
      digest. */
  lemma ImageLayout(h: Hash, payload: Bytes)
    ensures PutImage(h, payload) ==
      Number(0x5349_4944, 4) + Number(1, 2) + [0, 0] + payload + Number(Crc32(payload), 4) + h(payload)
  {
    hide Number, LittleEndian, Crc32;
    EndianDigits(PERSIST_MAGIC, 4);
    EndianDigits(PERSIST_VERSION, 2);
    EndianDigits(Crc32(payload), 4);
    TwoZeros();
    Flat4(Number(0x5349_4944, 4), Number(1, 2), [0, 0], payload, Number(Crc32(payload), 4) + h(payload));
    Associates(payload, Number(Crc32(payload), 4), h(payload));
    Associates(Number(0x5349_4944, 4) + Number(1, 2) + [0, 0] + payload, Number(Crc32(payload), 4), h(payload));
  }

  /** Exactly when each refusal of an image is given. */
  lemma EnvelopeMeaning(h: Hash, b: Bytes)
    ensures
      var e, n := OpenImage(h, b), |b|;
      var announced := n >= 44 && b[0..4] == [0x44, 0x49, 0x49, 0x53] && b[4..6] == [1, 0];
      && (e == Err(TooShort) <==> n < 44)
      && (e == Err(WrongMagic) <==> n >= 44 && b[0..4] != [0x44, 0x49, 0x49, 0x53])
      && (e == Err(WrongVersion) <==> n >= 44 && b[0..4] == [0x44, 0x49, 0x49, 0x53] && b[4..6] != [1, 0])
      && (e == Err(CrcMismatch) <==> announced && FromLittleEndian(b[n - 36..n - 32]) != Crc32(b[8..n - 36]))
      && (e == Err(DigestMismatch) <==>
            && announced && FromLittleEndian(b[n - 36..n - 32]) == Crc32(b[8..n - 36])
            && b[n - 32..] != h(b[8..n - 36]))
  {
    hide LittleEndian, FromLittleEndian, Pow256, Crc32;
    if |b| >= 44 {
      MagicBytes();
      Powers();
      EndianOf(PERSIST_MAGIC, 4, b[0..4]);
      EndianOf(PERSIST_VERSION, 2, b[4..6]);
    }
  }

  /** The loader takes up to a million of each kind, with up to 4096 dependencies and locations a record. */
  lemma BoundsMeaning(c: Contents)
    ensures c.WithinBounds() <==>
      && |c.records| <= 1_000_000 && |c.invalidations| <= 1_000_000 && |c.tombstones| <= 1_000_000
      && forall r :: r in c.records ==> |r.descriptor.dependencies| <= 4096 && |r.locations| <= 4096
  {
  }

  lemma TwoZeros()
    ensures LittleEndian(0, 2) == [0, 0] && LittleEndian(0, 4) == [0, 0, 0, 0]
  {
    assert LittleEndian(0, 1) == [0];
    assert LittleEndian(0, 2) == [0, 0];
    assert LittleEndian(0, 3) == [0, 0, 0];
  }

  // -------- Frames --------

  /** A frame: the magic number 0x53584944, version 1, the kind, the length of the payload, the checksum of these and
      the payload, four zero bytes, and the payload. */
  lemma FrameLayout(f: Frame)
    ensures var prefix := Number(0x5358_4944, 4) + Number(1, 2) + Number(f.kind, 2) + Number(|f.payload|, 8);
      EncodeFrame(f) == prefix + Number(Crc32(prefix + f.payload), 4) + [0, 0, 0, 0] + f.payload
  {
    hide Number, LittleEndian, Crc32;
    EndianDigits(MAGIC, 4);
    EndianDigits(VERSION, 2);
    EndianDigits(f.kind, 2);
    EndianDigits(|f.payload|, 8);
    EndianDigits(Crc32(Prefix(f.kind, |f.payload|) + f.payload), 4);
    TwoZeros();
  }

  lemma MagicBytes()
    ensures LittleEndian(0x5358_4944, 4) == [0x44, 0x49, 0x58, 0x53]
    ensures LittleEndian(0x5349_4944, 4) == [0x44, 0x49, 0x49, 0x53]
    ensures LittleEndian(1, 2) == [1, 0]
  {
    assert 0x5358_4944 == 0x44 + 256 * (0x49 + 256 * (0x58 + 256 * 0x53));
    assert 0x5349_4944 == 0x44 + 256 * (0x49 + 256 * (0x49 + 256 * 0x53));
    FourDigits(0x44, 0x49, 0x58, 0x53);
    FourDigits(0x44, 0x49, 0x49, 0x53);
    TwoDigits(1, 0);
  }

  lemma TwoDigits(a: u8, b: u8)
    ensures LittleEndian(a + 256 * b, 2) == [a, b]
  {
    assert LittleEndian(b, 1) == [b] by { assert LittleEndian(b / 256, 0) == []; }
    LowDigit(a, b);
  }

  lemma FourDigits(a: u8, b: u8, c: u8, d: u8)
    ensures LittleEndian(a + 256 * (b + 256 * (c + 256 * d)), 4) == [a, b, c, d]
  {
    hide LittleEndian;
    TwoDigits(c, d);
    OneMoreDigit(b, c + 256 * d, 2);
    OneMoreDigit(a, b + 256 * (c + 256 * d), 3);
  }

  lemma OneMoreDigit(low: u8, high: nat, width: nat)
    ensures LittleEndian(low + 256 * high, width + 1) == [low] + LittleEndian(high, width)
  {
    LowDigit(low, high);
  }

  /** Does a frame start with the magic number and version 1? */
  predicate Announced(b: Bytes) {
    |b| >= 24 && b[0..4] == [0x44, 0x49, 0x58, 0x53] && b[4..6] == [1, 0]
  }

  /** The length that a frame declares. */
  function Declared(b: Bytes): nat
    requires |b| >= 24
  {
    FromLittleEndian(b[8..16])
  }

  /** Exactly when each refusal is given. */
  lemma RefusalMeaning(b: Bytes)
    ensures
      var e := DecodeFrame(b);
      var sized := Announced(b) && Declared(b) <= 64 * 1024 * 1024 && |b| == 24 + Declared(b);
      && (e == Err(BadMagic) <==> |b| >= 24 && b[0..4] != [0x44, 0x49, 0x58, 0x53])
      && (e == Err(BadVersion) <==> |b| >= 24 && b[0..4] == [0x44, 0x49, 0x58, 0x53] && b[4..6] != [1, 0])
      && (e == Err(Oversized) <==> Announced(b) && Declared(b) > 64 * 1024 * 1024)
      && (e == Err(Truncated) <==>
            |b| < 24 || (Announced(b) && Declared(b) <= 64 * 1024 * 1024 && |b| < 24 + Declared(b)))
      && (e == Err(TrailingGarbage) <==>
            Announced(b) && Declared(b) <= 64 * 1024 * 1024 && |b| > 24 + Declared(b))
      && (e == Err(BadCrc) <==> sized && FromLittleEndian(b[16..20]) != Crc32(b[..16] + b[24..]))
      && (e == Err(InvalidKind) <==>
            && sized && FromLittleEndian(b[16..20]) == Crc32(b[..16] + b[24..])
            && !(1 <= FromLittleEndian(b[6..8]) <= 16))
  {
    hide LittleEndian, FromLittleEndian, Pow256, Crc32;
    if |b| >= 24 {
      MagicBytes();
      Powers();
      EndianOf(MAGIC, 4, b[0..4]);
      EndianOf(VERSION, 2, b[4..6]);
    }
  }

  /** Frames that may be sent have one of the kinds 1 to 16 and at most 64 MiB of payload. */
  lemma SendableMeaning(f: Frame)
    ensures Sendable(f) <==> 1 <= f.kind <= 16 && |f.payload| <= 64 * 1024 * 1024
  {
  }

  // -------- Digests --------

  const HEX_DIGITS: string := "0123456789abcdef"

  /** Two lower-case digits for every byte, the higher half first. */
  lemma {:induction false} HexMeaning(b: Bytes, i: nat)
    requires i < |b|
    ensures |Hex(b)| == 2 * |b|
    ensures Hex(b)[2 * i] == HEX_DIGITS[b[i] / 16] as int && Hex(b)[2 * i + 1] == HEX_DIGITS[b[i] % 16] as int
    decreases |b|
  {
    hide HexDigit;
    if i == 0 {
      DigitMeaning(b[0] / 16);
      DigitMeaning(b[0] % 16);
    } else {
      HexMeaning(b[1..], i - 1);
    }
  }

  lemma DigitMeaning(n: nat)
    requires n < 16
    ensures HexDigit(n) == HEX_DIGITS[n] as int
  {
    assert HEX_DIGITS[n] == if n < 10 then '0' + n as char else 'a' + (n - 10) as char by {
      if n < 4 {
      } else if n < 8 {
      } else if n < 12 {
      } else {
      }
    }
  }

  /** The digest of a record is taken over all its bytes with the digest field empty. */
  lemma DigestLayout(h: Hash, rec: StateRecord)
    ensures SemanticDigest(h, rec) == Hex(h(RecordBytes(rec.(semanticDigest := []))))
  {
    hide PutRecord, RecordBytes;
    RecordLayout(rec.(semanticDigest := []), []);
    assert RecordBytes(rec.(semanticDigest := [])) + [] == RecordBytes(rec.(semanticDigest := []));
  }
}
