/** The serialize and deserialize loops over the byte buffers, proved against the format. */
module RecordIO {
  import opened Basics
  import opened ByteBuf
  import opened Model
  import opened RecordCodec

  // -------- Writers --------

  method SerializeCompatibility(c: CompatibilityRef, w: ByteWriter)
    modifies w
    ensures forall t: Bytes {:trigger PutCompatibility(c, t)} :: w.buf + t == old(w.buf) + PutCompatibility(c, t)
  {
    w.PushU64(c.id);
    w.PushU64(c.generation);
    w.PushByte(c.outcome);
    w.PushByte(c.freshness);
    w.PushByte(c.provenance);
    w.PushString(c.evidenceNote);
  }

  method SerializeProvenance(p: ProvenanceRef, w: ByteWriter)
    modifies w
    ensures forall t: Bytes {:trigger PutProvenance(p, t)} :: w.buf + t == old(w.buf) + PutProvenance(p, t)
  {
    w.PushU64(p.id);
    w.PushU64(p.generation);
    w.PushU64(p.producer);
    w.PushU64(p.sourceGeneration);
    w.PushString(p.derivationDigest);
    w.PushByte(p.quality);
    w.PushByte(p.freshness);
  }

  method SerializeDependency(d: DependencyRef, w: ByteWriter)
    modifies w
    ensures forall t: Bytes {:trigger PutDependency(d, t)} :: w.buf + t == old(w.buf) + PutDependency(d, t)
  {
    w.PushU64(d.id);
    w.PushU64(d.generation);
    w.PushByte(d.kind);
    w.PushU64(d.targetState);
    w.PushU64(d.requiredGeneration);
    w.PushBool(d.required);
  }

  method SerializeRetrieval(e: RetrievalEstimate, w: ByteWriter)
    modifies w
    ensures forall t: Bytes {:trigger PutRetrieval(e, t)} :: w.buf + t == old(w.buf) + PutRetrieval(e, t)
  {
    w.PushByte(e.evidence);
    w.PushU64(e.localAccessCost);
    w.PushU64(e.expectedLatencyMs);
    w.PushU64(e.expectedBandwidthMbps);
    w.PushU64(e.transferBytes);
    w.PushU64(e.restoreCost);
    w.PushU64(e.recomputeCost);
    w.PushU64(e.adaptationCost);
    w.PushBool(e.stagingRequired);
    w.PushBool(e.restoreRequired);
  }

  method SerializePlace(l: StateLocation, w: ByteWriter)
    modifies w
    ensures forall t: Bytes {:trigger PutPlace(l, t)} :: w.buf + t == old(w.buf) + PutPlace(l, t)
  {
    w.PushU64(l.placementId);
    w.PushU64(l.replicaId);
    w.PushU64(l.nodeId);
    w.PushU64(l.deviceId);
    w.PushU64(l.domainId);
    w.PushByte(l.domain);
    w.PushByte(l.backend);
    w.PushByte(l.tier);
    w.PushU64(l.locationGeneration);
    w.PushU64(l.placementGeneration);
    w.PushU64(l.replicaGeneration);
    w.PushString(l.address);
    w.PushU64(l.byteSize);
  }

  method SerializeCondition(l: StateLocation, w: ByteWriter)
    modifies w
    ensures forall t: Bytes {:trigger PutCondition(l, t)} :: w.buf + t == old(w.buf) + PutCondition(l, t)
  {
    w.PushByte(l.accessClass);
    w.PushByte(l.health);
    w.PushByte(l.freshness);
    w.PushByte(l.provenance);
    w.PushString(l.localityMetadata);
    SerializeRetrieval(l.retrieval, w);
  }

  method SerializeAuthority(l: StateLocation, w: ByteWriter)
    modifies w
    ensures forall t: Bytes {:trigger PutAuthority(l, t)} :: w.buf + t == old(w.buf) + PutAuthority(l, t)
  {
    w.PushU64(l.observationGeneration);
    w.PushU64(l.provenanceGeneration);
    w.PushU64(l.authorityEpoch);
    w.PushU64(l.authorityBoot);
    w.PushI64(l.createdAt);
    w.PushI64(l.updatedAt);
  }

  method SerializeLocation(l: StateLocation, w: ByteWriter)
    modifies w
    ensures forall t: Bytes {:trigger PutLocation(l, t)} :: w.buf + t == old(w.buf) + PutLocation(l, t)
  {
    SerializePlace(l, w);
    SerializeCondition(l, w);
    SerializeAuthority(l, w);
  }

  method SerializeDependencies(ds: seq<DependencyRef>, w: ByteWriter)
    modifies w
    ensures forall t: Bytes {:trigger PutList(PutDependency, ds, t)} ::
      w.buf + t == old(w.buf) + PutList(PutDependency, ds, t)
  {
    hide PutDependency;
    ghost var before := w.buf;
    AppendedNothing(PutDependency, before, ds);
    var i := 0;
    while i < |ds|
      invariant 0 <= i <= |ds| && Appended(PutDependency, before, ds, i, w.buf)
    {
      ghost var middle := w.buf;
      SerializeDependency(ds[i], w);
      AppendedOneMore(PutDependency, before, ds, i, middle, w.buf);
      i := i + 1;
    }
    AppendedAll(PutDependency, before, ds, w.buf);
  }

  method SerializeLocations(ls: seq<StateLocation>, w: ByteWriter)
    modifies w
    ensures forall t: Bytes {:trigger PutList(PutLocation, ls, t)} ::
      w.buf + t == old(w.buf) + PutList(PutLocation, ls, t)
  {
    hide PutLocation;
    ghost var before := w.buf;
    AppendedNothing(PutLocation, before, ls);
    var i := 0;
    while i < |ls|
      invariant 0 <= i <= |ls| && Appended(PutLocation, before, ls, i, w.buf)
    {
      ghost var middle := w.buf;
      SerializeLocation(ls[i], w);
      AppendedOneMore(PutLocation, before, ls, i, middle, w.buf);
      i := i + 1;
    }
    AppendedAll(PutLocation, before, ls, w.buf);
  }

  method SerializeMaybeCompatibility(c: Option<CompatibilityRef>, w: ByteWriter)
    modifies w
    ensures forall t: Bytes {:trigger PutOption(PutCompatibility, c, t)} ::
      w.buf + t == old(w.buf) + PutOption(PutCompatibility, c, t)
  {
    w.PushBool(c.Some?);
    if c.Some? {
      SerializeCompatibility(c.value, w);
    }
  }

  method SerializeMaybeProvenance(p: Option<ProvenanceRef>, w: ByteWriter)
    modifies w
    ensures forall t: Bytes {:trigger PutOption(PutProvenance, p, t)} ::
      w.buf + t == old(w.buf) + PutOption(PutProvenance, p, t)
  {
    w.PushBool(p.Some?);
    if p.Some? {
      SerializeProvenance(p.value, w);
    }
  }

  method SerializeHead(r: StateRecord, w: ByteWriter)
    modifies w
    ensures forall t: Bytes {:trigger PutRecordHead(r, t)} :: w.buf + t == old(w.buf) + PutRecordHead(r, t)
  {
    w.PushU64(r.recordId);
    w.PushU64(r.stateId);
    w.PushU64(r.stateGeneration);
    w.PushU64(r.descriptor.recordGeneration);
    w.PushU16(r.descriptor.kind);
    w.PushU64(r.descriptor.namespaceId);
    w.PushU64(r.descriptor.ownerId);
    w.PushU64(r.descriptor.producerId);
    w.PushU64(r.descriptor.logicalSize);
    w.PushString(r.descriptor.contentDigest);
  }

  method SerializeEnd(r: StateRecord, w: ByteWriter)
    modifies w
    ensures forall t: Bytes {:trigger PutRecordEnd(r, t)} :: w.buf + t == old(w.buf) + PutRecordEnd(r, t)
  {
    w.PushByte(r.lifecycle);
    w.PushByte(r.descriptor.freshness);
    w.PushByte(r.descriptor.health);
    w.PushU64(r.descriptor.policyGeneration);
    w.PushU64(r.descriptor.authorityEpoch);
    w.PushU64(r.authorityBoot);
    w.PushI64(r.descriptor.createdAt);
    w.PushI64(r.descriptor.updatedAt);
    w.PushU64(r.descriptor.supersedesGeneration);
    w.PushString(r.descriptor.description);
    w.PushString(r.semanticDigest);
  }

  method SerializeBody(r: StateRecord, w: ByteWriter)
    modifies w
    ensures forall t: Bytes {:trigger PutRecordBody(r, t)} :: w.buf + t == old(w.buf) + PutRecordBody(r, t)
  {
    SerializeMaybeCompatibility(r.descriptor.compatibility, w);
    SerializeMaybeProvenance(r.descriptor.provenance, w);
    w.PushNumber(|r.descriptor.dependencies|, 8);
    SerializeDependencies(r.descriptor.dependencies, w);
    w.PushNumber(|r.locations|, 8);
    SerializeLocations(r.locations, w);
  }

  method SerializeRecord(r: StateRecord, w: ByteWriter)
    modifies w
    ensures forall t: Bytes {:trigger PutRecord(r, t)} :: w.buf + t == old(w.buf) + PutRecord(r, t)
  {
    SerializeHead(r, w);
    SerializeBody(r, w);
    SerializeEnd(r, w);
  }

  method SerializeRecords(rs: seq<StateRecord>, w: ByteWriter)
    modifies w
    ensures forall t: Bytes {:trigger PutList(PutRecord, rs, t)} :: w.buf + t == old(w.buf) + PutList(PutRecord, rs, t)
  {
    hide PutRecord;
    ghost var before := w.buf;
    AppendedNothing(PutRecord, before, rs);
    var i := 0;
    while i < |rs|
      invariant 0 <= i <= |rs| && Appended(PutRecord, before, rs, i, w.buf)
    {
      ghost var middle := w.buf;
      SerializeRecord(rs[i], w);
      AppendedOneMore(PutRecord, before, rs, i, middle, w.buf);
      i := i + 1;
    }
    AppendedAll(PutRecord, before, rs, w.buf);
  }

  // -------- Readers --------

  method DeserializeCompatibility(r: ByteReader) returns (res: Option<CompatibilityRef>)
    requires r.Valid()
    modifies r`pos
    ensures r.Valid() && Reads(res, r.Rest(), GetCompatibility(old(r.Rest())))
  {
    var id :- r.ReadU64();
    var generation :- r.ReadU64();
    var outcome :- r.ReadU8();
    var freshness :- r.ReadU8();
    var provenance :- r.ReadU8();
    var note :- r.ReadString();
    res := Some(CompatibilityRef(id, generation, outcome, freshness, provenance, note));
  }

  method DeserializeProvenance(r: ByteReader) returns (res: Option<ProvenanceRef>)
    requires r.Valid()
    modifies r`pos
    ensures r.Valid() && Reads(res, r.Rest(), GetProvenance(old(r.Rest())))
  {
    var id :- r.ReadU64();
    var generation :- r.ReadU64();
    var producer :- r.ReadU64();
    var source :- r.ReadU64();
    var digest :- r.ReadString();
    var quality :- r.ReadU8();
    var freshness :- r.ReadU8();
    res := Some(ProvenanceRef(id, generation, producer, source, digest, quality, freshness));
  }

  method DeserializeDependency(r: ByteReader) returns (res: Option<DependencyRef>)
    requires r.Valid()
    modifies r`pos
    ensures r.Valid() && Reads(res, r.Rest(), GetDependency(old(r.Rest())))
  {
    var id :- r.ReadU64();
    var generation :- r.ReadU64();
    var kind :- r.ReadU8();
    var target :- r.ReadU64();
    var requiredGeneration :- r.ReadU64();
    var required :- r.ReadBool();
    res := Some(DependencyRef(id, generation, kind, target, requiredGeneration, required));
  }

  method DeserializeRetrieval(r: ByteReader) returns (res: Option<RetrievalEstimate>)
    requires r.Valid()
    modifies r`pos
    ensures r.Valid() && Reads(res, r.Rest(), GetRetrieval(old(r.Rest())))
  {
    var evidence :- r.ReadU8();
    var access :- r.ReadU64();
    var latency :- r.ReadU64();
    var bandwidth :- r.ReadU64();
    var transfer :- r.ReadU64();
    var restore :- r.ReadU64();
    var recompute :- r.ReadU64();
    var adaptation :- r.ReadU64();
    var staging :- r.ReadBool();
    var restoring :- r.ReadBool();
    res := Some(RetrievalEstimate(access, latency, bandwidth, transfer, restore, recompute, adaptation, staging,
                                  restoring, evidence));
  }

  method DeserializePlace(r: ByteReader) returns (res: Option<StateLocation>)
    requires r.Valid()
    modifies r`pos
    ensures r.Valid() && Reads(res, r.Rest(), GetPlace(old(r.Rest())))
  {
    var placement :- r.ReadU64();
    var replica :- r.ReadU64();
    var node :- r.ReadU64();
    var device :- r.ReadU64();
    var domainId :- r.ReadU64();
    var domain :- r.ReadU8();
    var backend :- r.ReadU8();
    var tier :- r.ReadU8();
    var locationGeneration :- r.ReadU64();
    var placementGeneration :- r.ReadU64();
    var replicaGeneration :- r.ReadU64();
    var address :- r.ReadString();
    var byteSize :- r.ReadU64();
    res := Some(BLANK_LOCATION.(placementId := placement, replicaId := replica, nodeId := node, deviceId := device,
                                domainId := domainId, domain := domain, backend := backend, tier := tier,
                                locationGeneration := locationGeneration, placementGeneration := placementGeneration,
                                replicaGeneration := replicaGeneration, address := address, byteSize := byteSize));
  }

  method DeserializeCondition(l: StateLocation, r: ByteReader) returns (res: Option<StateLocation>)
    requires r.Valid()
    modifies r`pos
    ensures r.Valid() && Reads(res, r.Rest(), GetCondition(l, old(r.Rest())))
  {
    var access :- r.ReadU8();
    var health :- r.ReadU8();
    var freshness :- r.ReadU8();
    var provenance :- r.ReadU8();
    var locality :- r.ReadString();
    var retrieval :- DeserializeRetrieval(r);
    res := Some(l.(accessClass := access, health := health, freshness := freshness, provenance := provenance,
                   localityMetadata := locality, retrieval := retrieval));
  }

  method DeserializeAuthority(l: StateLocation, r: ByteReader) returns (res: Option<StateLocation>)
    requires r.Valid()
    modifies r`pos
    ensures r.Valid() && Reads(res, r.Rest(), GetAuthority(l, old(r.Rest())))
  {
    var observationGeneration :- r.ReadU64();
    var provenanceGeneration :- r.ReadU64();
    var epoch :- r.ReadU64();
    var boot :- r.ReadU64();
    var created :- r.ReadI64();
    var updated :- r.ReadI64();
    res := Some(l.(observationGeneration := observationGeneration, provenanceGeneration := provenanceGeneration,
                   authorityEpoch := epoch, authorityBoot := boot, createdAt := created, updatedAt := updated));
  }

  method DeserializeLocation(r: ByteReader) returns (res: Option<StateLocation>)
    requires r.Valid()
    modifies r`pos
    ensures r.Valid() && Reads(res, r.Rest(), GetLocation(old(r.Rest())))
  {
    var l :- DeserializePlace(r);
    l :- DeserializeCondition(l, r);
    res := DeserializeAuthority(l, r);
  }

  method DeserializeMaybeCompatibility(r: ByteReader) returns (res: Option<Option<CompatibilityRef>>)
    requires r.Valid()
    modifies r`pos
    ensures r.Valid() && Reads(res, r.Rest(), GetOption(GetCompatibility, old(r.Rest())))
  {
    var present :- r.ReadBool();
    if present {
      var c :- DeserializeCompatibility(r);
      return Some(Some(c));
    }
    res := Some(None);
  }

  method DeserializeMaybeProvenance(r: ByteReader) returns (res: Option<Option<ProvenanceRef>>)
    requires r.Valid()
    modifies r`pos
    ensures r.Valid() && Reads(res, r.Rest(), GetOption(GetProvenance, old(r.Rest())))
  {
    var present :- r.ReadBool();
    if present {
      var p :- DeserializeProvenance(r);
      return Some(Some(p));
    }
    res := Some(None);
  }

  method DeserializeDependencies(r: ByteReader) returns (res: Option<seq<DependencyRef>>)
    requires r.Valid()
    modifies r`pos
    ensures r.Valid() && Reads(res, r.Rest(), GetBounded(GetDependency, MAX_DEPENDENCIES, old(r.Rest())))
  {
    var n :- r.ReadU64();
    if n > MAX_DEPENDENCIES {
      return None;
    }
    ghost var start := r.Rest();
    var ds: seq<DependencyRef> := [];
    var i := 0;
    while i < n
      invariant 0 <= i <= n && r.Valid()
      invariant Pending(GetDependency, ds, n - i, r.Rest()) == Pending(GetDependency, [], n, start)
    {
      ghost var before := r.Rest();
      var d := DeserializeDependency(r);
      PendingStep(GetDependency, ds, n - i, before, d, r.Rest());
      if d.None? {
        PendingEnds(GetDependency, [], n, start);
        return None;
      }
      ds := ds + [d.value];
      i := i + 1;
    }
    PendingEnds(GetDependency, ds, n, start);
    PendingEnds(GetDependency, ds, 0, r.Rest());
    res := Some(ds);
  }

  method DeserializeLocations(r: ByteReader) returns (res: Option<seq<StateLocation>>)
    requires r.Valid()
    modifies r`pos
    ensures r.Valid() && Reads(res, r.Rest(), GetBounded(GetLocation, MAX_LOCATIONS, old(r.Rest())))
  {
    var n :- r.ReadU64();
    if n > MAX_LOCATIONS {
      return None;
    }
    ghost var start := r.Rest();
    var ls: seq<StateLocation> := [];
    var i := 0;
    while i < n
      invariant 0 <= i <= n && r.Valid()
      invariant Pending(GetLocation, ls, n - i, r.Rest()) == Pending(GetLocation, [], n, start)
    {
      ghost var before := r.Rest();
      var l := DeserializeLocation(r);
      PendingStep(GetLocation, ls, n - i, before, l, r.Rest());
      if l.None? {
        PendingEnds(GetLocation, [], n, start);
        return None;
      }
      ls := ls + [l.value];
      i := i + 1;
    }
    PendingEnds(GetLocation, ls, n, start);
    PendingEnds(GetLocation, ls, 0, r.Rest());
    res := Some(ls);
  }

  method DeserializeHead(r: ByteReader) returns (res: Option<StateRecord>)
    requires r.Valid()
    modifies r`pos
    ensures r.Valid() && Reads(res, r.Rest(), GetRecordHead(old(r.Rest())))
  {
    var recordId :- r.ReadU64();
    var stateId :- r.ReadU64();
    var stateGeneration :- r.ReadU64();
    var recordGeneration :- r.ReadU64();
    var kind :- r.ReadU16();
    var namespaceId :- r.ReadU64();
    var owner :- r.ReadU64();
    var producer :- r.ReadU64();
    var size :- r.ReadU64();
    var content :- r.ReadString();
    var descriptor := BLANK_DESCRIPTOR.(recordGeneration := recordGeneration, kind := kind, namespaceId := namespaceId,
                                        ownerId := owner, producerId := producer, logicalSize := size,
                                        contentDigest := content);
    res := Some(BLANK_RECORD.(recordId := recordId, stateId := stateId, stateGeneration := stateGeneration,
                              descriptor := descriptor));
  }

  method DeserializeEnd(rec: StateRecord, r: ByteReader) returns (res: Option<StateRecord>)
    requires r.Valid()
    modifies r`pos
    ensures r.Valid() && Reads(res, r.Rest(), GetRecordEnd(rec, old(r.Rest())))
  {
    var lifecycle :- r.ReadU8();
    var freshness :- r.ReadU8();
    var health :- r.ReadU8();
    var policy :- r.ReadU64();
    var epoch :- r.ReadU64();
    var boot :- r.ReadU64();
    var created :- r.ReadI64();
    var updated :- r.ReadI64();
    var supersedes :- r.ReadU64();
    var description :- r.ReadString();
    var digest :- r.ReadString();
    var descriptor := rec.descriptor.(freshness := freshness, health := health, policyGeneration := policy,
                                      authorityEpoch := epoch, createdAt := created, updatedAt := updated,
                                      supersedesGeneration := supersedes, description := description);
    res := Some(rec.(lifecycle := lifecycle, authorityBoot := boot, descriptor := descriptor,
                     semanticDigest := digest));
  }

  method DeserializeBody(rec: StateRecord, r: ByteReader) returns (res: Option<StateRecord>)
    requires r.Valid()
    modifies r`pos
    ensures r.Valid() && Reads(res, r.Rest(), GetRecordBody(rec, old(r.Rest())))
  {
    var compatibility :- DeserializeMaybeCompatibility(r);
    var provenance :- DeserializeMaybeProvenance(r);
    var dependencies :- DeserializeDependencies(r);
    var locations :- DeserializeLocations(r);
    res := Some(rec.(descriptor := rec.descriptor.(compatibility := compatibility, provenance := provenance,
                                                   dependencies := dependencies),
                     locations := locations));
  }

  method DeserializeRecord(r: ByteReader) returns (res: Option<StateRecord>)
    requires r.Valid()
    modifies r`pos
    ensures r.Valid() && Reads(res, r.Rest(), GetRecord(old(r.Rest())))
  {
    var rec :- DeserializeHead(r);
    rec :- DeserializeBody(rec, r);
    res := DeserializeEnd(rec, r);
  }

  // -------- Semantic digests --------

  /** A deterministic digest function with 32-byte results, standing for SHA-256. */
  type Hash = h: Bytes -> Bytes | forall b: Bytes :: |h(b)| == 32
    witness (b: Bytes) => seq(32, i => 0)

  function HexDigit(n: nat): u8
    requires n < 16
  {
    if n < 10 then 48 + n else 87 + n
  }

  function Hex(b: Bytes): (h: Bytes)
    ensures |h| == 2 * |b|
  {
    if b == [] then [] else [HexDigit(b[0] / 16), HexDigit(b[0] % 16)] + Hex(b[1..])
  }

  /** The hexadecimal digest of the record's bytes with an empty digest field. */
  function SemanticDigest(h: Hash, rec: StateRecord): Text {
    Hex(h(PutRecord(rec.(semanticDigest := []), [])))
  }

  /** The digest as a function value, the form in which the engine carries it. */
  function DigestOf(h: Hash): StateRecord -> Text {
    rec => SemanticDigest(h, rec)
  }

  method ComputeHex(b: Bytes) returns (hex: Bytes)
    ensures hex == Hex(b)
  {
    hex := [];
    var i := 0;
    while i < |b|
      invariant 0 <= i <= |b|
      invariant hex + Hex(b[i..]) == Hex(b)
    {
      assert b[i..][0] == b[i] && b[i..][1..] == b[i + 1..];
      assert hex + ([HexDigit(b[i] / 16), HexDigit(b[i] % 16)] + Hex(b[i + 1..]))
          == hex + [HexDigit(b[i] / 16)] + [HexDigit(b[i] % 16)] + Hex(b[i + 1..]);
      hex := hex + [HexDigit(b[i] / 16)] + [HexDigit(b[i] % 16)];
      i := i + 1;
    }
  }

  method CanonicalWithoutDigest(rec: StateRecord) returns (bytes: Bytes)
    ensures bytes == PutRecord(rec.(semanticDigest := []), [])
  {
    var w := new ByteWriter();
    var blank := rec.(semanticDigest := []);
    SerializeRecord(blank, w);
    NothingAround(w.buf, PutRecord(blank, []));
    bytes := w.buf;
  }

  lemma NothingAround(a: Bytes, b: Bytes)
    requires a + [] == [] + b
    ensures a == b
  {
    assert a + [] == a && [] + b == b;
  }

  method ComputeSemanticDigest(h: Hash, rec: StateRecord) returns (d: Text)
    ensures d == SemanticDigest(h, rec)
  {
    var canonical := CanonicalWithoutDigest(rec);
    var hex := ComputeHex(h(canonical));
    d := hex;
  }

  /** What the format drops does not enter the digest: a record and what is read back of it agree. */
  lemma DigestIgnoresUnpersisted(h: Hash, rec: StateRecord)
    ensures SemanticDigest(h, rec.Persisted()) == SemanticDigest(h, rec)
  {
    var a, b := rec.(semanticDigest := []), rec.Persisted().(semanticDigest := []);
    PersistedPrintsSame(a.locations, PutRecordEnd(a, []));
    assert PutRecordEnd(a, []) == PutRecordEnd(b, []);
    assert PutRecordBody(a, PutRecordEnd(a, [])) == PutRecordBody(b, PutRecordEnd(b, []));
  }

  lemma PersistedPrintsSame(ls: seq<StateLocation>, tail: Bytes)
    ensures PutList(PutLocation, PersistedLocations(ls), tail) == PutList(PutLocation, ls, tail)
  {
    var kept := (l: StateLocation) => l.Persisted();
    forall l: StateLocation, t: Bytes ensures PutLocation(kept(l), t) == PutLocation(l, t) {
      LocationPrintsSame(l, t);
    }
    ListPrintsSame(PutLocation, kept, ls, tail);
    assert Map(kept, ls) == PersistedLocations(ls);
  }

  lemma {:induction false} ListPrintsSame<T(!new)>(put: Printer<T>, kept: T -> T, xs: seq<T>, tail: Bytes)
    requires forall x: T, t: Bytes {:trigger put(x, t)} :: put(kept(x), t) == put(x, t)
    ensures PutList(put, Map(kept, xs), tail) == PutList(put, xs, tail)
    decreases |xs|
  {
    if xs != [] {
      ListPrintsSame(put, kept, xs[1..], tail);
      assert Map(kept, xs)[1..] == Map(kept, xs[1..]);
      assert put(xs[0], PutList(put, xs[1..], tail)) == put(kept(xs[0]), PutList(put, xs[1..], tail));
    }
  }

  lemma LocationPrintsSame(l: StateLocation, tail: Bytes)
    ensures PutLocation(l.Persisted(), tail) == PutLocation(l, tail)
  {
    assert PutAuthority(l.Persisted(), tail) == PutAuthority(l, tail);
    var t := PutAuthority(l, tail);
    assert PutCondition(l.Persisted(), t) == PutCondition(l, t);
    assert PutPlace(l.Persisted(), PutCondition(l, t)) == PutPlace(l, PutCondition(l, t));
  }
}
