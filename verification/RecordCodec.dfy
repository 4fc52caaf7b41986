/** The byte format of records and everything inside them. */
module RecordCodec {
  import opened Basics
  import opened ByteBuf
  import opened Model

  // -------- Lists --------

  type Printer<!T> = (T, Bytes) -> Bytes
  type Parser<!T> = Bytes -> Option<(T, Bytes)>

  function PutList<T>(put: Printer<T>, xs: seq<T>, tail: Bytes): Bytes {
    if xs == [] then tail else put(xs[0], PutList(put, xs[1..], tail))
  }

  function GetList<T>(get: Parser<T>, n: nat, s: Bytes): Option<(seq<T>, Bytes)> {
    if n == 0 then Some(([], s))
    else
      var (x, rest) :- get(s);
      var (xs, end) :- GetList(get, n - 1, rest);
      Some(([x] + xs, end))
  }

  function Map<T, U>(f: T -> U, xs: seq<T>): (r: seq<U>)
    ensures |r| == |xs|
  {
    seq(|xs|, i requires 0 <= i < |xs| => f(xs[i]))
  }

  /** get undoes put up to what put does not write. */
  ghost predicate Undoes<T(!new)>(get: Parser<T>, put: Printer<T>, kept: T -> T) {
    forall x: T, t: Bytes :: get(put(x, t)) == Some((kept(x), t))
  }

  lemma {:induction false} ListRoundTrip<T(!new)>(get: Parser<T>, put: Printer<T>, kept: T -> T,
                                                 xs: seq<T>, tail: Bytes)
    requires Undoes(get, put, kept)
    ensures GetList(get, |xs|, PutList(put, xs, tail)) == Some((Map(kept, xs), tail))
    decreases |xs|
  {
    if xs != [] {
      ListRoundTrip(get, put, kept, xs[1..], tail);
      assert get(put(xs[0], PutList(put, xs[1..], tail))) == Some((kept(xs[0]), PutList(put, xs[1..], tail)));
      assert Map(kept, xs) == [kept(xs[0])] + Map(kept, xs[1..]);
    }
  }

  /** A loop that prints a list has appended the first i values of xs to before. */
  ghost predicate Appended<T>(put: Printer<T>, before: Bytes, xs: seq<T>, i: nat, buf: Bytes)
    requires i <= |xs|
  {
    forall t: Bytes {:trigger PutList(put, xs, t)} :: buf + PutList(put, xs[i..], t) == before + PutList(put, xs, t)
  }

  lemma AppendedNothing<T>(put: Printer<T>, before: Bytes, xs: seq<T>)
    ensures Appended(put, before, xs, 0, before)
  {
    assert xs[0..] == xs;
  }

  lemma AppendedOneMore<T>(put: Printer<T>, before: Bytes, xs: seq<T>, i: nat, middle: Bytes, buf: Bytes)
    requires i < |xs| && Appended(put, before, xs, i, middle)
    requires forall t: Bytes {:trigger put(xs[i], t)} :: buf + t == middle + put(xs[i], t)
    ensures Appended(put, before, xs, i + 1, buf)
  {
    assert xs[i..][0] == xs[i] && xs[i..][1..] == xs[i + 1..];
    forall t: Bytes ensures buf + PutList(put, xs[i + 1..], t) == before + PutList(put, xs, t) {
      assert PutList(put, xs[i..], t) == put(xs[i], PutList(put, xs[i + 1..], t));
    }
  }

  lemma AppendedAll<T>(put: Printer<T>, before: Bytes, xs: seq<T>, buf: Bytes)
    requires Appended(put, before, xs, |xs|, buf)
    ensures forall t: Bytes {:trigger PutList(put, xs, t)} :: buf + t == before + PutList(put, xs, t)
  {
    forall t: Bytes ensures buf + t == before + PutList(put, xs, t) {
      assert PutList(put, xs[|xs|..], t) == t;
    }
  }

  // -------- Printers --------

  function PutCompatibility(c: CompatibilityRef, tail: Bytes): Bytes {
    PutU64(c.id, PutU64(c.generation, PutU8(c.outcome, PutU8(c.freshness, PutU8(c.provenance,
    PutText(c.evidenceNote, tail))))))
  }

  function PutProvenance(p: ProvenanceRef, tail: Bytes): Bytes {
    PutU64(p.id, PutU64(p.generation, PutU64(p.producer, PutU64(p.sourceGeneration,
    PutText(p.derivationDigest, PutU8(p.quality, PutU8(p.freshness, tail)))))))
  }

  function PutDependency(d: DependencyRef, tail: Bytes): Bytes {
    PutU64(d.id, PutU64(d.generation, PutU8(d.kind, PutU64(d.targetState, PutU64(d.requiredGeneration,
    PutBool(d.required, tail))))))
  }

  function PutRetrieval(e: RetrievalEstimate, tail: Bytes): Bytes {
    PutU8(e.evidence, PutU64(e.localAccessCost, PutU64(e.expectedLatencyMs, PutU64(e.expectedBandwidthMbps,
    PutU64(e.transferBytes, PutU64(e.restoreCost, PutU64(e.recomputeCost, PutU64(e.adaptationCost,
    PutBool(e.stagingRequired, PutBool(e.restoreRequired, tail))))))))))
  }

  function PutPlace(l: StateLocation, tail: Bytes): Bytes {
    PutU64(l.placementId, PutU64(l.replicaId, PutU64(l.nodeId, PutU64(l.deviceId, PutU64(l.domainId,
    PutU8(l.domain, PutU8(l.backend, PutU8(l.tier,
    PutU64(l.locationGeneration, PutU64(l.placementGeneration, PutU64(l.replicaGeneration,
    PutText(l.address, PutU64(l.byteSize, tail)))))))))))))
  }

  function PutCondition(l: StateLocation, tail: Bytes): Bytes {
    PutU8(l.accessClass, PutU8(l.health, PutU8(l.freshness, PutU8(l.provenance,
    PutText(l.localityMetadata, PutRetrieval(l.retrieval, tail))))))
  }

  function PutAuthority(l: StateLocation, tail: Bytes): Bytes {
    PutU64(l.observationGeneration, PutU64(l.provenanceGeneration, PutU64(l.authorityEpoch, PutU64(l.authorityBoot,
    PutI64(l.createdAt, PutI64(l.updatedAt, tail))))))
  }

  function PutLocation(l: StateLocation, tail: Bytes): Bytes {
    PutPlace(l, PutCondition(l, PutAuthority(l, tail)))
  }

  /** A presence byte, then the value if there is one. */
  function PutOption<T>(put: Printer<T>, x: Option<T>, tail: Bytes): Bytes {
    match x
    case None => PutBool(false, tail)
    case Some(v) => PutBool(true, put(v, tail))
  }

  function PutCount(n: nat, tail: Bytes): Bytes {
    PutNumber(n, 8, tail)
  }

  function PutRecordHead(r: StateRecord, tail: Bytes): Bytes {
    PutU64(r.recordId, PutU64(r.stateId, PutU64(r.stateGeneration,
    PutU64(r.descriptor.recordGeneration, PutU16(r.descriptor.kind, PutU64(r.descriptor.namespaceId,
    PutU64(r.descriptor.ownerId, PutU64(r.descriptor.producerId, PutU64(r.descriptor.logicalSize,
    PutText(r.descriptor.contentDigest, tail))))))))))
  }

  function PutRecordEnd(r: StateRecord, tail: Bytes): Bytes {
    PutU8(r.lifecycle, PutU8(r.descriptor.freshness, PutU8(r.descriptor.health,
    PutU64(r.descriptor.policyGeneration, PutU64(r.descriptor.authorityEpoch, PutU64(r.authorityBoot,
    PutI64(r.descriptor.createdAt, PutI64(r.descriptor.updatedAt, PutU64(r.descriptor.supersedesGeneration,
    PutText(r.descriptor.description, PutText(r.semanticDigest, tail)))))))))))
  }

  function PutRecordBody(r: StateRecord, tail: Bytes): Bytes {
    PutOption(PutCompatibility, r.descriptor.compatibility, PutOption(PutProvenance, r.descriptor.provenance,
    PutCount(|r.descriptor.dependencies|, PutList(PutDependency, r.descriptor.dependencies,
    PutCount(|r.locations|, PutList(PutLocation, r.locations, tail))))))
  }

  function PutRecord(r: StateRecord, tail: Bytes): Bytes {
    PutRecordHead(r, PutRecordBody(r, PutRecordEnd(r, tail)))
  }

  // -------- Parsers --------

  function GetCompatibility(s: Bytes): Option<(CompatibilityRef, Bytes)> {
    var (id, s) :- GetU64(s);
    var (generation, s) :- GetU64(s);
    var (outcome, s) :- GetU8(s);
    var (freshness, s) :- GetU8(s);
    var (provenance, s) :- GetU8(s);
    var (note, s) :- GetText(s);
    Some((CompatibilityRef(id, generation, outcome, freshness, provenance, note), s))
  }

  function GetProvenance(s: Bytes): Option<(ProvenanceRef, Bytes)> {
    var (id, s) :- GetU64(s);
    var (generation, s) :- GetU64(s);
    var (producer, s) :- GetU64(s);
    var (source, s) :- GetU64(s);
    var (digest, s) :- GetText(s);
    var (quality, s) :- GetU8(s);
    var (freshness, s) :- GetU8(s);
    Some((ProvenanceRef(id, generation, producer, source, digest, quality, freshness), s))
  }

  function GetDependency(s: Bytes): Option<(DependencyRef, Bytes)> {
    var (id, s) :- GetU64(s);
    var (generation, s) :- GetU64(s);
    var (kind, s) :- GetU8(s);
    var (target, s) :- GetU64(s);
    var (requiredGeneration, s) :- GetU64(s);
    var (required, s) :- GetBool(s);
    Some((DependencyRef(id, generation, kind, target, requiredGeneration, required), s))
  }

  function GetRetrieval(s: Bytes): Option<(RetrievalEstimate, Bytes)> {
    var (evidence, s) :- GetU8(s);
    var (access, s) :- GetU64(s);
    var (latency, s) :- GetU64(s);
    var (bandwidth, s) :- GetU64(s);
    var (transfer, s) :- GetU64(s);
    var (restore, s) :- GetU64(s);
    var (recompute, s) :- GetU64(s);
    var (adaptation, s) :- GetU64(s);
    var (staging, s) :- GetBool(s);
    var (restoring, s) :- GetBool(s);
    Some((RetrievalEstimate(access, latency, bandwidth, transfer, restore, recompute, adaptation, staging, restoring,
                            evidence), s))
  }

  const BLANK_RETRIEVAL := RetrievalEstimate(0, 0, 0, 0, 0, 0, 0, false, false, 0)
  const BLANK_LOCATION := StateLocation(0, 0, 0, 0, 0, 0, 0, 0, 0, 0, 0, [], 0, 0, 0, 0, 4, [], BLANK_RETRIEVAL,
                                        0, 0, 0, 0, 0, 0, None, None)

  function GetPlace(s: Bytes): Option<(StateLocation, Bytes)> {
    var (placement, s) :- GetU64(s);
    var (replica, s) :- GetU64(s);
    var (node, s) :- GetU64(s);
    var (device, s) :- GetU64(s);
    var (domainId, s) :- GetU64(s);
    var (domain, s) :- GetU8(s);
    var (backend, s) :- GetU8(s);
    var (tier, s) :- GetU8(s);
    var (locationGeneration, s) :- GetU64(s);
    var (placementGeneration, s) :- GetU64(s);
    var (replicaGeneration, s) :- GetU64(s);
    var (address, s) :- GetText(s);
    var (byteSize, s) :- GetU64(s);
    Some((BLANK_LOCATION.(placementId := placement, replicaId := replica, nodeId := node, deviceId := device,
                          domainId := domainId, domain := domain, backend := backend, tier := tier,
                          locationGeneration := locationGeneration, placementGeneration := placementGeneration,
                          replicaGeneration := replicaGeneration, address := address, byteSize := byteSize), s))
  }

  function GetCondition(l: StateLocation, s: Bytes): Option<(StateLocation, Bytes)> {
    var (access, s) :- GetU8(s);
    var (health, s) :- GetU8(s);
    var (freshness, s) :- GetU8(s);
    var (provenance, s) :- GetU8(s);
    var (locality, s) :- GetText(s);
    var (retrieval, s) :- GetRetrieval(s);
    Some((l.(accessClass := access, health := health, freshness := freshness, provenance := provenance,
             localityMetadata := locality, retrieval := retrieval), s))
  }

  function GetAuthority(l: StateLocation, s: Bytes): Option<(StateLocation, Bytes)> {
    var (observationGeneration, s) :- GetU64(s);
    var (provenanceGeneration, s) :- GetU64(s);
    var (epoch, s) :- GetU64(s);
    var (boot, s) :- GetU64(s);
    var (created, s) :- GetI64(s);
    var (updated, s) :- GetI64(s);
    Some((l.(observationGeneration := observationGeneration, provenanceGeneration := provenanceGeneration,
             authorityEpoch := epoch, authorityBoot := boot, createdAt := created, updatedAt := updated), s))
  }

  function GetLocation(s: Bytes): Option<(StateLocation, Bytes)> {
    var (l, s) :- GetPlace(s);
    var (l, s) :- GetCondition(l, s);
    GetAuthority(l, s)
  }

  function GetOption<T>(get: Parser<T>, s: Bytes): Option<(Option<T>, Bytes)> {
    var (present, s) :- GetBool(s);
    if present then
      var (v, s) :- get(s);
      Some((Some(v), s))
    else
      Some((None, s))
  }

  /** A count that the bound lets through, then that many values. */
  function GetBounded<T>(get: Parser<T>, bound: nat, s: Bytes): Option<(seq<T>, Bytes)> {
    var (n, s) :- GetU64(s);
    if n > bound then None else GetList(get, n, s)
  }

  /** What a record holds before anything is read into it. */
  const BLANK_DESCRIPTOR := Descriptor(0, 16, 0, 0, 0, 0, [], None, None, [], FRESHNESS_UNKNOWN, HEALTH_UNKNOWN,
                                       0, 0, 0, 0, 0, [])
  const BLANK_RECORD := StateRecord(0, 0, 0, 0, BLANK_DESCRIPTOR, [], DISCOVERED, [], false)

  function GetRecordHead(s: Bytes): Option<(StateRecord, Bytes)> {
    var (recordId, s) :- GetU64(s);
    var (stateId, s) :- GetU64(s);
    var (stateGeneration, s) :- GetU64(s);
    var (recordGeneration, s) :- GetU64(s);
    var (kind, s) :- GetU16(s);
    var (namespaceId, s) :- GetU64(s);
    var (owner, s) :- GetU64(s);
    var (producer, s) :- GetU64(s);
    var (size, s) :- GetU64(s);
    var (content, s) :- GetText(s);
    var descriptor := BLANK_DESCRIPTOR.(recordGeneration := recordGeneration, kind := kind, namespaceId := namespaceId,
                                        ownerId := owner, producerId := producer, logicalSize := size,
                                        contentDigest := content);
    Some((BLANK_RECORD.(recordId := recordId, stateId := stateId, stateGeneration := stateGeneration,
                        descriptor := descriptor), s))
  }

  function GetRecordEnd(rec: StateRecord, s: Bytes): Option<(StateRecord, Bytes)> {
    var (lifecycle, s) :- GetU8(s);
    var (freshness, s) :- GetU8(s);
    var (health, s) :- GetU8(s);
    var (policy, s) :- GetU64(s);
    var (epoch, s) :- GetU64(s);
    var (boot, s) :- GetU64(s);
    var (created, s) :- GetI64(s);
    var (updated, s) :- GetI64(s);
    var (supersedes, s) :- GetU64(s);
    var (description, s) :- GetText(s);
    var (digest, s) :- GetText(s);
    var descriptor := rec.descriptor.(freshness := freshness, health := health, policyGeneration := policy,
                                      authorityEpoch := epoch, createdAt := created, updatedAt := updated,
                                      supersedesGeneration := supersedes, description := description);
    Some((rec.(lifecycle := lifecycle, authorityBoot := boot, descriptor := descriptor, semanticDigest := digest), s))
  }

  function GetRecordBody(rec: StateRecord, s: Bytes): Option<(StateRecord, Bytes)> {
    var (compatibility, s) :- GetOption(GetCompatibility, s);
    var (provenance, s) :- GetOption(GetProvenance, s);
    var (dependencies, s) :- GetBounded(GetDependency, MAX_DEPENDENCIES, s);
    var (locations, s) :- GetBounded(GetLocation, MAX_LOCATIONS, s);
    Some((rec.(descriptor := rec.descriptor.(compatibility := compatibility, provenance := provenance,
                                             dependencies := dependencies),
               locations := locations), s))
  }

  function GetRecord(s: Bytes): Option<(StateRecord, Bytes)> {
    var (rec, s) :- GetRecordHead(s);
    var (rec, s) :- GetRecordBody(rec, s);
    GetRecordEnd(rec, s)
  }

  /** Values read so far in front of what the rest of the list reads as. */
  function Prepend<T>(front: seq<T>, rest: Option<(seq<T>, Bytes)>): Option<(seq<T>, Bytes)> {
    var (xs, s) :- rest;
    Some((front + xs, s))
  }

  /** The step of every loop that reads a list. */
  lemma PrependStep<T>(get: Parser<T>, front: seq<T>, n: nat, s: Bytes)
    requires n > 0
    ensures get(s).None? ==> Prepend(front, GetList(get, n, s)).None?
    ensures get(s).Some? ==>
      Prepend(front, GetList(get, n, s)) == Prepend(front + [get(s).value.0], GetList(get, n - 1, get(s).value.1))
  {
    if get(s).Some? {
      var (x, rest) := get(s).value;
      var tail := GetList(get, n - 1, rest);
      if tail.Some? {
        assert front + ([x] + tail.value.0) == front + [x] + tail.value.0;
      }
    }
  }

  /** What a loop reading n values is to return when it has read front and i values remain. */
  ghost function Pending<T>(get: Parser<T>, front: seq<T>, i: nat, s: Bytes): Option<(seq<T>, Bytes)> {
    Prepend(front, GetList(get, i, s))
  }

  lemma PendingStep<T>(get: Parser<T>, front: seq<T>, i: nat, s: Bytes, res: Option<T>, rest: Bytes)
    requires i > 0 && Reads(res, rest, get(s))
    ensures res.None? ==> Pending(get, front, i, s).None?
    ensures res.Some? ==> Pending(get, front, i, s) == Pending(get, front + [res.value], i - 1, rest)
  {
    PrependStep(get, front, i, s);
  }

  lemma PendingEnds<T>(get: Parser<T>, front: seq<T>, n: nat, s: Bytes)
    ensures Pending(get, [], n, s) == GetList(get, n, s)
    ensures Pending(get, front, 0, s) == Some((front, s))
  {
    PrependNothing(GetList(get, n, s));
    assert front + [] == front;
  }

  lemma PrependNothing<T>(res: Option<(seq<T>, Bytes)>)
    ensures Prepend([], res) == res
  {
    if res.Some? {
      assert [] + res.value.0 == res.value.0;
    }
  }

  // -------- Round trips --------

  lemma CompatibilityRoundTrip()
    ensures Undoes(GetCompatibility, PutCompatibility, (c: CompatibilityRef) => c)
  {
    ScalarsRoundTrip();
    TextsRoundTrip();
    forall c: CompatibilityRef, t: Bytes ensures GetCompatibility(PutCompatibility(c, t)) == Some((c, t)) {
    }
  }

  lemma ProvenanceRoundTrip()
    ensures Undoes(GetProvenance, PutProvenance, (p: ProvenanceRef) => p)
  {
    ScalarsRoundTrip();
    TextsRoundTrip();
    forall p: ProvenanceRef, t: Bytes ensures GetProvenance(PutProvenance(p, t)) == Some((p, t)) {
    }
  }

  lemma DependencyRoundTrip()
    ensures Undoes(GetDependency, PutDependency, (d: DependencyRef) => d)
  {
    ScalarsRoundTrip();
    forall d: DependencyRef, t: Bytes ensures GetDependency(PutDependency(d, t)) == Some((d, t)) {
    }
  }

  lemma RetrievalRoundTrip(e: RetrievalEstimate, t: Bytes)
    ensures GetRetrieval(PutRetrieval(e, t)) == Some((e, t))
  {
    ScalarsRoundTrip();
  }

  lemma PlaceReadsBack(l: StateLocation, t: Bytes)
    ensures GetPlace(PutPlace(l, t)) == Some((PlaceOf(l), t))
  {
    ScalarsRoundTrip();
    TextsRoundTrip();
  }

  /** The parser's location once its place has been read. */
  function PlaceOf(l: StateLocation): StateLocation {
    BLANK_LOCATION.(placementId := l.placementId, replicaId := l.replicaId, nodeId := l.nodeId, deviceId := l.deviceId,
                    domainId := l.domainId, domain := l.domain, backend := l.backend, tier := l.tier,
                    locationGeneration := l.locationGeneration, placementGeneration := l.placementGeneration,
                    replicaGeneration := l.replicaGeneration, address := l.address, byteSize := l.byteSize)
  }

  lemma ConditionReadsBack(l: StateLocation, base: StateLocation, t: Bytes)
    ensures GetCondition(base, PutCondition(l, t))
         == Some((base.(accessClass := l.accessClass, health := l.health, freshness := l.freshness,
                        provenance := l.provenance, localityMetadata := l.localityMetadata,
                        retrieval := l.retrieval), t))
  {
    ScalarsRoundTrip();
    TextsRoundTrip();
    RetrievalRoundTrip(l.retrieval, t);
  }

  lemma AuthorityReadsBack(l: StateLocation, base: StateLocation, t: Bytes)
    ensures GetAuthority(base, PutAuthority(l, t))
         == Some((base.(observationGeneration := l.observationGeneration,
                        provenanceGeneration := l.provenanceGeneration,
                        authorityEpoch := l.authorityEpoch, authorityBoot := l.authorityBoot,
                        createdAt := l.createdAt, updatedAt := l.updatedAt), t))
  {
    ScalarsRoundTrip();
  }

  lemma LocationReadsBack(l: StateLocation, t: Bytes)
    ensures GetLocation(PutLocation(l, t)) == Some((l.Persisted(), t))
  {
    PlaceReadsBack(l, PutCondition(l, PutAuthority(l, t)));
    ConditionReadsBack(l, PlaceOf(l), PutAuthority(l, t));
    var base := PlaceOf(l).(accessClass := l.accessClass, health := l.health, freshness := l.freshness,
                            provenance := l.provenance, localityMetadata := l.localityMetadata,
                            retrieval := l.retrieval);
    AuthorityReadsBack(l, base, t);
  }

  lemma LocationRoundTrip()
    ensures Undoes(GetLocation, PutLocation, (l: StateLocation) => l.Persisted())
  {
    hide GetLocation, PutLocation;
    forall l: StateLocation, t: Bytes ensures GetLocation(PutLocation(l, t)) == Some((l.Persisted(), t)) {
      LocationReadsBack(l, t);
    }
  }

  lemma OptionRoundTrip<T(!new)>(get: Parser<T>, put: Printer<T>, x: Option<T>, t: Bytes)
    requires Undoes(get, put, (v: T) => v)
    ensures GetOption(get, PutOption(put, x, t)) == Some((x, t))
  {
    ScalarsRoundTrip();
    if x.Some? {
      assert get(put(x.value, t)) == Some((((v: T) => v)(x.value), t));
    }
  }

  lemma BoundedRoundTrip<T(!new)>(get: Parser<T>, put: Printer<T>, kept: T -> T, bound: u64, xs: seq<T>, t: Bytes)
    requires Undoes(get, put, kept) && |xs| <= bound
    ensures GetBounded(get, bound, PutCount(|xs|, PutList(put, xs, t))) == Some((Map(kept, xs), t))
  {
    Powers();
    NumberRoundTrip(|xs|, 8, PutList(put, xs, t));
    ListRoundTrip(get, put, kept, xs, t);
  }

  /** A count beyond its bound is refused. */
  lemma OverfullIsRefused<T>(get: Parser<T>, bound: u64, n: nat, t: Bytes)
    requires bound < n <= MAX_U64
    ensures GetBounded(get, bound, PutCount(n, t)).None?
  {
    Powers();
    NumberRoundTrip(n, 8, t);
  }

  /** A bounded list reads back exactly when it is within the bound. */
  lemma BoundedReadsBack<T(!new)>(get: Parser<T>, put: Printer<T>, bound: u64, xs: seq<T>, t: Bytes)
    requires Undoes(get, put, (x: T) => x) && |xs| <= MAX_U64
    ensures GetBounded(get, bound, PutCount(|xs|, PutList(put, xs, t)))
         == if |xs| <= bound then Some((xs, t)) else None
  {
    if |xs| <= bound {
      BoundedRoundTrip(get, put, (x: T) => x, bound, xs, t);
      assert Map((x: T) => x, xs) == xs;
    } else {
      OverfullIsRefused(get, bound, |xs|, PutList(put, xs, t));
    }
  }

  /** The head fields of r over a blank record. */
  function HeadOf(r: StateRecord): StateRecord {
    var d := r.descriptor;
    BLANK_RECORD.(recordId := r.recordId, stateId := r.stateId, stateGeneration := r.stateGeneration,
                  descriptor := BLANK_DESCRIPTOR.(recordGeneration := d.recordGeneration, kind := d.kind,
                                                  namespaceId := d.namespaceId, ownerId := d.ownerId,
                                                  producerId := d.producerId, logicalSize := d.logicalSize,
                                                  contentDigest := d.contentDigest))
  }

  lemma HeadRoundTrip(r: StateRecord, t: Bytes)
    ensures GetRecordHead(PutRecordHead(r, t)) == Some((HeadOf(r), t))
  {
    ScalarsRoundTrip();
    TextsRoundTrip();
  }

  /** The parser's record once everything but the end has been read. */
  function MiddleOf(r: StateRecord): StateRecord {
    var d := r.descriptor;
    HeadOf(r).(descriptor := HeadOf(r).descriptor.(compatibility := d.compatibility, provenance := d.provenance,
                                                   dependencies := d.dependencies),
               locations := PersistedLocations(r.locations))
  }

  lemma EndRoundTrip(r: StateRecord, t: Bytes)
    ensures GetRecordEnd(MiddleOf(r), PutRecordEnd(r, t)) == Some((r.Persisted(), t))
  {
    hide PutU8, PutU64, PutI64, PutText, GetU8, GetU64, GetI64, GetText;
    ScalarsRoundTrip();
    TextsRoundTrip();
  }

  lemma DependenciesRoundTrip(ds: seq<DependencyRef>, t: Bytes)
    requires |ds| <= MAX_DEPENDENCIES
    ensures GetBounded(GetDependency, MAX_DEPENDENCIES, PutCount(|ds|, PutList(PutDependency, ds, t))) == Some((ds, t))
  {
    DependencyRoundTrip();
    BoundedRoundTrip(GetDependency, PutDependency, (d: DependencyRef) => d, MAX_DEPENDENCIES, ds, t);
    assert Map((d: DependencyRef) => d, ds) == ds;
  }

  lemma LocationsRoundTrip(ls: seq<StateLocation>, t: Bytes)
    requires |ls| <= MAX_LOCATIONS
    ensures GetBounded(GetLocation, MAX_LOCATIONS, PutCount(|ls|, PutList(PutLocation, ls, t)))
         == Some((PersistedLocations(ls), t))
  {
    LocationRoundTrip();
    BoundedRoundTrip(GetLocation, PutLocation, (l: StateLocation) => l.Persisted(), MAX_LOCATIONS, ls, t);
    assert Map((l: StateLocation) => l.Persisted(), ls) == PersistedLocations(ls);
  }

  lemma ReferencesReadBack(r: StateRecord, t: Bytes)
    ensures GetOption(GetCompatibility, PutOption(PutCompatibility, r.descriptor.compatibility, t))
         == Some((r.descriptor.compatibility, t))
    ensures GetOption(GetProvenance, PutOption(PutProvenance, r.descriptor.provenance, t))
         == Some((r.descriptor.provenance, t))
  {
    CompatibilityRoundTrip();
    OptionRoundTrip(GetCompatibility, PutCompatibility, r.descriptor.compatibility, t);
    ProvenanceRoundTrip();
    OptionRoundTrip(GetProvenance, PutProvenance, r.descriptor.provenance, t);
  }

  lemma BodyReadsBack(r: StateRecord, t: Bytes)
    requires r.FitsImage()
    ensures GetRecordBody(HeadOf(r), PutRecordBody(r, t)) == Some((MiddleOf(r), t))
  {
    hide PutCount, PutList, GetOption, PutOption, GetBounded;
    var d := r.descriptor;
    var s3 := PutCount(|r.locations|, PutList(PutLocation, r.locations, t));
    var s2 := PutCount(|d.dependencies|, PutList(PutDependency, d.dependencies, s3));
    ReferencesReadBack(r, PutOption(PutProvenance, d.provenance, s2));
    ReferencesReadBack(r, s2);
    DependenciesRoundTrip(d.dependencies, s3);
    LocationsRoundTrip(r.locations, t);
  }

  /** Reading back a printed record gives the record, without its unpersisted fields, and exactly the tail. */
  lemma RecordRoundTrip(r: StateRecord, t: Bytes)
    requires r.FitsImage()
    ensures GetRecord(PutRecord(r, t)) == Some((r.Persisted(), t))
  {
    hide PutRecordHead, PutRecordBody, PutRecordEnd, GetRecordHead, GetRecordBody, GetRecordEnd;
    HeadRoundTrip(r, PutRecordBody(r, PutRecordEnd(r, t)));
    BodyReadsBack(r, PutRecordEnd(r, t));
    EndRoundTrip(r, t);
  }

  /** The format distinguishes any two records that differ in a persisted field. */
  lemma RecordFormatInjective(a: StateRecord, b: StateRecord, s: Bytes, t: Bytes)
    requires a.FitsImage() && b.FitsImage()
    requires PutRecord(a, s) == PutRecord(b, t)
    ensures a.Persisted() == b.Persisted() && s == t
  {
    hide PutRecord, GetRecord;
    RecordRoundTrip(a, s);
    RecordRoundTrip(b, t);
  }
}
