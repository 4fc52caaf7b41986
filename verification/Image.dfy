/** The persistent image: a header, the payload, its CRC-32 and its 32-byte digest. */
module Image {
  import opened Basics
  import opened ByteBuf
  import opened Crc
  import opened Model
  import opened RecordCodec
  import opened RecordIO
  import opened LedgerCodec

  const PERSIST_MAGIC: u32 := 0x5349_4944
  const PERSIST_VERSION: u16 := 1
  const HEADER_BYTES := 8
  const TRAILER_BYTES := 36

  /** What an image holds, in the order of the file. */
  datatype Contents = Contents(
    records: seq<StateRecord>,
    invalidations: seq<InvalidationRecord>,
    tombstones: seq<TombstoneRecord>,
    epoch: u64,
    invalidationSeq: u64,
    accounting: Accounting
  ) {
    function Persisted(): Contents {
      this.(records := PersistedRecords(records))
    }

    /** The bounds the loader enforces. */
    predicate WithinBounds() {
      && |records| <= MAX_RECORDS && |invalidations| <= MAX_RECORDS && |tombstones| <= MAX_RECORDS
      && forall r :: r in records ==> r.FitsImage()
    }

    /** Every count fits its 64-bit field. */
    predicate CountsFit() {
      && |records| <= MAX_U64 && |invalidations| <= MAX_U64 && |tombstones| <= MAX_U64 && accounting.Fits()
      && forall r :: r in records ==> r.CountsFit()
    }
  }

  function PersistedRecords(rs: seq<StateRecord>): (r: seq<StateRecord>)
    ensures |r| == |rs|
  {
    seq(|rs|, i requires 0 <= i < |rs| => rs[i].Persisted())
  }

  // -------- The payload --------

  function PutLedgers(c: Contents, tail: Bytes): Bytes {
    PutCount(|c.invalidations|, PutList(PutInvalidation, c.invalidations,
    PutCount(|c.tombstones|, PutList(PutTombstone, c.tombstones,
    PutU64(c.epoch, PutU64(c.invalidationSeq, PutAccounting(c.accounting, tail)))))))
  }

  function PutContents(c: Contents, tail: Bytes): Bytes {
    PutCount(|c.records|, PutList(PutRecord, c.records, PutLedgers(c, tail)))
  }

  function GetLedgers(records: seq<StateRecord>, s: Bytes): Option<(Contents, Bytes)> {
    var (invalidations, s) :- GetBounded(GetInvalidation, MAX_RECORDS, s);
    var (tombstones, s) :- GetBounded(GetTombstone, MAX_RECORDS, s);
    var (epoch, s) :- GetU64(s);
    var (number, s) :- GetU64(s);
    var (accounting, s) :- GetAccounting(s);
    Some((Contents(records, invalidations, tombstones, epoch, number, accounting), s))
  }

  function GetContents(s: Bytes): Option<(Contents, Bytes)> {
    var (records, s) :- GetBounded(GetRecord, MAX_RECORDS, s);
    GetLedgers(records, s)
  }

  // -------- Payload round trip --------

  /** A record over a bound is written but does not read back. */
  lemma UnfitRecordIsRefused(r: StateRecord, t: Bytes)
    requires r.CountsFit() && !r.FitsImage()
    ensures GetRecord(PutRecord(r, t)).None?
  {
    hide PutRecordHead, GetRecordHead, PutRecordEnd, GetRecordEnd, PutCount, PutList, GetOption, PutOption, GetBounded;
    HeadRoundTrip(r, PutRecordBody(r, PutRecordEnd(r, t)));
    UnfitBodyIsRefused(r, PutRecordEnd(r, t));
  }

  lemma UnfitBodyIsRefused(r: StateRecord, t: Bytes)
    requires r.CountsFit() && !r.FitsImage()
    ensures GetRecordBody(HeadOf(r), PutRecordBody(r, t)).None?
  {
    hide PutCount, PutList, GetOption, PutOption, GetBounded;
    var d := r.descriptor;
    var s3 := PutCount(|r.locations|, PutList(PutLocation, r.locations, t));
    var s2 := PutCount(|d.dependencies|, PutList(PutDependency, d.dependencies, s3));
    ReferencesReadBack(r, PutOption(PutProvenance, d.provenance, s2));
    ReferencesReadBack(r, s2);
    if |d.dependencies| <= MAX_DEPENDENCIES {
      DependenciesRoundTrip(d.dependencies, s3);
      OverfullIsRefused(GetLocation, MAX_LOCATIONS, |r.locations|, PutList(PutLocation, r.locations, t));
    } else {
      OverfullIsRefused(GetDependency, MAX_DEPENDENCIES, |d.dependencies|, PutList(PutDependency, d.dependencies, s3));
    }
  }

  lemma {:induction false} RecordListReadsBack(rs: seq<StateRecord>, t: Bytes)
    requires forall r :: r in rs ==> r.CountsFit()
    ensures GetList(GetRecord, |rs|, PutList(PutRecord, rs, t))
         == if forall r :: r in rs ==> r.FitsImage() then Some((PersistedRecords(rs), t)) else None
    decreases |rs|
  {
    hide GetRecord, PutRecord;
    if rs != [] {
      var rest := PutList(PutRecord, rs[1..], t);
      RecordListReadsBack(rs[1..], t);
      assert rs[0] in rs;
      if rs[0].FitsImage() {
        RecordRoundTrip(rs[0], rest);
        assert PersistedRecords(rs) == [rs[0].Persisted()] + PersistedRecords(rs[1..]);
        assert forall r :: r in rs <==> r == rs[0] || r in rs[1..];
      } else {
        UnfitRecordIsRefused(rs[0], rest);
      }
    }
  }

  lemma RecordsReadBack(rs: seq<StateRecord>, t: Bytes)
    requires |rs| <= MAX_U64 && forall r :: r in rs ==> r.CountsFit()
    ensures GetBounded(GetRecord, MAX_RECORDS, PutCount(|rs|, PutList(PutRecord, rs, t)))
         == if |rs| <= MAX_RECORDS && (forall r :: r in rs ==> r.FitsImage())
            then Some((PersistedRecords(rs), t)) else None
  {
    hide GetRecord, PutRecord, GetList, PutList;
    Powers();
    NumberRoundTrip(|rs|, 8, PutList(PutRecord, rs, t));
    RecordListReadsBack(rs, t);
  }

  lemma LedgersReadBack(c: Contents, t: Bytes)
    requires c.CountsFit()
    ensures GetLedgers(PersistedRecords(c.records), PutLedgers(c, t))
         == if |c.invalidations| <= MAX_RECORDS && |c.tombstones| <= MAX_RECORDS then Some((c.Persisted(), t)) else None
  {
    hide GetBounded, PutList, PutCount, PutU64, GetU64, PutAccounting, GetAccounting, PersistedRecords,
         PutInvalidation, PutTombstone, GetInvalidation, GetTombstone;
    var s3 := PutU64(c.epoch, PutU64(c.invalidationSeq, PutAccounting(c.accounting, t)));
    var s2 := PutCount(|c.tombstones|, PutList(PutTombstone, c.tombstones, s3));
    InvalidationRoundTrip();
    BoundedReadsBack(GetInvalidation, PutInvalidation, MAX_RECORDS, c.invalidations, s2);
    TombstoneRoundTrip();
    BoundedReadsBack(GetTombstone, PutTombstone, MAX_RECORDS, c.tombstones, s3);
    ScalarsRoundTrip();
    AccountingRoundTrip(c.accounting, t);
  }

  /** A written payload reads back, without what the format drops, exactly when it is within the loader's
      bounds; then reading ends exactly where writing did. */
  lemma ContentsReadBack(c: Contents, t: Bytes)
    requires c.CountsFit()
    ensures GetContents(PutContents(c, t)) == if c.WithinBounds() then Some((c.Persisted(), t)) else None
  {
    hide GetBounded, PutList, PutCount, GetLedgers, PutLedgers, PersistedRecords;
    RecordsReadBack(c.records, PutLedgers(c, t));
    LedgersReadBack(c, t);
  }

  // -------- The file --------

  datatype LoadError = TooShort | WrongMagic | WrongVersion | CrcMismatch | DigestMismatch | BadContents

  function PutImage(h: Hash, payload: Bytes): Bytes {
    PutU32(PERSIST_MAGIC, PutU16(PERSIST_VERSION, PutU16(0,
      payload + LittleEndian(Crc32(payload), 4) + h(payload))))
  }

  function PayloadOf(b: Bytes): Bytes
    requires |b| >= HEADER_BYTES + TRAILER_BYTES
  {
    b[HEADER_BYTES..|b| - TRAILER_BYTES]
  }

  function CrcField(b: Bytes): Bytes
    requires |b| >= HEADER_BYTES + TRAILER_BYTES
  {
    b[|b| - TRAILER_BYTES..|b| - 32]
  }

  /** The payload of an intact image. */
  function OpenImage(h: Hash, b: Bytes): Result<Bytes, LoadError> {
    if |b| < HEADER_BYTES + TRAILER_BYTES then Err(TooShort)
    else if FromLittleEndian(b[0..4]) != PERSIST_MAGIC then Err(WrongMagic)
    else if FromLittleEndian(b[4..6]) != PERSIST_VERSION then Err(WrongVersion)
    else if FromLittleEndian(CrcField(b)) != Crc32(PayloadOf(b)) then Err(CrcMismatch)
    else if b[|b| - 32..] != h(PayloadOf(b)) then Err(DigestMismatch)
    else Ok(PayloadOf(b))
  }

  lemma HeaderSlices(m: Bytes, v: Bytes, z: Bytes, rest: Bytes)
    requires |m| == 4 && |v| == 2 && |z| == 2
    ensures var b := m + (v + (z + rest)); b[0..4] == m && b[4..6] == v && b[HEADER_BYTES..] == rest
  {
  }

  lemma TrailerSlices(payload: Bytes, crc: Bytes, sha: Bytes)
    requires |crc| == 4 && |sha| == 32
    ensures var r, n := payload + crc + sha, |payload|;
      && |r| == n + TRAILER_BYTES && r[..n] == payload && r[n..n + 4] == crc && r[n + 4..] == sha
  {
  }

  lemma SliceOfRest(b: Bytes, i: nat, j: nat)
    requires HEADER_BYTES + i <= HEADER_BYTES + j <= |b|
    ensures b[HEADER_BYTES + i..HEADER_BYTES + j] == b[HEADER_BYTES..][i..j]
  {
  }

  lemma ImageParts(h: Hash, payload: Bytes)
    ensures var b := PutImage(h, payload);
      && |b| == HEADER_BYTES + |payload| + TRAILER_BYTES
      && b[0..4] == LittleEndian(PERSIST_MAGIC, 4) && b[4..6] == LittleEndian(PERSIST_VERSION, 2)
      && CrcField(b) == LittleEndian(Crc32(payload), 4)
      && b[|b| - 32..] == h(payload) && PayloadOf(b) == payload
  {
    hide Crc32, LittleEndian;
    var b, n := PutImage(h, payload), |payload|;
    var crc, sha := LittleEndian(Crc32(payload), 4), h(payload);
    HeaderSlices(LittleEndian(PERSIST_MAGIC, 4), LittleEndian(PERSIST_VERSION, 2), LittleEndian(0, 2),
                 payload + crc + sha);
    TrailerSlices(payload, crc, sha);
    SliceOfRest(b, 0, n);
    SliceOfRest(b, n, n + 4);
    SliceOfRest(b, n + 4, n + TRAILER_BYTES);
  }

  /** Every written image opens to its payload. */
  lemma ImageOpens(h: Hash, payload: Bytes)
    ensures OpenImage(h, PutImage(h, payload)) == Ok(payload)
  {
    hide Crc32, LittleEndian, FromLittleEndian;
    ImageParts(h, payload);
    Powers();
    EndianRoundTrip(PERSIST_MAGIC, 4);
    EndianRoundTrip(PERSIST_VERSION, 2);
    EndianRoundTrip(Crc32(payload), 4);
  }

  lemma IntactFields(h: Hash, b: Bytes)
    requires OpenImage(h, b).Ok?
    ensures |b| >= HEADER_BYTES + TRAILER_BYTES
    ensures FromLittleEndian(b[0..4]) == PERSIST_MAGIC && FromLittleEndian(b[4..6]) == PERSIST_VERSION
    ensures FromLittleEndian(CrcField(b)) == Crc32(PayloadOf(b))
    ensures b[|b| - 32..] == h(PayloadOf(b)) && OpenImage(h, b).value == PayloadOf(b)
  {
  }

  lemma SameField(x: Bytes, y: Bytes)
    requires |x| == |y| && FromLittleEndian(x) == FromLittleEndian(y)
    ensures x == y
  {
    EndianSurjective(x);
    EndianSurjective(y);
  }

  /** A change of the payload confined to four consecutive bytes is always caught, whatever the digest
      function is. */
  lemma DamagedPayloadIsRefused(h: Hash, b: Bytes, c: Bytes, front: Bytes, x: Bytes, y: Bytes, back: Bytes)
    requires OpenImage(h, b).Ok? && |c| == |b| >= HEADER_BYTES + TRAILER_BYTES && CrcField(c) == CrcField(b)
    requires PayloadOf(b) == front + x + back && PayloadOf(c) == front + y + back
    requires |x| == |y| <= 4 && x != y
    ensures OpenImage(h, c).Err?
  {
    hide Crc32, FromLittleEndian, PayloadOf, CrcField;
    BurstChangesCrc(front, x, y, back);
    IntactFields(h, b);
    if OpenImage(h, c).Ok? {
      IntactFields(h, c);
    }
  }

  lemma HeaderByteAltered(h: Hash, b: Bytes, i: nat, v: u8)
    requires OpenImage(h, b).Ok? && i < 6 && |b| >= 6 && v != b[i]
    ensures OpenImage(h, b[i := v]).Err?
  {
    hide Crc32, FromLittleEndian;
    var c := b[i := v];
    assert i < 4 ==> b[0..4][i] != c[0..4][i];
    assert i >= 4 ==> b[4..6][i - 4] != c[4..6][i - 4];
    IntactFields(h, b);
    if OpenImage(h, c).Ok? {
      IntactFields(h, c);
      SameField(b[0..4], c[0..4]);
      SameField(b[4..6], c[4..6]);
    }
  }

  lemma TrailerByteAltered(h: Hash, b: Bytes, i: nat, v: u8)
    requires OpenImage(h, b).Ok? && |b| >= TRAILER_BYTES && |b| - TRAILER_BYTES <= i < |b| && v != b[i]
    ensures OpenImage(h, b[i := v]).Err?
  {
    hide Crc32, FromLittleEndian;
    var c, n := b[i := v], |b|;
    IntactFields(h, b);
    assert PayloadOf(c) == PayloadOf(b);
    assert i < n - 32 ==> CrcField(b)[i - (n - TRAILER_BYTES)] != CrcField(c)[i - (n - TRAILER_BYTES)];
    assert i >= n - 32 ==> b[n - 32..][i - (n - 32)] != c[n - 32..][i - (n - 32)];
    if OpenImage(h, c).Ok? {
      IntactFields(h, c);
      SameField(CrcField(b), CrcField(c));
    }
  }

  lemma ReservedByteIgnored(h: Hash, b: Bytes, i: nat, v: u8)
    requires |b| >= HEADER_BYTES + TRAILER_BYTES && 6 <= i < HEADER_BYTES
    ensures OpenImage(h, b[i := v]) == OpenImage(h, b)
  {
    hide Crc32, FromLittleEndian, PayloadOf, CrcField;
    SliceWithout(b, i, v, 0, 4);
    SliceWithout(b, i, v, 4, 6);
    ReservedPayload(b, i, v);
    SliceWithout(b, i, v, |b| - 32, |b|);
    assert b[i := v][|b| - 32..] == b[i := v][|b| - 32..|b|] && b[|b| - 32..] == b[|b| - 32..|b|];
  }

  /** A slice that leaves out the altered byte. */
  lemma SliceWithout(b: Bytes, i: nat, v: u8, low: nat, high: nat)
    requires i < |b| && low <= high <= |b| && !(low <= i < high)
    ensures b[i := v][low..high] == b[low..high]
  {
  }

  lemma ReservedPayload(b: Bytes, i: nat, v: u8)
    requires |b| >= HEADER_BYTES + TRAILER_BYTES && i < HEADER_BYTES
    ensures PayloadOf(b[i := v]) == PayloadOf(b) && CrcField(b[i := v]) == CrcField(b)
  {
    SliceWithout(b, i, v, HEADER_BYTES, |b| - TRAILER_BYTES);
    SliceWithout(b, i, v, |b| - TRAILER_BYTES, |b| - 32);
  }

  /** Setting byte i inside the payload, from its front and back. */
  lemma PayloadAround(b: Bytes, i: nat, v: u8)
    requires HEADER_BYTES <= i && i < |b| - TRAILER_BYTES
    ensures PayloadOf(b[i := v]) == b[HEADER_BYTES..i] + [v] + b[i + 1..|b| - TRAILER_BYTES]
  {
    var left, right := PayloadOf(b[i := v]), b[HEADER_BYTES..i] + [v] + b[i + 1..|b| - TRAILER_BYTES];
    assert |left| == |right|;
    forall k | 0 <= k < |left| ensures left[k] == right[k] {
      assert left[k] == b[i := v][HEADER_BYTES + k];
    }
  }

  lemma TrailerUntouched(b: Bytes, i: nat, v: u8)
    requires |b| >= HEADER_BYTES + TRAILER_BYTES && i < |b| - TRAILER_BYTES
    ensures CrcField(b[i := v]) == CrcField(b)
  {
  }

  lemma PayloadByteAltered(h: Hash, b: Bytes, i: nat, v: u8)
    requires OpenImage(h, b).Ok? && HEADER_BYTES <= i && i < |b| - TRAILER_BYTES && v != b[i]
    ensures OpenImage(h, b[i := v]).Err?
  {
    hide OpenImage, PayloadOf, CrcField;
    PayloadAround(b, i, v);
    PayloadAround(b, i, b[i]);
    TrailerUntouched(b, i, v);
    assert b[i := b[i]] == b;
    DamagedPayloadIsRefused(h, b, b[i := v], b[HEADER_BYTES..i], [b[i]], [v], b[i + 1..|b| - TRAILER_BYTES]);
  }

  /** One altered byte in an intact image is refused everywhere but in the two reserved bytes, which are
      ignored. */
  lemma AlteredImageByte(h: Hash, b: Bytes, i: nat, v: u8)
    requires OpenImage(h, b).Ok? && i < |b| && v != b[i]
    ensures OpenImage(h, b[i := v]).Ok? <==> 6 <= i < HEADER_BYTES
    ensures 6 <= i < HEADER_BYTES ==> OpenImage(h, b[i := v]) == OpenImage(h, b)
  {
    IntactFields(h, b);
    hide OpenImage;
    if i < 6 {
      HeaderByteAltered(h, b, i, v);
    } else if i < HEADER_BYTES {
      ReservedByteIgnored(h, b, i, v);
    } else if i < |b| - TRAILER_BYTES {
      PayloadByteAltered(h, b, i, v);
    } else {
      TrailerByteAltered(h, b, i, v);
    }
  }

  // -------- Writing and opening --------

  method WriteImage(h: Hash, payload: Bytes) returns (b: Bytes)
    ensures b == PutImage(h, payload)
  {
    hide PutU32, PutU16, Crc32;
    var crc := ComputeCrc32(payload);
    var file := new ByteWriter();
    file.PushU32(PERSIST_MAGIC);
    file.PushU16(PERSIST_VERSION);
    file.PushU16(0);
    ghost var header := file.buf;
    file.PushBytes(payload);
    ghost var middle := file.buf;
    file.PushU32(crc);
    file.PushBytes(h(payload));
    b := file.buf;
    ImageAssembled(header, payload, crc, h(payload), middle, b);
  }

  lemma ImageAssembled(header: Bytes, payload: Bytes, crc: u32, sha: Bytes, middle: Bytes, b: Bytes)
    requires forall t: Bytes {:trigger header + t} ::
      header + t == [] + PutU32(PERSIST_MAGIC, PutU16(PERSIST_VERSION, PutU16(0, t)))
    requires middle == header + payload
    requires exists crcd: Bytes ::
      b == crcd + sha && forall t: Bytes {:trigger crcd + t} :: crcd + t == middle + PutU32(crc, t)
    ensures b == PutU32(PERSIST_MAGIC, PutU16(PERSIST_VERSION, PutU16(0, payload + LittleEndian(crc, 4) + sha)))
  {
    hide PutU16, LittleEndian;
    var crcd: Bytes :| b == crcd + sha && forall t: Bytes {:trigger crcd + t} :: crcd + t == middle + PutU32(crc, t);
    assert b == middle + PutU32(crc, sha);
    var rest := payload + LittleEndian(crc, 4) + sha;
    assert b == header + rest;
  }

  /** The magic number and the version, through the buffer reader; the reserved field is read and ignored. */
  method ReadHeader(bytes: Bytes) returns (problem: Option<LoadError>)
    requires |bytes| >= HEADER_BYTES + TRAILER_BYTES
    ensures problem == if FromLittleEndian(bytes[0..4]) != PERSIST_MAGIC then Some(WrongMagic)
                       else if FromLittleEndian(bytes[4..6]) != PERSIST_VERSION then Some(WrongVersion)
                       else None
  {
    hide FromLittleEndian;
    var header := new ByteReader(bytes);
    Sliced(bytes, 0, 4);
    var magic := header.ReadU32();
    if magic != Some(PERSIST_MAGIC) {
      return Some(WrongMagic);
    }
    Sliced(bytes, 4, 2);
    var version := header.ReadU16();
    var reserved := header.ReadU16();
    if version != Some(PERSIST_VERSION) {
      return Some(WrongVersion);
    }
    problem := None;
  }

  method ReadCrcField(bytes: Bytes) returns (crc: u32)
    requires |bytes| >= HEADER_BYTES + TRAILER_BYTES
    ensures crc == FromLittleEndian(CrcField(bytes))
  {
    hide FromLittleEndian;
    var tail := new ByteReader(bytes[|bytes| - TRAILER_BYTES..]);
    Sliced(bytes, |bytes| - TRAILER_BYTES, 4);
    var stored := tail.ReadU32();
    crc := stored.value;
  }

  /** The header and checksum tests of a load. */
  method ReadEnvelope(h: Hash, bytes: Bytes) returns (r: Result<Bytes, LoadError>)
    ensures r == OpenImage(h, bytes)
  {
    hide Crc32, FromLittleEndian;
    if |bytes| < HEADER_BYTES + TRAILER_BYTES {
      return Err(TooShort);
    }
    var problem := ReadHeader(bytes);
    if problem.Some? {
      return Err(problem.value);
    }
    var storedCrc := ReadCrcField(bytes);
    var payload := bytes[HEADER_BYTES..|bytes| - TRAILER_BYTES];
    var crc := ComputeCrc32(payload);
    if storedCrc != crc {
      return Err(CrcMismatch);
    }
    if h(payload) != bytes[|bytes| - 32..] {
      return Err(DigestMismatch);
    }
    r := Ok(payload);
  }
}
