/** The framed wire protocol: a 16-byte prefix [magic | version | kind | length], the CRC of prefix
    and payload, four reserved bytes, and the payload. */
module Frame {
  import opened Basics
  import opened ByteBuf
  import opened Crc

  const MAGIC: u32 := 0x5358_4944
  const VERSION: u16 := 1
  const HEADER_SIZE := 24
  const MAX_FRAME_BYTES := 0x400_0000

  // Message kinds run from HELLO to ACK.
  const HELLO: u16 := 1
  const ACK: u16 := 16

  datatype Frame = Frame(kind: u16, payload: Bytes)

  datatype FrameError = BadMagic | BadVersion | Oversized | Truncated | BadCrc | InvalidKind | TrailingGarbage

  predicate Sendable(f: Frame) {
    HELLO <= f.kind <= ACK && |f.payload| <= MAX_FRAME_BYTES
  }

  function Prefix(kind: u16, length: nat): (b: Bytes)
    ensures |b| == 16
  {
    LittleEndian(MAGIC, 4) + LittleEndian(VERSION, 2) + LittleEndian(kind, 2) + LittleEndian(length, 8)
  }

  function EncodeFrame(f: Frame): (b: Bytes)
    ensures |b| == HEADER_SIZE + |f.payload|
  {
    var prefix := Prefix(f.kind, |f.payload|);
    prefix + LittleEndian(Crc32(prefix + f.payload), 4) + LittleEndian(0, 4) + f.payload
  }

  /** The bytes under the checksum. */
  function Covered(b: Bytes): Bytes
    requires |b| >= HEADER_SIZE
  {
    b[..16] + b[HEADER_SIZE..]
  }

  function DecodeFrame(b: Bytes): Result<Frame, FrameError> {
    if |b| < HEADER_SIZE then Err(Truncated)
    else if FromLittleEndian(b[0..4]) != MAGIC then Err(BadMagic)
    else if FromLittleEndian(b[4..6]) != VERSION then Err(BadVersion)
    else
      var kind := FromLittleEndian(b[6..8]);
      var length := FromLittleEndian(b[8..16]);
      if length > MAX_FRAME_BYTES then Err(Oversized)
      else if |b| - HEADER_SIZE < length then Err(Truncated)
      else if |b| - HEADER_SIZE > length then Err(TrailingGarbage)
      else if Crc32(Covered(b)) != FromLittleEndian(b[16..20]) then Err(BadCrc)
      else if kind < HELLO || kind > ACK then Err(InvalidKind)
      else Ok(Frame(kind, b[HEADER_SIZE..]))
  }

  /** b is the encoding of f, whatever the reserved bytes say. */
  ghost predicate EncodesUpToReserved(b: Bytes, f: Frame) {
    && |b| == HEADER_SIZE + |f.payload|
    && b[..20] == EncodeFrame(f)[..20]
    && b[HEADER_SIZE..] == f.payload
  }

  lemma EndianOf(v: nat, width: nat, b: Bytes)
    requires v < Pow256(width) && |b| == width
    ensures b == LittleEndian(v, width) <==> FromLittleEndian(b) == v
  {
    EndianRoundTrip(v, width);
    EndianSurjective(b);
  }

  lemma PrefixFields(b: Bytes, kind: u16, length: u64)
    requires |b| == 16
    ensures b == Prefix(kind, length) <==>
      && FromLittleEndian(b[0..4]) == MAGIC && FromLittleEndian(b[4..6]) == VERSION
      && FromLittleEndian(b[6..8]) == kind && FromLittleEndian(b[8..16]) == length
  {
    hide LittleEndian, FromLittleEndian, Pow256;
    Powers();
    EndianOf(MAGIC, 4, b[0..4]);
    EndianOf(VERSION, 2, b[4..6]);
    EndianOf(kind, 2, b[6..8]);
    EndianOf(length, 8, b[8..16]);
    assert b == b[0..4] + b[4..6] + b[6..8] + b[8..16];
    var p := Prefix(kind, length);
    assert p[0..4] == LittleEndian(MAGIC, 4) && p[4..6] == LittleEndian(VERSION, 2);
    assert p[6..8] == LittleEndian(kind, 2) && p[8..16] == LittleEndian(length, 8);
  }

  lemma EncodedParts(f: Frame)
    ensures var b := EncodeFrame(f); var p := Prefix(f.kind, |f.payload|);
      && b[..16] == p && b[16..20] == LittleEndian(Crc32(p + f.payload), 4)
      && b[..20] == p + LittleEndian(Crc32(p + f.payload), 4)
      && b[HEADER_SIZE..] == f.payload && Covered(b) == p + f.payload
  {
  }

  /** Decoding accepts exactly the encodings of sendable frames, up to the four reserved bytes. */
  lemma DecodesExactlyEncodings(b: Bytes, f: Frame)
    ensures DecodeFrame(b) == Ok(f) <==> Sendable(f) && EncodesUpToReserved(b, f)
  {
    hide LittleEndian, FromLittleEndian, Pow256, Crc32, Prefix, EncodeFrame;
    var n := |f.payload|;
    if |b| == HEADER_SIZE + n && b[HEADER_SIZE..] == f.payload && n <= MAX_FRAME_BYTES {
      var crc := Crc32(Prefix(f.kind, n) + f.payload);
      EncodedParts(f);
      PrefixFields(b[..16], f.kind, n);
      Powers();
      EndianOf(crc, 4, b[16..20]);
      assert b[..16][0..4] == b[0..4] && b[..16][4..6] == b[4..6] && b[..16][6..8] == b[6..8]
        && b[..16][8..16] == b[8..16];
      assert b[..20] == b[..16] + b[16..20];
    }
  }

  /** Every sendable frame, and no other, comes back from its encoding. */
  lemma FrameRoundTrip(f: Frame)
    ensures DecodeFrame(EncodeFrame(f)) == Ok(f) <==> Sendable(f)
  {
    EncodedParts(f);
    DecodesExactlyEncodings(EncodeFrame(f), f);
  }

  /** The checksum field of an accepted frame is the checksum of its covered bytes. */
  lemma AcceptedChecksum(b: Bytes)
    requires DecodeFrame(b).Ok?
    ensures |b| >= HEADER_SIZE && FromLittleEndian(b[16..20]) == Crc32(Covered(b))
  {
  }

  /** A change of the covered bytes confined to four consecutive ones is never accepted. */
  lemma BurstIsDetected(b: Bytes, c: Bytes, front: Bytes, x: Bytes, y: Bytes, back: Bytes)
    requires DecodeFrame(b).Ok? && |c| >= HEADER_SIZE && b[16..20] == c[16..20]
    requires Covered(b) == front + x + back && Covered(c) == front + y + back
    requires |x| == |y| <= 4 && x != y
    ensures DecodeFrame(c).Err?
  {
    BurstChangesCrc(front, x, y, back);
    if DecodeFrame(c).Ok? {
      AcceptedChecksum(b);
      AcceptedChecksum(c);
    }
  }

  /** A change of the checksum field alone is never accepted. */
  lemma ChecksumChangeIsDetected(b: Bytes, c: Bytes)
    requires DecodeFrame(b).Ok? && |c| >= HEADER_SIZE && Covered(b) == Covered(c)
    ensures b[16..20] != c[16..20] ==> DecodeFrame(c).Err?
  {
    if DecodeFrame(c).Ok? {
      AcceptedChecksum(b);
      AcceptedChecksum(c);
      EndianSurjective(b[16..20]);
      EndianSurjective(c[16..20]);
    }
  }

  /** One altered byte in an accepted frame: refused everywhere but in the reserved bytes, where it
      is ignored. */
  lemma AlteredByte(b: Bytes, i: nat, v: u8)
    requires DecodeFrame(b).Ok? && i < |b| && v != b[i]
    ensures DecodeFrame(b[i := v]).Ok? <==> 20 <= i < HEADER_SIZE
    ensures 20 <= i < HEADER_SIZE ==> DecodeFrame(b[i := v]) == DecodeFrame(b)
  {
    var c := b[i := v];
    if i < 16 {
      assert Covered(b) == b[..i] + [b[i]] + (b[i + 1..16] + b[HEADER_SIZE..]);
      assert Covered(c) == b[..i] + [v] + (b[i + 1..16] + b[HEADER_SIZE..]);
      assert b[16..20] == c[16..20];
      BurstIsDetected(b, c, b[..i], [b[i]], [v], b[i + 1..16] + b[HEADER_SIZE..]);
    } else if i < 20 {
      assert Covered(b) == Covered(c);
      assert b[16..20][i - 16] != c[16..20][i - 16];
      ChecksumChangeIsDetected(b, c);
    } else if i < HEADER_SIZE {
      var f := DecodeFrame(b).value;
      DecodesExactlyEncodings(b, f);
      assert c[..20] == b[..20] && c[HEADER_SIZE..] == b[HEADER_SIZE..];
      DecodesExactlyEncodings(c, f);
    } else {
      assert Covered(b) == (b[..16] + b[HEADER_SIZE..i]) + [b[i]] + b[i + 1..];
      assert Covered(c) == (b[..16] + b[HEADER_SIZE..i]) + [v] + b[i + 1..];
      assert b[16..20] == c[16..20];
      BurstIsDetected(b, c, b[..16] + b[HEADER_SIZE..i], [b[i]], [v], b[i + 1..]);
    }
  }

  // -------- The buffer-driven codec --------

  method Encode(kind: u16, payload: Bytes) returns (b: Bytes)
    ensures b == EncodeFrame(Frame(kind, payload))
  {
    var hdr := new ByteWriter();
    hdr.PushU32(MAGIC);
    hdr.PushU16(VERSION);
    hdr.PushU16(kind);
    hdr.PushNumber(|payload|, 8);
    PrefixPrinted(hdr.buf, kind, |payload|);
    var crc := ComputeCrc32OverTwo(hdr.buf, payload);
    var f := new ByteWriter();
    f.PushBytes(hdr.buf);
    f.PushU32(crc);
    f.PushU32(0);
    FramePrinted(hdr.buf, f.buf, crc);
    if |payload| > 0 {
      f.PushBytes(payload);
    }
    b := f.buf;
  }

  lemma PrefixPrinted(buf: Bytes, kind: u16, n: nat)
    requires buf + [] == [] + PutU32(MAGIC, PutU16(VERSION, PutU16(kind, PutNumber(n, 8, []))))
    ensures buf == Prefix(kind, n)
  {
    var a, b, c, d := LittleEndian(MAGIC, 4), LittleEndian(VERSION, 2), LittleEndian(kind, 2), LittleEndian(n, 8);
    assert buf == buf + [];
    assert [] + (a + (b + (c + (d + [])))) == a + b + c + d;
  }

  lemma FramePrinted(prefix: Bytes, buf: Bytes, crc: u32)
    requires buf + [] == ([] + prefix) + PutU32(crc, PutU32(0, []))
    ensures buf == prefix + LittleEndian(crc, 4) + LittleEndian(0, 4)
  {
    var c, z := LittleEndian(crc, 4), LittleEndian(0, 4);
    assert buf == buf + [];
    assert ([] + prefix) + (c + (z + [])) == prefix + c + z;
  }

  method Decode(bytes: Bytes) returns (r: Result<Frame, FrameError>)
    ensures r == DecodeFrame(bytes)
  {
    hide Crc32, FromLittleEndian;
    if |bytes| < HEADER_SIZE {
      return Err(Truncated);
    }
    var reader := new ByteReader(bytes);
    Sliced(bytes, 0, 4);
    var magic := reader.ReadU32();
    if magic != Some(MAGIC) {
      return Err(BadMagic);
    }
    Sliced(bytes, 4, 2);
    var version := reader.ReadU16();
    if version != Some(VERSION) {
      return Err(BadVersion);
    }
    Sliced(bytes, 6, 2);
    var kind := reader.ReadU16();
    Sliced(bytes, 8, 8);
    var length := reader.ReadU64();
    Sliced(bytes, 16, 4);
    var stored := reader.ReadU32();
    if length.value > MAX_FRAME_BYTES {
      return Err(Oversized);
    }
    if |bytes| - HEADER_SIZE < length.value {
      return Err(Truncated);
    }
    if |bytes| - HEADER_SIZE > length.value {
      return Err(TrailingGarbage);
    }
    var computed := ComputeCrc32OverTwo(bytes[..16], bytes[HEADER_SIZE..]);
    if computed != stored.value {
      return Err(BadCrc);
    }
    if kind.value < HELLO || kind.value > ACK {
      return Err(InvalidKind);
    }
    r := Ok(Frame(kind.value, bytes[HEADER_SIZE..]));
  }
}
