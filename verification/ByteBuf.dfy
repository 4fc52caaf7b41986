/** Little-endian byte buffers.

    The format of a value is given twice: Put(x, tail) is the bytes of x followed by tail, and
    Get(s) splits a value off the front of s or fails. The buffer classes are proved against
    these, and every codec lemma is about them. */
module ByteBuf {
  import opened Basics

  type i64 = x: int | -0x8000_0000_0000_0000 <= x < 0x8000_0000_0000_0000

  // -------- Numbers as little-endian bytes --------

  function LittleEndian(v: nat, width: nat): (b: Bytes)
    ensures |b| == width
    decreases width
  {
    if width == 0 then [] else [v % 256] + LittleEndian(v / 256, width - 1)
  }

  function FromLittleEndian(b: Bytes): nat {
    if b == [] then 0 else b[0] + 256 * FromLittleEndian(b[1..])
  }

  function Pow256(n: nat): nat {
    if n == 0 then 1 else 256 * Pow256(n - 1)
  }

  lemma {:induction false} EndianRoundTrip(v: nat, width: nat)
    requires v < Pow256(width)
    ensures FromLittleEndian(LittleEndian(v, width)) == v
    decreases width
  {
    if width > 0 {
      EndianRoundTrip(v / 256, width - 1);
      assert LittleEndian(v, width)[1..] == LittleEndian(v / 256, width - 1);
    }
  }

  lemma {:induction false} EndianSurjective(b: Bytes)
    ensures FromLittleEndian(b) < Pow256(|b|)
    ensures LittleEndian(FromLittleEndian(b), |b|) == b
  {
    if b != [] {
      EndianSurjective(b[1..]);
      LowDigit(b[0], FromLittleEndian(b[1..]));
      assert b == [b[0]] + b[1..];
    }
  }

  lemma LowDigit(low: u8, high: nat)
    ensures (low + 256 * high) % 256 == low && (low + 256 * high) / 256 == high
  {
  }

  lemma {:induction false} FromLittleEndianAppend(b: Bytes, x: u8)
    ensures FromLittleEndian(b + [x]) == FromLittleEndian(b) + x * Pow256(|b|)
  {
    if b == [] {
      assert FromLittleEndian([x][1..]) == 0;
    } else {
      assert (b + [x])[1..] == b[1..] + [x];
      FromLittleEndianAppend(b[1..], x);
      ScaleBy256(x, Pow256(|b| - 1));
    }
  }

  lemma ScaleBy256(x: nat, p: nat)
    ensures 256 * (x * p) == x * (256 * p)
  {
  }

  /** The n bytes at i, and what follows them. */
  lemma Sliced(b: Bytes, i: nat, n: nat)
    requires i + n <= |b|
    ensures b[i..][..n] == b[i..i + n] && b[i..][n..] == b[i + n..]
  {
  }

  lemma Powers()
    ensures Pow256(1) == 0x100 && Pow256(2) == 0x1_0000
    ensures Pow256(4) == 0x1_0000_0000 && Pow256(8) == 0x1_0000_0000_0000_0000
  {
    assert Pow256(3) == 0x100_0000;
    assert Pow256(5) == 0x100_0000_0000;
    assert Pow256(6) == 0x1_0000_0000_0000;
    assert Pow256(7) == 0x100_0000_0000_0000;
  }

  // -------- Printers --------

  function PutU8(v: u8, tail: Bytes): Bytes {
    [v] + tail
  }

  function PutNumber(v: nat, width: nat, tail: Bytes): Bytes {
    LittleEndian(v, width) + tail
  }

  function PutU16(v: u16, tail: Bytes): Bytes {
    PutNumber(v, 2, tail)
  }

  function PutU32(v: u32, tail: Bytes): Bytes {
    PutNumber(v, 4, tail)
  }

  function PutU64(v: u64, tail: Bytes): Bytes {
    PutNumber(v, 8, tail)
  }

  /** The two's complement code of a signed value. */
  function ToUnsigned(v: i64): u64 {
    if v < 0 then v + 0x1_0000_0000_0000_0000 else v
  }

  function ToSigned(v: u64): i64 {
    if v < 0x8000_0000_0000_0000 then v else v - 0x1_0000_0000_0000_0000
  }

  function PutI64(v: i64, tail: Bytes): Bytes {
    PutU64(ToUnsigned(v), tail)
  }

  function PutBool(v: bool, tail: Bytes): Bytes {
    PutU8(if v then 1 else 0, tail)
  }

  /** A string fits when its length can be held in the 64-bit prefix. */
  type Text = s: Bytes | |s| < 0x1_0000_0000_0000_0000

  function PutText(s: Text, tail: Bytes): Bytes {
    PutU64(|s|, s + tail)
  }

  // -------- Parsers --------

  function GetNumber(s: Bytes, width: nat): (r: Option<(nat, Bytes)>)
    ensures r.Some? ==> r.value.0 < Pow256(width)
  {
    if |s| < width then None
    else
      EndianSurjective(s[..width]);
      Some((FromLittleEndian(s[..width]), s[width..]))
  }

  function GetU8(s: Bytes): Option<(u8, Bytes)> {
    if s == [] then None else Some((s[0], s[1..]))
  }

  function GetU16(s: Bytes): Option<(u16, Bytes)> {
    Powers();
    var (v, rest) :- GetNumber(s, 2);
    Some((v, rest))
  }

  function GetU32(s: Bytes): Option<(u32, Bytes)> {
    Powers();
    var (v, rest) :- GetNumber(s, 4);
    Some((v, rest))
  }

  function GetU64(s: Bytes): Option<(u64, Bytes)> {
    Powers();
    var (v, rest) :- GetNumber(s, 8);
    Some((v, rest))
  }

  function GetI64(s: Bytes): Option<(i64, Bytes)> {
    var (v, rest) :- GetU64(s);
    Some((ToSigned(v), rest))
  }

  /** Any non-zero byte reads as true. */
  function GetBool(s: Bytes): Option<(bool, Bytes)> {
    var (v, rest) :- GetU8(s);
    Some((v != 0, rest))
  }

  function GetText(s: Bytes): Option<(Text, Bytes)> {
    var (n, rest) :- GetU64(s);
    if n > |rest| then None else Some((rest[..n], rest[n..]))
  }

  // -------- Reading back what was printed --------

  lemma NumberRoundTrip(v: nat, width: nat, tail: Bytes)
    requires v < Pow256(width)
    ensures GetNumber(PutNumber(v, width, tail), width) == Some((v, tail))
  {
    var s := PutNumber(v, width, tail);
    assert s[..width] == LittleEndian(v, width) && s[width..] == tail;
    EndianRoundTrip(v, width);
  }

  lemma TextRoundTrip(s: Text, tail: Bytes)
    ensures GetText(PutText(s, tail)) == Some((s, tail))
  {
    ScalarsRoundTrip();
    assert (s + tail)[..|s|] == s && (s + tail)[|s|..] == tail;
  }

  /** Every scalar parser undoes its printer and leaves exactly the tail. */
  lemma ScalarsRoundTrip()
    ensures forall v: u8, t: Bytes {:trigger PutU8(v, t)} :: GetU8(PutU8(v, t)) == Some((v, t))
    ensures forall v: u16, t: Bytes {:trigger PutU16(v, t)} :: GetU16(PutU16(v, t)) == Some((v, t))
    ensures forall v: u32, t: Bytes {:trigger PutU32(v, t)} :: GetU32(PutU32(v, t)) == Some((v, t))
    ensures forall v: u64, t: Bytes {:trigger PutU64(v, t)} :: GetU64(PutU64(v, t)) == Some((v, t))
    ensures forall v: i64, t: Bytes {:trigger PutI64(v, t)} :: GetI64(PutI64(v, t)) == Some((v, t))
    ensures forall v: bool, t: Bytes {:trigger PutBool(v, t)} :: GetBool(PutBool(v, t)) == Some((v, t))
  {
    Powers();
    forall v: u8, t: Bytes ensures GetU8(PutU8(v, t)) == Some((v, t)) {
      assert ([v] + t)[1..] == t;
    }
    forall v: u16, t: Bytes ensures GetU16(PutU16(v, t)) == Some((v, t)) { NumberRoundTrip(v, 2, t); }
    forall v: u32, t: Bytes ensures GetU32(PutU32(v, t)) == Some((v, t)) { NumberRoundTrip(v, 4, t); }
    forall v: u64, t: Bytes ensures GetU64(PutU64(v, t)) == Some((v, t)) { NumberRoundTrip(v, 8, t); }
    forall v: i64, t: Bytes ensures GetI64(PutI64(v, t)) == Some((v, t)) {
      NumberRoundTrip(ToUnsigned(v), 8, t);
    }
  }

  lemma TextsRoundTrip()
    ensures forall s: Text, t: Bytes {:trigger PutText(s, t)} :: GetText(PutText(s, t)) == Some((s, t))
  {
    forall s: Text, t: Bytes ensures GetText(PutText(s, t)) == Some((s, t)) { TextRoundTrip(s, t); }
  }

  // -------- The buffer classes --------

  /** Every push is specified by what it does to the bytes still to come: pushing x and then
      appending t is appending Put(x, t). */
  class ByteWriter {
    var buf: Bytes

    constructor ()
      ensures buf == []
    {
      buf := [];
    }

    method PushByte(b: u8)
      modifies this
      ensures forall t: Bytes {:trigger PutU8(b, t)} :: buf + t == old(buf) + PutU8(b, t)
    {
      ghost var before := buf;
      buf := buf + [b];
      forall t: Bytes ensures buf + t == before + PutU8(b, t) {
        Associates(before, [b], t);
      }
    }

    method PushBool(b: bool)
      modifies this
      ensures forall t: Bytes {:trigger PutBool(b, t)} :: buf + t == old(buf) + PutBool(b, t)
    {
      PushByte(if b then 1 else 0);
    }

    /** The shifting loop behind every multi-byte push. */
    method PushNumber(v: nat, width: nat)
      modifies this
      ensures forall t: Bytes {:trigger PutNumber(v, width, t)} :: buf + t == old(buf) + PutNumber(v, width, t)
    {
      ghost var before := buf;
      var shifted := v;
      var i := 0;
      while i < width
        invariant 0 <= i <= width
        invariant buf + LittleEndian(shifted, width - i) == before + LittleEndian(v, width)
      {
        Associates(buf, [shifted % 256], LittleEndian(shifted / 256, width - i - 1));
        buf := buf + [shifted % 256];
        shifted := shifted / 256;
        i := i + 1;
      }
      assert buf + [] == buf;
      forall t: Bytes ensures buf + t == before + PutNumber(v, width, t) {
        Associates(before, LittleEndian(v, width), t);
      }
    }

    method PushU16(v: u16)
      modifies this
      ensures forall t: Bytes {:trigger PutU16(v, t)} :: buf + t == old(buf) + PutU16(v, t)
    {
      PushNumber(v, 2);
    }

    method PushU32(v: u32)
      modifies this
      ensures forall t: Bytes {:trigger PutU32(v, t)} :: buf + t == old(buf) + PutU32(v, t)
    {
      PushNumber(v, 4);
    }

    method PushU64(v: u64)
      modifies this
      ensures forall t: Bytes {:trigger PutU64(v, t)} :: buf + t == old(buf) + PutU64(v, t)
    {
      PushNumber(v, 8);
    }

    method PushI64(v: i64)
      modifies this
      ensures forall t: Bytes {:trigger PutI64(v, t)} :: buf + t == old(buf) + PutI64(v, t)
    {
      PushU64(ToUnsigned(v));
    }

    method PushBytes(b: Bytes)
      modifies this
      ensures buf == old(buf) + b
    {
      buf := buf + b;
    }

    method PushString(s: Text)
      modifies this
      ensures forall t: Bytes {:trigger PutText(s, t)} :: buf + t == old(buf) + PutText(s, t)
    {
      ghost var before := buf;
      PushU64(|s|);
      ghost var middle := buf;
      PushBytes(s);
      forall t: Bytes ensures buf + t == before + PutText(s, t) {
        Associates(middle, s, t);
      }
    }
  }

  lemma Associates(a: Bytes, b: Bytes, c: Bytes)
    ensures a + b + c == a + (b + c)
  {
  }

  /** What a read must do: succeed with the parser's value and leave the parser's rest. */
  ghost predicate Reads<T>(result: Option<T>, rest: Bytes, spec: Option<(T, Bytes)>) {
    match spec
    case None => result.None?
    case Some((v, r)) => result == Some(v) && rest == r
  }

  class ByteReader {
    const span: Bytes
    var pos: nat

    constructor (bytes: Bytes)
      ensures Valid() && span == bytes && pos == 0 && Rest() == bytes
    {
      span := bytes;
      pos := 0;
    }

    ghost predicate Valid()
      reads this
    {
      pos <= |span|
    }

    ghost function Rest(): Bytes
      requires Valid()
      reads this
    {
      span[pos..]
    }

    method ReadU8() returns (r: Option<u8>)
      requires Valid()
      modifies this`pos
      ensures Valid() && Reads(r, Rest(), GetU8(old(Rest())))
    {
      if |span| - pos < 1 {
        return None;
      }
      pos := pos + 1;
      assert old(Rest())[1..] == Rest();
      r := Some(span[pos - 1]);
    }

    method ReadBool() returns (r: Option<bool>)
      requires Valid()
      modifies this`pos
      ensures Valid() && Reads(r, Rest(), GetBool(old(Rest())))
    {
      var b :- ReadU8();
      r := Some(b != 0);
    }

    /** The accumulating loop behind every multi-byte read. */
    method ReadNumber(width: nat) returns (r: Option<nat>)
      requires Valid()
      modifies this`pos
      ensures Valid() && Reads(r, Rest(), GetNumber(old(Rest()), width))
    {
      if |span| - pos < width {
        return None;
      }
      var v: nat := 0;
      var place: nat := 1;
      var i := 0;
      while i < width
        invariant 0 <= i <= width && pos == old(pos)
        invariant place == Pow256(i)
        invariant v == FromLittleEndian(span[pos..pos + i])
      {
        assert span[pos..pos + i + 1] == span[pos..pos + i] + [span[pos + i]];
        FromLittleEndianAppend(span[pos..pos + i], span[pos + i]);
        v := v + span[pos + i] * place;
        place := 256 * place;
        i := i + 1;
      }
      pos := pos + width;
      assert old(Rest())[..width] == span[old(pos)..pos];
      assert old(Rest())[width..] == Rest();
      r := Some(v);
    }

    method ReadU16() returns (r: Option<u16>)
      requires Valid()
      modifies this`pos
      ensures Valid() && Reads(r, Rest(), GetU16(old(Rest())))
    {
      Powers();
      var v :- ReadNumber(2);
      r := Some(v);
    }

    method ReadU32() returns (r: Option<u32>)
      requires Valid()
      modifies this`pos
      ensures Valid() && Reads(r, Rest(), GetU32(old(Rest())))
    {
      Powers();
      var v :- ReadNumber(4);
      r := Some(v);
    }

    method ReadU64() returns (r: Option<u64>)
      requires Valid()
      modifies this`pos
      ensures Valid() && Reads(r, Rest(), GetU64(old(Rest())))
    {
      Powers();
      var v :- ReadNumber(8);
      r := Some(v);
    }

    method ReadI64() returns (r: Option<i64>)
      requires Valid()
      modifies this`pos
      ensures Valid() && Reads(r, Rest(), GetI64(old(Rest())))
    {
      var v :- ReadU64();
      r := Some(ToSigned(v));
    }

    method ReadString() returns (r: Option<Text>)
      requires Valid()
      modifies this`pos
      ensures Valid() && Reads(r, Rest(), GetText(old(Rest())))
    {
      var n :- ReadU64();
      if n > |span| - pos {
        return None;
      }
      ghost var before := Rest();
      pos := pos + n;
      assert before[..n] == span[pos - n..pos] && before[n..] == Rest();
      r := Some(span[pos - n..pos]);
    }
  }
}
