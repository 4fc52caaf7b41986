/** CRC-32 with the reflected polynomial of IEEE 802.3 (section 3.2.9): a bit-at-a-time definition,
    the table-driven loops proved against it, and the bursts it must detect.

    Registers are 32-bit unsigned integers: `>> 1` is division by 2, `& 0xff` the remainder by 256,
    and `^` the function Xor below. */
module Crc {
  import opened Basics

  // -------- Exclusive or of unsigned integers --------

  function Xor(a: nat, b: nat): nat
    decreases a + b
  {
    if a == 0 && b == 0 then 0 else (a + b) % 2 + 2 * Xor(a / 2, b / 2)
  }

  lemma XorHalves(a: nat, b: nat)
    ensures Xor(a, b) / 2 == Xor(a / 2, b / 2)
    ensures Xor(a, b) % 2 == (a + b) % 2
  {
  }

  lemma {:induction false} XorZero(a: nat)
    ensures Xor(a, 0) == a && Xor(0, a) == a
  {
    if a > 0 {
      XorZero(a / 2);
    }
  }

  lemma {:induction false} XorSelf(a: nat)
    ensures Xor(a, a) == 0
  {
    if a > 0 {
      XorSelf(a / 2);
    }
  }

  lemma {:induction false} XorCommutes(a: nat, b: nat)
    ensures Xor(a, b) == Xor(b, a)
    decreases a + b
  {
    if a + b > 0 {
      XorCommutes(a / 2, b / 2);
    }
  }

  lemma HalvesDetermine(x: nat, y: nat)
    requires x / 2 == y / 2 && x % 2 == y % 2
    ensures x == y
  {
  }

  lemma ParityAssociates(a: nat, b: nat, c: nat, ab: nat, bc: nat)
    requires ab % 2 == (a + b) % 2 && bc % 2 == (b + c) % 2
    ensures (ab + c) % 2 == (a + bc) % 2
  {
  }

  lemma {:induction false} XorAssociates(a: nat, b: nat, c: nat)
    ensures Xor(Xor(a, b), c) == Xor(a, Xor(b, c))
    decreases a + b + c
  {
    hide Xor;
    var x, y := Xor(Xor(a, b), c), Xor(a, Xor(b, c));
    if a + b + c == 0 {
      XorZero(0);
    } else {
      assert x % 2 == y % 2 by {
        XorHalves(a, b);
        XorHalves(b, c);
        XorHalves(Xor(a, b), c);
        XorHalves(a, Xor(b, c));
        ParityAssociates(a, b, c, Xor(a, b), Xor(b, c));
      }
      assert x / 2 == y / 2 by {
        XorHalves(Xor(a, b), c);
        XorHalves(a, b);
        XorHalves(a, Xor(b, c));
        XorHalves(b, c);
        XorAssociates(a / 2, b / 2, c / 2);
      }
      HalvesDetermine(x, y);
    }
  }

  lemma XorCancels(s: nat, t: nat, x: nat)
    requires Xor(s, x) == Xor(t, x)
    ensures s == t
  {
    XorAssociates(s, x, x);
    XorAssociates(t, x, x);
    XorSelf(x);
    XorZero(s);
    XorZero(t);
  }

  function Pow2(k: nat): nat {
    if k == 0 then 1 else 2 * Pow2(k - 1)
  }

  lemma PowersUsed()
    ensures Pow2(8) == 0x100 && Pow2(31) == 0x8000_0000 && Pow2(32) == 0x1_0000_0000
  {
    assert Pow2(2) == 4;
    assert Pow2(4) == 0x10;
    assert Pow2(6) == 0x40;
    assert Pow2(8) == 0x100;
    assert Pow2(10) == 0x400;
    assert Pow2(12) == 0x1000;
    assert Pow2(14) == 0x4000;
    assert Pow2(16) == 0x1_0000;
    assert Pow2(18) == 0x4_0000;
    assert Pow2(20) == 0x10_0000;
    assert Pow2(22) == 0x40_0000;
    assert Pow2(24) == 0x100_0000;
    assert Pow2(26) == 0x400_0000;
    assert Pow2(28) == 0x1000_0000;
    assert Pow2(30) == 0x4000_0000;
  }

  lemma {:induction false} XorFits(a: nat, b: nat, k: nat)
    requires a < Pow2(k) && b < Pow2(k)
    ensures Xor(a, b) < Pow2(k)
    decreases k
  {
    if k > 0 {
      XorFits(a / 2, b / 2, k - 1);
    }
  }

  /** Joining a low part and a shifted high part. */
  lemma {:induction false} XorSplits(low: nat, high: nat, k: nat)
    requires low < Pow2(k)
    ensures Xor(low, Pow2(k) * high) == low + Pow2(k) * high
    decreases k
  {
    if k == 0 {
      XorZero(high);
    } else {
      var half := Pow2(k - 1) * high;
      assert Pow2(k) * high == 2 * half by { DoubleProduct(Pow2(k - 1), high); }
      XorSplits(low / 2, high, k - 1);
      XorJoins(low, half);
    }
  }

  lemma XorJoins(low: nat, half: nat)
    ensures Xor(low, 2 * half) == low % 2 + 2 * Xor(low / 2, half)
  {
    EvenTail(low, half);
    XorHalves(low, 2 * half);
    FromHalves(Xor(low, 2 * half), low % 2, Xor(low / 2, half));
  }

  lemma EvenTail(low: nat, half: nat)
    ensures (2 * half) / 2 == half && (low + 2 * half) % 2 == low % 2
  {
  }

  lemma FromHalves(x: nat, digit: nat, half: nat)
    requires x % 2 == digit && x / 2 == half
    ensures x == digit + 2 * half
  {
  }

  lemma DoubleProduct(p: nat, h: nat)
    ensures (2 * p) * h == 2 * (p * h)
  {
  }

  /** The top bit survives an exclusive or with a word that lacks it. */
  lemma {:induction false} XorTopBit(a: nat, b: nat, k: nat)
    requires Pow2(k) <= a < 2 * Pow2(k) && b < Pow2(k)
    ensures Pow2(k) <= Xor(a, b)
    decreases k
  {
    if k == 0 {
      XorZero(a);
    } else {
      XorTopBit(a / 2, b / 2, k - 1);
    }
  }

  function Xor32(a: u32, b: u32): u32 {
    PowersUsed();
    XorFits(a, b, 32);
    Xor(a, b)
  }

  // -------- The reference: one bit at a time --------

  const POLYNOMIAL: u32 := 0xEDB8_8320

  /** One shift of the register. */
  function Bit(c: u32): u32 {
    if c % 2 == 1 then Xor32(POLYNOMIAL, c / 2) else c / 2
  }

  function Bits(c: u32, n: nat): u32
    decreases n
  {
    if n == 0 then c else Bits(Bit(c), n - 1)
  }

  function ByteStep(s: u32, b: u8): u32 {
    Bits(Xor32(s, b), 8)
  }

  function Feed(s: u32, data: Bytes): u32
    decreases |data|
  {
    if data == [] then s else Feed(ByteStep(s, data[0]), data[1..])
  }

  function Crc32(data: Bytes): u32 {
    Xor32(Feed(0xFFFF_FFFF, data), 0xFFFF_FFFF)
  }

  // -------- Linearity and injectivity of the register --------

  lemma XorBothSides(p: nat, x: nat, y: nat)
    ensures Xor(Xor(p, x), Xor(p, y)) == Xor(x, y)
    ensures Xor(Xor(p, x), y) == Xor(p, Xor(x, y))
    ensures Xor(x, Xor(p, y)) == Xor(p, Xor(x, y))
  {
    XorAssociates(p, x, y);
    XorCommutes(x, Xor(p, y));
    XorAssociates(p, y, x);
    XorCommutes(y, x);
    XorAssociates(p, x, Xor(p, y));
    XorAssociates(p, p, Xor(x, y));
    XorSelf(p);
    XorZero(Xor(x, y));
  }

  lemma ParityOfSum(a: nat, b: nat)
    ensures (a + b) % 2 == if a % 2 == b % 2 then 0 else 1
  {
  }

  lemma BitLinear(a: u32, b: u32)
    ensures Bit(Xor32(a, b)) == Xor32(Bit(a), Bit(b))
  {
    hide Xor;
    XorHalves(a, b);
    ParityOfSum(a, b);
    var h := Xor(a / 2, b / 2);
    assert Bit(Xor32(a, b)) == if a % 2 == b % 2 then h else Xor(POLYNOMIAL, h);
    assert Xor32(Bit(a), Bit(b)) == if a % 2 == b % 2 then h else Xor(POLYNOMIAL, h) by {
      XorBothSides(POLYNOMIAL, a / 2, b / 2);
    }
  }

  lemma {:induction false} BitsLinear(a: u32, b: u32, n: nat)
    ensures Bits(Xor32(a, b), n) == Xor32(Bits(a, n), Bits(b, n))
    decreases n
  {
    if n > 0 {
      BitLinear(a, b);
      BitsLinear(Bit(a), Bit(b), n - 1);
    }
  }

  /** The polynomial's top bit records which way a shift went, so a shift loses nothing. */
  lemma BitInjective(a: u32, b: u32)
    requires Bit(a) == Bit(b)
    ensures a == b
  {
    PowersUsed();
    XorTopBit(POLYNOMIAL, a / 2, 31);
    XorTopBit(POLYNOMIAL, b / 2, 31);
    assert a % 2 == b % 2;
    if a % 2 == 1 {
      XorCommutes(POLYNOMIAL, a / 2);
      XorCommutes(POLYNOMIAL, b / 2);
      XorCancels(a / 2, b / 2, POLYNOMIAL);
    }
  }

  lemma {:induction false} BitsInjective(a: u32, b: u32, n: nat)
    requires Bits(a, n) == Bits(b, n)
    ensures a == b
    decreases n
  {
    if n > 0 {
      BitsInjective(Bit(a), Bit(b), n - 1);
      BitInjective(a, b);
    }
  }

  lemma {:induction false} BitsAdd(c: u32, m: nat, n: nat)
    ensures Bits(Bits(c, m), n) == Bits(c, m + n)
    decreases m
  {
    if m > 0 {
      BitsAdd(Bit(c), m - 1, n);
    }
  }

  /** Shifting out clear low bits only divides. */
  lemma {:induction false} BitsOfMultiple(c: u32, q: nat, k: nat)
    requires c == Pow2(k) * q
    ensures Bits(c, k) == q
    decreases k
  {
    if k > 0 {
      DoubleProduct(Pow2(k - 1), q);
      BitsOfMultiple(c / 2, q, k - 1);
    }
  }

  /** The identity behind the lookup table. */
  lemma TableStep(c: u32)
    ensures Bits(c, 8) == Xor32(Bits(c % 256, 8), c / 256)
  {
    PowersUsed();
    XorSplits(c % 256, c / 256, 8);
    BitsLinear(c % 256, 256 * (c / 256), 8);
    BitsOfMultiple(256 * (c / 256), c / 256, 8);
  }

  // -------- Streams --------

  lemma {:induction false} FeedAppend(s: u32, a: Bytes, b: Bytes)
    ensures Feed(s, a + b) == Feed(Feed(s, a), b)
    decreases |a|
  {
    if a == [] {
      assert a + b == b;
    } else {
      assert (a + b)[0] == a[0] && (a + b)[1..] == a[1..] + b;
      FeedAppend(ByteStep(s, a[0]), a[1..], b);
    }
  }

  lemma {:induction false} FeedInjective(s: u32, t: u32, data: Bytes)
    requires Feed(s, data) == Feed(t, data)
    ensures s == t
    decreases |data|
  {
    if data != [] {
      FeedInjective(ByteStep(s, data[0]), ByteStep(t, data[0]), data[1..]);
      BitsInjective(Xor32(s, data[0]), Xor32(t, data[0]), 8);
      XorCancels(s, t, data[0]);
    }
  }

  /** Up to four bytes, least significant first, as the word the register sees. */
  function Word(data: Bytes): nat {
    if data == [] then 0 else data[0] + 256 * Word(data[1..])
  }

  lemma WordFits(data: Bytes)
    requires |data| <= 4
    ensures Word(data) < 0x1_0000_0000
    ensures |data| <= 3 ==> Word(data) < 0x100_0000
  {
    if |data| >= 1 {
      var d1 := data[1..];
      assert |d1| == 0 ==> Word(d1) == 0;
      if |d1| >= 1 {
        var d2 := d1[1..];
        assert |d2| == 0 ==> Word(d2) == 0;
        if |d2| >= 1 {
          var d3 := d2[1..];
          assert |d3| == 0 ==> Word(d3) == 0;
          if |d3| >= 1 {
            assert Word(d3[1..]) == 0;
          }
        }
      }
    }
  }

  lemma {:induction false} WordInjective(a: Bytes, b: Bytes)
    requires |a| == |b| && Word(a) == Word(b)
    ensures a == b
  {
    if a != [] {
      assert a[0] == Word(a) % 256 && b[0] == Word(b) % 256;
      WordInjective(a[1..], b[1..]);
      assert a == [a[0]] + a[1..] && b == [b[0]] + b[1..];
    }
  }

  /** Feeding up to four bytes is xoring them in as one word and then shifting it all through. */
  lemma {:induction false} FeedWord(s: u32, data: Bytes)
    requires |data| <= 4 && Word(data) < 0x1_0000_0000
    ensures Feed(s, data) == Bits(Xor32(s, Word(data)), 8 * |data|)
    decreases |data|
  {
    hide Xor, ByteStep, Bit;
    if data == [] {
      XorZero(s);
    } else {
      var b, w := data[0], Word(data[1..]);
      WordFits(data[1..]);
      ByteThenWord(s, b, w);
      FeedWord(ByteStep(s, b), data[1..]);
      var rest := 8 * |data[1..]|;
      assert 8 + rest == 8 * |data|;
      BitsAdd(Xor32(s, b + 256 * w), 8, rest);
    }
  }

  lemma ByteThenWord(s: u32, b: u8, w: nat)
    requires w < 0x100_0000
    ensures Xor32(ByteStep(s, b), w) == Bits(Xor32(s, b + 256 * w), 8)
  {
    PowersUsed();
    BitsOfMultiple(256 * w, w, 8);
    BitsLinear(Xor32(s, b), 256 * w, 8);
    XorAssociates(s, b, 256 * w);
    XorSplits(b, w, 8);
  }

  /** The error-detection law: with the surrounding bytes fixed, any change confined to four
      consecutive bytes changes the checksum. */
  lemma BurstChangesCrc(front: Bytes, a: Bytes, b: Bytes, back: Bytes)
    requires |a| == |b| <= 4
    ensures Crc32(front + a + back) == Crc32(front + b + back) <==> a == b
  {
    var init: u32 := 0xFFFF_FFFF;
    var s := Feed(init, front);
    FeedAppend(init, front + a, back);
    FeedAppend(init, front, a);
    FeedAppend(init, front + b, back);
    FeedAppend(init, front, b);
    if Crc32(front + a + back) == Crc32(front + b + back) {
      XorCancels(Feed(init, front + a + back), Feed(init, front + b + back), init);
      FeedInjective(Feed(s, a), Feed(s, b), back);
      WordFits(a);
      WordFits(b);
      FeedWord(s, a);
      FeedWord(s, b);
      BitsInjective(Xor32(s, Word(a)), Xor32(s, Word(b)), 8 * |a|);
      XorCommutes(s, Word(a));
      XorCommutes(s, Word(b));
      XorCancels(Word(a), Word(b), s);
      WordInjective(a, b);
    }
  }

  // -------- The table-driven loops --------

  /** What the lookup table must hold. */
  ghost predicate IsTable(t: seq<u32>) {
    |t| == 256 && forall i: u8 :: t[i] == Bits(i, 8)
  }

  method MakeTable() returns (t: array<u32>)
    ensures fresh(t) && IsTable(t[..])
  {
    hide Xor;
    t := new u32[256];
    var i := 0;
    while i < 256
      invariant 0 <= i <= 256
      invariant forall j: u8 :: j < i ==> t[j] == Bits(j, 8)
    {
      var c: u32 := i;
      var k := 0;
      while k < 8
        invariant 0 <= k <= 8
        invariant Bits(c, 8 - k) == Bits(i, 8)
      {
        c := if c % 2 == 1 then Xor32(POLYNOMIAL, c / 2) else c / 2;
        k := k + 1;
      }
      t[i] := c;
      i := i + 1;
    }
  }

  /** One table lookup is one byte step. */
  lemma LookupStep(t: seq<u32>, s: u32, b: u8)
    requires IsTable(t)
    ensures Xor32(t[Xor32(s, b) % 256], s / 256) == ByteStep(s, b)
  {
    var c := Xor32(s, b);
    TableStep(c);
    assert c / 256 == s / 256 by { ByteShiftsOut(s, b); }
  }

  lemma ByteShiftsOut(s: nat, b: u8)
    ensures Xor(s, b) / 256 == s / 256
  {
    PowersUsed();
    XorSplits(s % 256, s / 256, 8);
    XorCommutes(s % 256, 256 * (s / 256));
    XorAssociates(256 * (s / 256), s % 256, b);
    XorFits(s % 256, b, 8);
    XorSplits(Xor(s % 256, b), s / 256, 8);
    XorCommutes(Xor(s % 256, b), 256 * (s / 256));
  }

  /** The inner loop of both checksum functions. */
  method FeedByTable(t: array<u32>, start: u32, data: Bytes) returns (crc: u32)
    requires IsTable(t[..])
    ensures crc == Feed(start, data)
  {
    crc := start;
    var i := 0;
    while i < |data|
      invariant 0 <= i <= |data|
      invariant Feed(crc, data[i..]) == Feed(start, data)
    {
      LookupStep(t[..], crc, data[i]);
      assert data[i..][1..] == data[i + 1..];
      crc := Xor32(t[Xor32(crc, data[i]) % 256], crc / 256);
      i := i + 1;
    }
  }

  method ComputeCrc32(data: Bytes) returns (crc: u32)
    ensures crc == Crc32(data)
  {
    var t := MakeTable();
    var s := FeedByTable(t, 0xFFFF_FFFF, data);
    crc := Xor32(s, 0xFFFF_FFFF);
  }

  /** The checksum of two buffers in sequence is the checksum of their concatenation. */
  method ComputeCrc32OverTwo(a: Bytes, b: Bytes) returns (crc: u32)
    ensures crc == Crc32(a + b)
  {
    var t := MakeTable();
    var s := FeedByTable(t, 0xFFFF_FFFF, a);
    s := FeedByTable(t, s, b);
    FeedAppend(0xFFFF_FFFF, a, b);
    crc := Xor32(s, 0xFFFF_FFFF);
  }
}
