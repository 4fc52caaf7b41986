/** What the checksum is, in the words of section 3.2.9 of IEEE 802.3: the complement of the remainder, by the
    generator, of the message with its first 32 bits complemented and 32 zero bits behind it.

    A polynomial over the field of two elements is the set of the exponents it has. */
module Polynomial {
  import opened Basics
  import opened Crc

  type Poly = set<nat>

  const GENERATOR: Poly := {32, 26, 23, 22, 16, 12, 11, 10, 8, 7, 5, 4, 2, 1, 0}

  /** Every coefficient below degree 32. */
  const ONES: Poly := set e: nat | e < 32

  function Add(a: Poly, b: Poly): Poly {
    (a - b) + (b - a)
  }

  /** a times the k-th power of x. */
  function Times(a: Poly, k: nat): Poly {
    set e | e in a :: e + k
  }

  /** The generator times the sum of the listed powers of x. */
  function Multiple(ks: seq<nat>): Poly {
    if ks == [] then {} else Add(Multiple(ks[..|ks| - 1]), Times(GENERATOR, ks[|ks| - 1]))
  }

  /** p is some multiple of the generator plus r, and the degree of r is below the generator's. */
  ghost predicate IsRemainder(r: Poly, p: Poly) {
    && (forall e :: e in r ==> e < 32)
    && exists ks :: p == Add(Multiple(ks), r)
  }

  function BitOf(v: nat, i: nat): bool {
    if i == 0 then v % 2 == 1 else BitOf(v / 2, i - 1)
  }

  /** The first byte has the highest powers, and of a byte its lowest bit. */
  predicate MessageBit(m: Bytes, e: nat) {
    e < 8 * |m| && BitOf(m[|m| - 1 - e / 8], 7 - e % 8)
  }

  function Message(m: Bytes): Poly {
    set e: nat | e < 8 * |m| && MessageBit(m, e)
  }

  /** Bits shifted out first belong to the highest powers. */
  predicate Coefficient(s: u32, e: nat) {
    e < 32 && BitOf(s, 31 - e)
  }

  function Register(s: u32): Poly {
    set e: nat | e < 32 && Coefficient(s, e)
  }

  /** The message before 32 zero bits, its first 32 bits complemented. A message of fewer bits is complemented
      into the zeros. */
  function Dividend(m: Bytes): Poly {
    Add(Times(Message(m), 32), Times(ONES, 8 * |m|))
  }

  // -------- Arithmetic of sets --------

  lemma Sum(a: Poly, b: Poly, e: nat)
    ensures e in Add(a, b) <==> (e in a) != (e in b)
  {
  }

  lemma InTimes(a: Poly, k: nat, e: nat)
    ensures e in Times(a, k) <==> e >= k && e - k in a
  {
    if e >= k && e - k in a {
      assert e - k + k == e;
    }
  }

  lemma TimesAgain(a: Poly, j: nat, k: nat)
    ensures Times(Times(a, j), k) == Times(a, j + k)
  {
    hide Times;
    forall e: nat ensures e in Times(Times(a, j), k) <==> e in Times(a, j + k) {
      InTimes(Times(a, j), k, e);
      InTimes(a, j + k, e);
      if e >= k {
        InTimes(a, j, e - k);
      }
    }
  }

  lemma TimesSum(a: Poly, b: Poly, k: nat)
    ensures Times(Add(a, b), k) == Add(Times(a, k), Times(b, k))
  {
    hide Times, Add;
    forall e: nat ensures e in Times(Add(a, b), k) <==> e in Add(Times(a, k), Times(b, k)) {
      InTimes(Add(a, b), k, e);
      InTimes(a, k, e);
      InTimes(b, k, e);
      Sum(Times(a, k), Times(b, k), e);
      if e >= k {
        Sum(a, b, e - k);
      }
    }
  }

  lemma SumsCommute(a: Poly, b: Poly, c: Poly)
    ensures Add(a, b) == Add(b, a)
    ensures Add(Add(a, b), c) == Add(a, Add(b, c))
    ensures Add(a, {}) == a && Add(a, a) == {}
  {
  }

  lemma {:induction false} MultiplesAdd(js: seq<nat>, ks: seq<nat>)
    ensures Multiple(js + ks) == Add(Multiple(js), Multiple(ks))
    decreases |ks|
  {
    hide Add, Times;
    if ks == [] {
      assert js + ks == js;
      SumsCommute(Multiple(js), {}, {});
    } else {
      var front, k := ks[..|ks| - 1], ks[|ks| - 1];
      MultiplesAdd(js, front);
      assert (js + ks)[..|js + ks| - 1] == js + front;
      SumsCommute(Multiple(js), Multiple(front), Times(GENERATOR, k));
    }
  }

  function Shifted(ks: seq<nat>, k: nat): (r: seq<nat>)
    ensures |r| == |ks|
  {
    seq(|ks|, i requires 0 <= i < |ks| => ks[i] + k)
  }

  lemma {:induction false} MultipleShifts(ks: seq<nat>, k: nat)
    ensures Multiple(Shifted(ks, k)) == Times(Multiple(ks), k)
    decreases |ks|
  {
    hide Add, Times;
    if ks == [] {
      NothingShifts(k);
    } else {
      var front, last := ks[..|ks| - 1], ks[|ks| - 1];
      MultipleShifts(front, k);
      assert Shifted(ks, k)[..|ks| - 1] == Shifted(front, k);
      TimesSum(Multiple(front), Times(GENERATOR, last), k);
      TimesAgain(GENERATOR, last, k);
    }
  }

  lemma NothingShifts(k: nat)
    ensures Times({}, k) == {}
  {
  }

  lemma OneMultiple(k: nat)
    ensures Multiple([k]) == Times(GENERATOR, k)
  {
    hide Add, Times;
    assert [k][..0] == [];
    SumsCommute(Times(GENERATOR, k), {}, {});
    SumsCommute({}, Times(GENERATOR, k), {});
  }

  // -------- A remainder is the only one --------

  predicate Below(ks: seq<nat>, k: nat) {
    forall i :: 0 <= i < |ks| ==> ks[i] < k
  }

  /** The top power taken out of a quotient: it was there an even or an odd number of times. */
  lemma {:induction false} WithoutTop(ks: seq<nat>, k: nat) returns (rest: seq<nat>)
    requires Below(ks, k + 1)
    ensures Below(rest, k)
    ensures Multiple(ks) == Multiple(rest) || Multiple(ks) == Add(Multiple(rest), Times(GENERATOR, k))
    decreases |ks|
  {
    hide Add, Times;
    if ks == [] {
      rest := [];
    } else {
      var front, last := ks[..|ks| - 1], ks[|ks| - 1];
      var r := WithoutTop(front, k);
      var g := Times(GENERATOR, k);
      if last == k {
        rest := r;
        SumsCommute(Multiple(r), g, g);
        SumsCommute(Multiple(r), {}, {});
        SumsCommute(g, g, g);
      } else {
        rest := r + [last];
        assert rest[..|r|] == r;
        SumsCommute(Multiple(r), g, Times(GENERATOR, last));
        SumsCommute(g, Times(GENERATOR, last), {});
        SumsCommute(Multiple(r), Times(GENERATOR, last), g);
      }
    }
  }

  lemma {:induction false} MultipleBelow(ks: seq<nat>, k: nat)
    requires Below(ks, k)
    ensures forall e :: e in Multiple(ks) ==> e < k + 32
    decreases |ks|
  {
    if ks != [] {
      MultipleBelow(ks[..|ks| - 1], k);
    }
  }

  /** No multiple of the generator but zero has a degree below the generator's. */
  lemma {:induction false} SmallMultipleIsZero(ks: seq<nat>, k: nat)
    requires Below(ks, k)
    requires forall e :: e in Multiple(ks) ==> e < 32
    ensures Multiple(ks) == {}
    decreases k
  {
    hide Add, Times;
    if k > 0 {
      var rest := WithoutTop(ks, k - 1);
      MultipleBelow(rest, k - 1);
      InTimes(GENERATOR, k - 1, k + 31);
      Sum(Multiple(rest), Times(GENERATOR, k - 1), k + 31);
      SmallMultipleIsZero(rest, k - 1);
    }
  }

  lemma {:induction false} Bound(ks: seq<nat>) returns (k: nat)
    ensures Below(ks, k)
  {
    k := 0;
    if ks != [] {
      k := Bound(ks[..|ks| - 1]);
      k := k + ks[|ks| - 1] + 1;
    }
  }

  lemma SumOfDividends(j: Poly, k: Poly, r: Poly, s: Poly)
    requires Add(j, r) == Add(k, s)
    ensures Add(j, k) == Add(r, s)
  {
    hide Add;
    forall e ensures e in Add(j, k) <==> e in Add(r, s) {
      Sum(j, r, e);
      Sum(k, s, e);
      Sum(j, k, e);
      Sum(r, s, e);
    }
  }

  lemma RemainderIsUnique(r: Poly, s: Poly, p: Poly)
    requires IsRemainder(r, p) && IsRemainder(s, p)
    ensures r == s
  {
    hide Add, Multiple;
    var js :| p == Add(Multiple(js), r);
    var ks :| p == Add(Multiple(ks), s);
    MultiplesAdd(js, ks);
    SumOfDividends(Multiple(js), Multiple(ks), r, s);
    var k := Bound(js + ks);
    forall e | e in Multiple(js + ks) ensures e < 32 {
      Sum(r, s, e);
    }
    SmallMultipleIsZero(js + ks, k);
    forall e ensures e in r <==> e in s {
      Sum(r, s, e);
    }
  }

  // -------- Bits --------

  lemma {:induction false} BitOfXor(a: nat, b: nat, i: nat)
    ensures BitOf(Xor(a, b), i) <==> BitOf(a, i) != BitOf(b, i)
    decreases i
  {
    hide Xor;
    XorHalves(a, b);
    ParityOfSum(a, b);
    if i > 0 {
      BitOfXor(a / 2, b / 2, i - 1);
    }
  }

  lemma {:induction false} HighBitClear(v: nat, i: nat)
    requires v < Pow2(i)
    ensures !BitOf(v, i)
    decreases i
  {
    if i > 0 {
      HighBitClear(v / 2, i - 1);
    }
  }

  lemma {:induction false} BitsDetermine(u: nat, v: nat, n: nat)
    requires u < Pow2(n) && v < Pow2(n) && forall i: nat :: i < n ==> BitOf(u, i) == BitOf(v, i)
    ensures u == v
    decreases n
  {
    if n > 0 {
      assert BitOf(u, 0) == BitOf(v, 0);
      forall i: nat | i < n - 1 ensures BitOf(u / 2, i) == BitOf(v / 2, i) {
        assert BitOf(u, i + 1) == BitOf(v, i + 1);
      }
      BitsDetermine(u / 2, v / 2, n - 1);
      HalvesDetermine(u, v);
    }
  }

  // -------- The constant --------

  /** The bits of v, given its last hexadecimal digit bit by bit and what stands before it. */
  lemma DigitBits(v: nat, h: nat, d3: nat, d2: nat, d1: nat, d0: nat, i: nat)
    requires v == 16 * h + 8 * d3 + 4 * d2 + 2 * d1 + d0 && d3 <= 1 && d2 <= 1 && d1 <= 1 && d0 <= 1
    ensures BitOf(v, i) ==
      if i == 0 then d0 == 1 else if i == 1 then d1 == 1 else if i == 2 then d2 == 1 else if i == 3 then d3 == 1
      else BitOf(h, i - 4)
  {
    var u := 8 * h + 4 * d3 + 2 * d2 + d1;
    var w := 4 * h + 2 * d3 + d2;
    var y := 2 * h + d3;
    assert v / 2 == u && v % 2 == d0 && u / 2 == w && u % 2 == d1;
    assert w / 2 == y && w % 2 == d2 && y / 2 == h && y % 2 == d3;
    if i > 0 {
      assert BitOf(v, i) == BitOf(u, i - 1);
      if i > 1 {
        assert BitOf(u, i - 1) == BitOf(w, i - 2);
        if i > 2 {
          assert BitOf(w, i - 2) == BitOf(y, i - 3);
        }
      }
    }
  }

  /** The reflected constant has the generator's coefficients below degree 32. */
  lemma ConstantIsGenerator(e: nat)
    requires e < 32
    ensures Coefficient(POLYNOMIAL, e) <==> e in GENERATOR
  {
    hide BitOf;
    DigitBits(0xEDB88320, 0xEDB8832, 0, 0, 0, 0, 31 - e);
    if e < 28 {
      DigitBits(0xEDB8832, 0xEDB883, 0, 0, 1, 0, 27 - e);
      if e < 24 {
        DigitBits(0xEDB883, 0xEDB88, 0, 0, 1, 1, 23 - e);
        if e < 20 {
          DigitBits(0xEDB88, 0xEDB8, 1, 0, 0, 0, 19 - e);
          if e < 16 {
            HighCoefficients(e);
          }
        }
      }
    }
  }

  lemma HighCoefficients(e: nat)
    requires e < 16
    ensures BitOf(0xEDB8, 15 - e) <==> e in GENERATOR
  {
    hide BitOf;
    DigitBits(0xEDB8, 0xEDB, 1, 0, 0, 0, 15 - e);
    if e < 12 {
      DigitBits(0xEDB, 0xED, 1, 0, 1, 1, 11 - e);
      if e < 8 {
        DigitBits(0xED, 0xE, 1, 1, 0, 1, 7 - e);
        if e < 4 {
          DigitBits(0xE, 0x0, 1, 1, 1, 0, 3 - e);
        }
      }
    }
  }

  // -------- The register --------

  lemma InRegister(s: u32, e: nat)
    ensures e in Register(s) <==> Coefficient(s, e)
  {
  }

  lemma RegisterOfXor(a: u32, b: u32)
    ensures Register(Xor32(a, b)) == Add(Register(a), Register(b))
  {
    hide BitOf, Xor;
    forall e: nat ensures e in Register(Xor32(a, b)) <==> e in Add(Register(a), Register(b)) {
      if e < 32 {
        BitOfXor(a, b, 31 - e);
      }
    }
  }

  /** A shift of the register multiplies by x and reduces by the generator. */
  lemma BitIsTimesX(c: u32)
    ensures Register(Bit(c)) == Add(Times(Register(c), 1), if c % 2 == 1 then GENERATOR else {})
  {
    hide Add, Times, Register, Xor, Pow2;
    PowersUsed();
    var g: Poly := if c % 2 == 1 then GENERATOR else {};
    forall e: nat ensures e in Register(Bit(c)) <==> e in Add(Times(Register(c), 1), g) {
      InRegister(Bit(c), e);
      Sum(Times(Register(c), 1), g, e);
      InTimes(Register(c), 1, e);
      if e >= 1 {
        InRegister(c, e - 1);
      }
      if e < 32 {
        BitOfXor(POLYNOMIAL, c / 2, 31 - e);
        ConstantIsGenerator(e);
        HighBitClear(c, 32);
        assert BitOf(c / 2, 31 - e) == BitOf(c, 32 - e);
      }
    }
  }

  /** n shifts multiply by the n-th power of x, up to a multiple of the generator. */
  lemma {:induction false} BitsAreTimes(c: u32, n: nat) returns (ks: seq<nat>)
    ensures Register(Bits(c, n)) == Add(Times(Register(c), n), Multiple(ks))
    decreases n
  {
    hide Add, Times, Register, Bit;
    var r := Register(c);
    if n == 0 {
      ks := [];
      TimesZero(r);
      SumsCommute(r, {}, {});
    } else {
      var rest := BitsAreTimes(Bit(c), n - 1);
      BitIsTimesX(c);
      var g: Poly := if c % 2 == 1 then GENERATOR else {};
      TimesSum(Times(r, 1), g, n - 1);
      TimesAgain(r, 1, n - 1);
      SumsCommute(Times(r, n), Times(g, n - 1), Multiple(rest));
      if c % 2 == 1 {
        ks := [n - 1] + rest;
        OneMultiple(n - 1);
        MultiplesAdd([n - 1], rest);
      } else {
        ks := rest;
        NothingShifts(n - 1);
        SumsCommute(Times(r, n), {}, {});
      }
    }
  }

  lemma TimesZero(a: Poly)
    ensures Times(a, 0) == a
  {
    hide Times;
    forall e: nat ensures e in Times(a, 0) <==> e in a {
      InTimes(a, 0, e);
    }
  }

  /** A byte stands at the top of the register, its lowest bit first. */
  lemma ByteInRegister(b: u8)
    ensures Times(Register(b), 8) == Times(Message([b]), 32)
  {
    hide Times, Register, Message, Pow2, BitOf;
    PowersUsed();
    forall e: nat ensures e in Times(Register(b), 8) <==> e in Times(Message([b]), 32) {
      InTimes(Register(b), 8, e);
      InTimes(Message([b]), 32, e);
      if e >= 8 {
        InRegister(b, e - 8);
        if e < 32 {
          ByteBitsClear(b, 39 - e);
        } else {
          InMessage([b], e - 32);
        }
      }
    }
  }

  lemma InMessage(m: Bytes, e: nat)
    ensures e in Message(m) <==> MessageBit(m, e)
  {
  }

  lemma {:induction false} ByteBitsClear(b: u8, i: nat)
    requires i >= 8
    ensures !BitOf(b, i)
    decreases i
  {
    PowersUsed();
    if i == 8 {
      HighBitClear(b, 8);
    } else {
      PowerGrows(i);
      HighBitClear(b, i);
    }
  }

  lemma {:induction false} PowerGrows(i: nat)
    requires i >= 8
    ensures Pow2(i) >= 256
    decreases i
  {
    PowersUsed();
    if i > 8 {
      PowerGrows(i - 1);
    }
  }

  lemma ByteStepRegister(s: u32, b: u8) returns (ks: seq<nat>)
    ensures Register(ByteStep(s, b))
         == Add(Add(Times(Register(s), 8), Times(Message([b]), 32)), Multiple(ks))
  {
    hide Add, Times, Register, Message, Bits, Multiple, Xor;
    ks := BitsAreTimes(Xor32(s, b), 8);
    RegisterOfXor(s, b);
    TimesSum(Register(s), Register(b), 8);
    ByteInRegister(b);
  }

  /** The first byte stands above the others. */
  lemma MessageFront(m: Bytes)
    requires m != []
    ensures Message(m) == Add(Times(Message([m[0]]), 8 * (|m| - 1)), Message(m[1..]))
  {
    hide Add, Times, Message, BitOf;
    var k := 8 * (|m| - 1);
    forall e: nat ensures e in Message(m) <==> e in Add(Times(Message([m[0]]), k), Message(m[1..])) {
      InMessage(m, e);
      Sum(Times(Message([m[0]]), k), Message(m[1..]), e);
      InTimes(Message([m[0]]), k, e);
      InMessage(m[1..], e);
      if e >= k {
        InMessage([m[0]], e - k);
        if e < 8 * |m| {
          TopByte(|m| - 1, e);
        }
      } else {
        assert m[1..][|m| - 2 - e / 8] == m[|m| - 1 - e / 8];
      }
    }
  }

  lemma TopByte(n: nat, e: nat)
    requires 8 * n <= e < 8 * n + 8
    ensures e / 8 == n && e % 8 == e - 8 * n
  {
  }

  /** A sum of sums with the parts regrouped. */
  lemma Regrouped(a: Poly, b: Poly, c: Poly, d: Poly, e: Poly)
    ensures Add(Add(Add(Add(a, b), c), d), e) == Add(Add(a, Add(b, d)), Add(c, e))
  {
    hide Add;
    forall x: nat ensures x in Add(Add(Add(Add(a, b), c), d), e) <==> x in Add(Add(a, Add(b, d)), Add(c, e)) {
      Sum(Add(Add(Add(a, b), c), d), e, x);
      Sum(Add(Add(a, b), c), d, x);
      Sum(Add(a, b), c, x);
      Sum(a, b, x);
      Sum(Add(a, Add(b, d)), Add(c, e), x);
      Sum(a, Add(b, d), x);
      Sum(b, d, x);
      Sum(c, e, x);
    }
  }

  /** Feeding a message divides it. */
  lemma {:induction false} FeedDivides(s: u32, m: Bytes) returns (ks: seq<nat>)
    ensures Register(Feed(s, m))
         == Add(Add(Times(Register(s), 8 * |m|), Times(Message(m), 32)), Multiple(ks))
    decreases |m|
  {
    hide Add, Times, Register, Message, ByteStep, Multiple;
    if m == [] {
      ks := FeedNothing(s);
    } else {
      var b, k := m[0], 8 * (|m| - 1);
      var rest := FeedDivides(ByteStep(s, b), m[1..]);
      var step := ByteStepRegister(s, b);
      var first := Add(Times(Register(s), 8), Times(Message([b]), 32));
      TimesSum(first, Multiple(step), k);
      TimesSum(Times(Register(s), 8), Times(Message([b]), 32), k);
      TimesAgain(Register(s), 8, k);
      TimesAgain(Message([b]), 32, k);
      TimesAgain(Message([b]), k, 32);
      MultipleShifts(step, k);
      MessageFront(m);
      TimesSum(Times(Message([b]), k), Message(m[1..]), 32);
      ks := Shifted(step, k) + rest;
      MultiplesAdd(Shifted(step, k), rest);
      Regrouped(Times(Register(s), 8 + k), Times(Message([b]), 32 + k), Multiple(Shifted(step, k)),
                Times(Message(m[1..]), 32), Multiple(rest));
    }
  }

  lemma FeedNothing(s: u32) returns (ks: seq<nat>)
    ensures Register(s) == Add(Add(Times(Register(s), 0), Times(Message([]), 32)), Multiple(ks))
  {
    hide Add, Register;
    ks := [];
    TimesZero(Register(s));
    assert Message([]) == {};
    NothingShifts(32);
    SumsCommute(Register(s), {}, {});
  }

  /** Taking a number from all ones complements its bits. */
  lemma {:induction false} ComplementBits(v: nat, n: nat, i: nat)
    requires v < Pow2(n) && i < n
    ensures BitOf(Pow2(n) - 1 - v, i) <==> !BitOf(v, i)
    decreases n
  {
    if i > 0 {
      assert (Pow2(n) - 1 - v) / 2 == Pow2(n - 1) - 1 - v / 2;
      ComplementBits(v / 2, n - 1, i - 1);
    }
  }

  lemma {:induction false} ZeroBits(i: nat)
    ensures !BitOf(0, i)
    decreases i
  {
    if i > 0 {
      ZeroBits(i - 1);
    }
  }

  lemma RegisterOfOnes()
    ensures Register(0xFFFF_FFFF) == ONES
  {
    hide BitOf;
    PowersUsed();
    forall e: nat ensures e in Register(0xFFFF_FFFF) <==> e in ONES {
      if e < 32 {
        ComplementBits(0, 32, 31 - e);
        ZeroBits(31 - e);
      }
    }
  }

  lemma RegisterDetermines(u: u32, v: u32)
    requires Register(u) == Register(v)
    ensures u == v
  {
    hide BitOf;
    PowersUsed();
    forall i: nat | i < 32 ensures BitOf(u, i) == BitOf(v, i) {
      InRegister(u, 31 - i);
      InRegister(v, 31 - i);
    }
    BitsDetermine(u, v, 32);
  }

  lemma Complemented(s: u32)
    ensures Add(Register(Xor32(s, 0xFFFF_FFFF)), ONES) == Register(s)
  {
    hide Add, Register, Xor;
    RegisterOfXor(s, 0xFFFF_FFFF);
    RegisterOfOnes();
    SumsCommute(Register(s), ONES, ONES);
    SumsCommute(ONES, ONES, ONES);
    SumsCommute(Register(s), {}, {});
  }

  lemma SumMoved(p: Poly, q: Poly, r: Poly)
    requires r == Add(p, q)
    ensures p == Add(q, r)
  {
  }

  lemma RegisterSmall(s: u32)
    ensures forall e :: e in Register(s) ==> e < 32
  {
  }

  /** The register after a message is the remainder. */
  lemma FedRemainder(m: Bytes)
    ensures IsRemainder(Register(Feed(0xFFFF_FFFF, m)), Dividend(m))
  {
    hide Add, Times, Register, Message, Multiple, Feed, ONES;
    var ks := FeedDivides(0xFFFF_FFFF, m);
    RegisterOfOnes();
    SumsCommute(Times(ONES, 8 * |m|), Times(Message(m), 32), {});
    SumMoved(Dividend(m), Multiple(ks), Register(Feed(0xFFFF_FFFF, m)));
    RegisterSmall(Feed(0xFFFF_FFFF, m));
  }

  /** The message with its first 32 bits complemented. */
  function FirstComplemented(m: Bytes): Bytes
    requires |m| >= 4
  {
    [255 - m[0], 255 - m[1], 255 - m[2], 255 - m[3]] + m[4..]
  }

  lemma ComplementedBit(m: Bytes, e: nat)
    requires |m| >= 4 && e < 8 * |m|
    ensures MessageBit(FirstComplemented(m), e) <==> MessageBit(m, e) != (e >= 8 * |m| - 32)
  {
    hide BitOf;
    PowersUsed();
    var j := |m| - 1 - e / 8;
    assert j < 4 <==> e >= 8 * |m| - 32;
    if j < 4 {
      assert FirstComplemented(m)[j] == 255 - m[j];
      ComplementBits(m[j], 8, 7 - e % 8);
    } else {
      assert FirstComplemented(m)[j] == m[j];
    }
  }

  /** What is divided is the message so complemented, times the 32nd power of x. */
  lemma DividendMeaning(m: Bytes)
    requires |m| >= 4
    ensures Dividend(m) == Times(Message(FirstComplemented(m)), 32)
  {
    hide Add, Times, Message, MessageBit, FirstComplemented;
    var c := FirstComplemented(m);
    assert |c| == |m| by { ComplementedSize(m); }
    forall e: nat ensures e in Dividend(m) <==> e in Times(Message(c), 32) {
      Sum(Times(Message(m), 32), Times(ONES, 8 * |m|), e);
      InTimes(Message(m), 32, e);
      InTimes(ONES, 8 * |m|, e);
      InTimes(Message(c), 32, e);
      if e >= 32 {
        InMessage(m, e - 32);
        InMessage(c, e - 32);
        if e - 32 < 8 * |m| {
          ComplementedBit(m, e - 32);
        } else {
          BeyondMessage(m, e - 32);
          BeyondMessage(c, e - 32);
        }
      }
    }
  }

  lemma ComplementedSize(m: Bytes)
    requires |m| >= 4
    ensures |FirstComplemented(m)| == |m|
  {
  }

  lemma BeyondMessage(m: Bytes, e: nat)
    requires e >= 8 * |m|
    ensures !MessageBit(m, e)
  {
  }

  /** The checksum of a message is the one number whose complement is the remainder. */
  lemma CrcIsRemainder(m: Bytes, v: u32)
    ensures v == Crc32(m) <==> IsRemainder(Add(Register(v), ONES), Dividend(m))
    ensures |m| >= 4 ==> Dividend(m) == Times(Message(FirstComplemented(m)), 32)
  {
    hide Add, Register, Dividend, Feed, IsRemainder, Xor, ONES;
    FedRemainder(m);
    if |m| >= 4 {
      DividendMeaning(m);
    }
    Complemented(Feed(0xFFFF_FFFF, m));
    if IsRemainder(Add(Register(v), ONES), Dividend(m)) {
      RemainderIsUnique(Add(Register(v), ONES), Add(Register(Crc32(m)), ONES), Dividend(m));
      SumsCommute(Register(v), ONES, ONES);
      SumsCommute(Register(Crc32(m)), ONES, ONES);
      SumsCommute(ONES, ONES, ONES);
      SumsCommute(Register(v), {}, {});
      SumsCommute(Register(Crc32(m)), {}, {});
      RegisterDetermines(v, Crc32(m));
    }
  }
}
