/**
 The two CRC-16 loops of the gateway: CRC-16/ARC for Teltonika data and
 CRC-16/X-25 for GT06. Both are reflected 16-bit CRCs that differ only in
 polynomial, initial value and final inversion, so one update step serves both.
 */
module Crc {
  import opened Bytes

  const POLY_ARC: bv16 := 0xA001
  const POLY_X25: bv16 := 0x8408

  function Xor(a: bv16, b: bv16): bv16 {
    a ^ b
  }

  predicate Odd(crc: bv16) {
    crc & 1 == 1
  }

  /** A degree-16 reflected polynomial: its top bit is set. */
  predicate Monic(poly: bv16) {
    poly & 0x8000 == 0x8000
  }

  /** One turn of the inner `for _ in range(8)` loop. */
  function Shift(poly: bv16, crc: bv16): bv16 {
    if Odd(crc) then Xor(crc >> 1, poly) else crc >> 1
  }

  function Shifts(poly: bv16, crc: bv16, n: nat): bv16 {
    if n == 0 then crc else Shift(poly, Shifts(poly, crc, n - 1))
  }

  /** The whole inner loop, spelled out so that it can be bit-blasted. */
  function Shift8(poly: bv16, crc: bv16): bv16 {
    var c1 := Shift(poly, crc);
    var c2 := Shift(poly, c1);
    var c3 := Shift(poly, c2);
    var c4 := Shift(poly, c3);
    var c5 := Shift(poly, c4);
    var c6 := Shift(poly, c5);
    var c7 := Shift(poly, c6);
    Shift(poly, c7)
  }

  function Halved(b: byte, n: nat): byte {
    if n == 0 then b else Halved(b, n - 1) / 2
  }

  predicate Bit(b: byte, n: nat) {
    Halved(b, n) % 2 == 1
  }

  function Flag(on: bool, mask: bv16): bv16 {
    if on then mask else 0
  }

  function Word(b7: bool, b6: bool, b5: bool, b4: bool, b3: bool, b2: bool, b1: bool, b0: bool): bv16 {
    Flag(b7, 0x80) | Flag(b6, 0x40) | Flag(b5, 0x20) | Flag(b4, 0x10) |
    Flag(b3, 0x08) | Flag(b2, 0x04) | Flag(b1, 0x02) | Flag(b0, 0x01)
  }

  /** A byte as the low eight bits of the register. */
  function Bits(b: byte): bv16 {
    Word(Bit(b, 7), Bit(b, 6), Bit(b, 5), Bit(b, 4), Bit(b, 3), Bit(b, 2), Bit(b, 1), Bit(b, 0))
  }

  function Update(poly: bv16, crc: bv16, b: byte): bv16 {
    Shift8(poly, Xor(crc, Bits(b)))
  }

  function Fold(poly: bv16, crc: bv16, data: Bytes): bv16
    decreases |data|
  {
    if data == [] then crc else Fold(poly, Update(poly, crc, data[0]), data[1..])
  }

  /** The checksum the Teltonika parser compares against. */
  function Arc(data: Bytes): (v: nat)
    ensures v < 0x1_0000
  {
    Value(Fold(POLY_ARC, 0, data))
  }

  /** The checksum the GT06 builders append. */
  function X25(data: Bytes): (v: nat)
    ensures v < 0x1_0000
  {
    Value(Xor(Fold(POLY_X25, 0xFFFF, data), 0xFFFF))
  }

  function Value(crc: bv16): (v: nat)
    ensures v < 0x1_0000
  {
    crc as int
  }

  // ------------------------------------------------------------------
  // The loops
  // ------------------------------------------------------------------

  method Crc16Ibm(data: Bytes) returns (crc: nat)
    ensures crc == Arc(data)
  {
    hide Bits, Shift, Shift8, Value;
    var c: bv16 := 0;
    for i := 0 to |data|
      invariant Fold(POLY_ARC, c, data[i..]) == Fold(POLY_ARC, 0, data)
    {
      assert data[i..][1..] == data[i + 1..];
      c := EightTurns(POLY_ARC, Xor(c, Bits(data[i])));
    }
    crc := Value(c);
  }

  method Crc16X25(data: Bytes) returns (crc: nat)
    ensures crc == X25(data)
  {
    hide Bits, Shift, Shift8, Value;
    var c: bv16 := 0xFFFF;
    for i := 0 to |data|
      invariant Fold(POLY_X25, c, data[i..]) == Fold(POLY_X25, 0xFFFF, data)
    {
      assert data[i..][1..] == data[i + 1..];
      c := EightTurns(POLY_X25, Xor(c, Bits(data[i])));
    }
    crc := Value(Xor(c, 0xFFFF));
  }

  /** The inner loop both checksums share. */
  method EightTurns(poly: bv16, start: bv16) returns (c: bv16)
    ensures c == Shift8(poly, start)
  {
    hide Shift, Shift8;
    c := start;
    for j := 0 to 8
      invariant c == Shifts(poly, start, j)
    {
      c := Shift(poly, c);
    }
    EightShifts(poly, start);
  }

  lemma EightShifts(poly: bv16, crc: bv16)
    ensures Shifts(poly, crc, 8) == Shift8(poly, crc)
  {
    hide Shift;
    var c1 := Shifts(poly, crc, 1);
    var c2 := Shifts(poly, crc, 2);
    var c3 := Shifts(poly, crc, 3);
    var c4 := Shifts(poly, crc, 4);
    var c5 := Shifts(poly, crc, 5);
    var c6 := Shifts(poly, crc, 6);
    var c7 := Shifts(poly, crc, 7);
    assert c1 == Shift(poly, crc) by { assert Shifts(poly, crc, 0) == crc; }
    assert c2 == Shift(poly, c1) && c3 == Shift(poly, c2) && c4 == Shift(poly, c3);
    assert c5 == Shift(poly, c4) && c6 == Shift(poly, c5) && c7 == Shift(poly, c6);
  }

  // ------------------------------------------------------------------
  // The step is a linear bijection
  // ------------------------------------------------------------------

  lemma XorAssociates(u: bv16, v: bv16, w: bv16)
    ensures Xor(Xor(u, v), w) == Xor(u, Xor(v, w))
  {}

  lemma XorCommutes(u: bv16, v: bv16)
    ensures Xor(u, v) == Xor(v, u)
  {}

  lemma XorSelf(u: bv16)
    ensures Xor(u, u) == 0
  {}

  lemma XorNothing(u: bv16)
    ensures Xor(u, 0) == u && Xor(0, u) == u
  {}

  lemma XorZero(u: bv16, v: bv16)
    ensures Xor(u, v) == 0 <==> u == v
  {
    hide Xor;
    XorSelf(v);
    XorAssociates(u, v, v);
    XorNothing(u);
    XorNothing(v);
  }

  lemma XorCancel(u: bv16, v: bv16, p: bv16)
    ensures Xor(Xor(u, p), Xor(v, p)) == Xor(u, v)
  {
    hide Xor;
    XorCommutes(v, p);
    XorAssociates(Xor(u, p), p, v);
    XorAssociates(u, p, p);
    XorZero(p, p);
    XorNothing(u);
  }

  lemma HalfOfXor(a: bv16, b: bv16)
    ensures Xor(a, b) >> 1 == Xor(a >> 1, b >> 1)
  {}

  lemma OddXor(a: bv16, b: bv16)
    ensures Odd(Xor(a, b)) <==> Odd(a) != Odd(b)
  {}

  lemma ShiftLinear(poly: bv16, a: bv16, b: bv16)
    ensures Shift(poly, Xor(a, b)) == Xor(Shift(poly, a), Shift(poly, b))
  {
    hide Xor, Odd;
    HalfOfXor(a, b);
    OddXor(a, b);
    var u, v := a >> 1, b >> 1;
    XorAssociates(u, v, poly);
    XorAssociates(u, poly, v);
    XorCommutes(poly, v);
    XorCancel(u, v, poly);
  }

  lemma {:induction false} ShiftsLinear(poly: bv16, a: bv16, b: bv16, n: nat)
    ensures Shifts(poly, Xor(a, b), n) == Xor(Shifts(poly, a, n), Shifts(poly, b, n))
  {
    hide Xor, Shift;
    if n > 0 {
      ShiftsLinear(poly, a, b, n - 1);
      ShiftLinear(poly, Shifts(poly, a, n - 1), Shifts(poly, b, n - 1));
    }
  }

  /** The inverse of one shift: the top bit tells whether the polynomial was mixed in. */
  function Unshift(poly: bv16, crc: bv16): bv16 {
    if crc & 0x8000 == 0x8000 then (Xor(crc, poly) << 1) | 1 else crc << 1
  }

  lemma UnshiftAfterShift(poly: bv16, crc: bv16)
    requires Monic(poly)
    ensures Unshift(poly, Shift(poly, crc)) == crc
  {}

  lemma ShiftAfterUnshift(poly: bv16, crc: bv16)
    requires Monic(poly)
    ensures Shift(poly, Unshift(poly, crc)) == crc
  {
    hide Xor;
    if crc & 0x8000 == 0x8000 {
      TopBitsCancel(poly, crc);
      OddHalf(Xor(crc, poly));
      XorAssociates(crc, poly, poly);
      XorZero(poly, poly);
      XorNothing(crc);
    } else {
      EvenHalf(crc);
    }
  }

  lemma TopBitsCancel(poly: bv16, crc: bv16)
    requires Monic(poly) && crc & 0x8000 == 0x8000
    ensures Xor(crc, poly) & 0x8000 == 0
  {}

  lemma OddHalf(x: bv16)
    requires x & 0x8000 == 0
    ensures Odd((x << 1) | 1) && ((x << 1) | 1) >> 1 == x
  {}

  lemma EvenHalf(x: bv16)
    requires x & 0x8000 != 0x8000
    ensures !Odd(x << 1) && (x << 1) >> 1 == x
  {}

  lemma {:induction false} ShiftsInjective(poly: bv16, a: bv16, b: bv16, n: nat)
    requires Monic(poly)
    requires Shifts(poly, a, n) == Shifts(poly, b, n)
    ensures a == b
  {
    hide Shift, Unshift, Monic;
    if n > 0 {
      UnshiftAfterShift(poly, Shifts(poly, a, n - 1));
      UnshiftAfterShift(poly, Shifts(poly, b, n - 1));
      ShiftsInjective(poly, a, b, n - 1);
    }
  }

  /** One byte's worth of shifts is linear over XOR and loses nothing. */
  lemma Shift8LinearInjective(poly: bv16, a: bv16, b: bv16)
    requires Monic(poly)
    ensures Shift8(poly, Xor(a, b)) == Xor(Shift8(poly, a), Shift8(poly, b))
    ensures Shift8(poly, a) == Shift8(poly, b) <==> a == b
  {
    hide Xor, Shift, Shift8, Monic;
    EightShifts(poly, a);
    EightShifts(poly, b);
    EightShifts(poly, Xor(a, b));
    ShiftsLinear(poly, a, b, 8);
    if Shift8(poly, a) == Shift8(poly, b) {
      ShiftsInjective(poly, a, b, 8);
    }
  }

  lemma SplitBytes(c: bv16)
    ensures Xor(c & 0xFF00, c & 0x00FF) == c
  {}

  lemma HighByteFallsThrough(poly: bv16, c: bv16)
    ensures Shift8(poly, c & 0xFF00) == c >> 8
  {}

  /** The eight shifts equal the table-driven form of RFC 1662, appendix C.2. */
  lemma TableForm(poly: bv16, c: bv16)
    requires Monic(poly)
    ensures Shift8(poly, c) == Xor(c >> 8, Shift8(poly, c & 0x00FF))
  {
    hide Xor, Shift8, Monic;
    SplitBytes(c);
    HighByteFallsThrough(poly, c);
    Shift8LinearInjective(poly, c & 0xFF00, c & 0x00FF);
  }

  // ------------------------------------------------------------------
  // Error detection
  // ------------------------------------------------------------------

  predicate LowByte(x: bv16) {
    x < 0x100
  }

  /** A table entry other than the first always reaches the high byte. */
  lemma LowByteSpreads(poly: bv16, d: bv16)
    requires Monic(poly)
    requires LowByte(d) && LowByte(Shift8(poly, d))
    ensures d == 0
  {}

  lemma Shift8OfZero(poly: bv16)
    ensures Shift8(poly, 0) == 0
  {}

  lemma BitsLow(b: byte)
    ensures LowByte(Bits(b))
  {
    hide Bit;
  }

  function Weight(on: bool, w: nat): nat {
    if on then w else 0
  }

  lemma HalvedStep(b: byte, n: nat, w: nat)
    ensures w * Halved(b, n) as int == 2 * w * Halved(b, n + 1) as int + Weight(Bit(b, n), w)
  {
    var h, k := Halved(b, n) as int, Halved(b, n + 1) as int;
    assert h == 2 * k + h % 2;
    assert w * h == w * (2 * k) + w * (h % 2);
  }

  lemma NotHalved(b: byte)
    ensures Halved(b, 0) == b
  {}

  lemma HalvedAway(b: byte)
    ensures Halved(b, 8) == 0
  {
    assert Halved(b, 0) == b;
    assert Halved(b, 1) < 128;
    assert Halved(b, 2) < 64;
    assert Halved(b, 3) < 32;
    assert Halved(b, 4) < 16;
    assert Halved(b, 5) < 8;
    assert Halved(b, 6) < 4;
    assert Halved(b, 7) < 2;
  }

  /** A byte is the weighted sum of its bits. */
  lemma ByteOfBits(b: byte)
    ensures b == Weight(Bit(b, 7), 0x80) + Weight(Bit(b, 6), 0x40) + Weight(Bit(b, 5), 0x20) + Weight(Bit(b, 4), 0x10)
               + Weight(Bit(b, 3), 0x08) + Weight(Bit(b, 2), 0x04) + Weight(Bit(b, 1), 0x02) + Weight(Bit(b, 0), 0x01)
  {
    hide Halved, Bit, Weight;
    NotHalved(b);
    HalvedStep(b, 0, 0x01);
    HalvedStep(b, 1, 0x02);
    HalvedStep(b, 2, 0x04);
    HalvedStep(b, 3, 0x08);
    HalvedStep(b, 4, 0x10);
    HalvedStep(b, 5, 0x20);
    HalvedStep(b, 6, 0x40);
    HalvedStep(b, 7, 0x80);
    HalvedAway(b);
  }

  lemma ValueOfWord(b7: bool, b6: bool, b5: bool, b4: bool, b3: bool, b2: bool, b1: bool, b0: bool)
    ensures Value(Word(b7, b6, b5, b4, b3, b2, b1, b0))
         == Weight(b7, 0x80) + Weight(b6, 0x40) + Weight(b5, 0x20) + Weight(b4, 0x10)
          + Weight(b3, 0x08) + Weight(b2, 0x04) + Weight(b1, 0x02) + Weight(b0, 0x01)
  {}

  /** The register's low byte holds the byte's own value. */
  lemma BitsValue(b: byte)
    ensures Value(Bits(b)) == b
  {
    hide Bit, Value, Word, Weight;
    ByteOfBits(b);
    ValueOfWord(Bit(b, 7), Bit(b, 6), Bit(b, 5), Bit(b, 4), Bit(b, 3), Bit(b, 2), Bit(b, 1), Bit(b, 0));
  }

  lemma BitsInjective(b: byte, c: byte)
    ensures Bits(b) == Bits(c) <==> b == c
  {
    hide Bits;
    BitsValue(b);
    BitsValue(c);
  }

  lemma XorLow(u: bv16, v: bv16)
    requires LowByte(u) && LowByte(v)
    ensures LowByte(Xor(u, v))
  {}

  lemma ValueInjective(a: bv16, b: bv16)
    ensures Value(a) == Value(b) <==> a == b
  {
    ValueBack(a);
    ValueBack(b);
  }

  lemma ValueBack(a: bv16)
    ensures Value(a) as bv16 == a
  {}

  lemma {:induction false} FoldConcat(poly: bv16, crc: bv16, x: Bytes, y: Bytes)
    ensures Fold(poly, crc, x + y) == Fold(poly, Fold(poly, crc, x), y)
    decreases |x|
  {
    hide Update;
    if x == [] {
      assert x + y == y;
    } else {
      assert (x + y)[1..] == x[1..] + y;
      FoldConcat(poly, Update(poly, crc, x[0]), x[1..], y);
    }
  }

  lemma UpdateInjective(poly: bv16, a: bv16, b: bv16, x: byte)
    requires Monic(poly)
    ensures Update(poly, a, x) == Update(poly, b, x) <==> a == b
  {
    hide Xor, Bits, Shift8, Monic;
    Shift8LinearInjective(poly, Xor(a, Bits(x)), Xor(b, Bits(x)));
    XorCancel(a, b, Bits(x));
    XorZero(a, b);
    XorZero(Xor(a, Bits(x)), Xor(b, Bits(x)));
  }

  lemma {:induction false} FoldInjective(poly: bv16, a: bv16, b: bv16, data: Bytes)
    requires Monic(poly)
    ensures Fold(poly, a, data) == Fold(poly, b, data) <==> a == b
    decreases |data|
  {
    hide Update, Monic;
    if data != [] {
      FoldInjective(poly, Update(poly, a, data[0]), Update(poly, b, data[0]), data[1..]);
      UpdateInjective(poly, a, b, data[0]);
    }
  }

  lemma XorShuffle(a: bv16, b: bv16, x: bv16, y: bv16)
    requires Xor(a, x) == Xor(b, y)
    ensures Xor(a, b) == Xor(x, y)
  {
    hide Xor;
    XorCancel(a, b, x);
    XorCommutes(b, y);
    XorCommutes(b, x);
    XorCancel(y, x, b);
    XorCommutes(x, y);
  }

  /** From one state, two different byte pairs lead to different states. */
  lemma PairInjective(poly: bv16, c: bv16, p: byte, q: byte, p': byte, q': byte)
    requires Monic(poly)
    requires Update(poly, Update(poly, c, p), q) == Update(poly, Update(poly, c, p'), q')
    ensures p == p' && q == q'
  {
    hide Xor, Bits, Shift8, Monic, LowByte;
    var u, v := Xor(c, Bits(p)), Xor(c, Bits(p'));
    var d, e := Xor(Bits(p), Bits(p')), Xor(Bits(q), Bits(q'));
    assert Shift8(poly, Xor(u, v)) == e by {
      Shift8LinearInjective(poly, Xor(Shift8(poly, u), Bits(q)), Xor(Shift8(poly, v), Bits(q')));
      XorShuffle(Shift8(poly, u), Shift8(poly, v), Bits(q), Bits(q'));
      Shift8LinearInjective(poly, u, v);
    }
    assert Xor(u, v) == d by {
      XorCommutes(c, Bits(p));
      XorCommutes(c, Bits(p'));
      XorCancel(Bits(p), Bits(p'), c);
    }
    assert LowByte(d) && LowByte(e) by {
      BitsLow(p); BitsLow(p'); BitsLow(q); BitsLow(q');
      XorLow(Bits(p), Bits(p'));
      XorLow(Bits(q), Bits(q'));
    }
    LowByteSpreads(poly, d);
    Shift8OfZero(poly);
    XorZero(Bits(p), Bits(p'));
    XorZero(Bits(q), Bits(q'));
    BitsInjective(p, p');
    BitsInjective(q, q');
  }

  /** `bad` differs from `good` at most at positions `k` and `k + 1`. */
  ghost predicate DiffersOnlyAt(good: Bytes, bad: Bytes, k: int) {
    && |good| == |bad|
    && forall i :: 0 <= i < |good| && i != k && i != k + 1 ==> good[i] == bad[i]
  }

  lemma SplitPair(poly: bv16, init: bv16, data: Bytes, k: nat)
    requires k + 1 < |data|
    ensures Fold(poly, init, data)
         == Fold(poly, Update(poly, Update(poly, Fold(poly, init, data[..k]), data[k]), data[k + 1]), data[k + 2..])
  {
    hide Update;
    assert data == data[..k] + data[k..];
    FoldConcat(poly, init, data[..k], data[k..]);
    assert data[k..][1..] == data[k + 1..] && data[k + 1..][1..] == data[k + 2..];
  }

  /** Any damage confined to one byte or two adjacent bytes changes the checksum register. */
  lemma DetectsAdjacentDamage(poly: bv16, init: bv16, good: Bytes, bad: Bytes, k: int)
    requires Monic(poly)
    requires DiffersOnlyAt(good, bad, k)
    requires |good| >= 2
    ensures Fold(poly, init, good) == Fold(poly, init, bad) <==> good == bad
  {
    hide Update, Monic;
    // Move the window inside the message when it hangs over either end.
    var j := if k < 0 then 0 else if k + 1 >= |good| then |good| - 2 else k;
    var c := Fold(poly, init, good[..j]);
    assert bad[..j] == good[..j] && bad[j + 2..] == good[j + 2..];
    SplitPair(poly, init, good, j);
    SplitPair(poly, init, bad, j);
    if Fold(poly, init, good) == Fold(poly, init, bad) {
      FoldInjective(poly, Update(poly, Update(poly, c, good[j]), good[j + 1]),
                    Update(poly, Update(poly, c, bad[j]), bad[j + 1]), good[j + 2..]);
      PairInjective(poly, c, good[j], good[j + 1], bad[j], bad[j + 1]);
      assert good == bad;
    }
  }

  // ------------------------------------------------------------------
  // The generator polynomials
  // ------------------------------------------------------------------

  /** The register read from the other end. */
  function Reflect(c: bv16): bv16 {
    var pairs := ((c & 0x5555) << 1) | ((c >> 1) & 0x5555);
    var nibbles := ((pairs & 0x3333) << 2) | ((pairs >> 2) & 0x3333);
    var bytes := ((nibbles & 0x0F0F) << 4) | ((nibbles >> 4) & 0x0F0F);
    (bytes << 8) | (bytes >> 8)
  }

  /** x^16 + x^15 + x^2 + 1 and x^16 + x^12 + x^5 + 1, without their leading terms. */
  const GENERATOR_ARC: bv16 := 0x8005
  const GENERATOR_X25: bv16 := 0x1021

  /**
   One step of long division: the next message bit is brought down, and the
   generator, x^16 and `g`, is subtracted if the leading term calls for it.
   */
  function DivideBit(g: bv16, r: bv16, bit: bool): bv16 {
    if (r & 0x8000 == 0x8000) != bit then Xor(r << 1, g) else r << 1
  }

  /** The remainder of the message, times x^16, by the generator, beginning with `r` in place of zero. */
  function Remainder(g: bv16, r: bv16, bits: seq<bool>): bv16
    decreases |bits|
  {
    if bits == [] then r else Remainder(g, DivideBit(g, r, bits[0]), bits[1..])
  }

  /** A byte's bits in the order the line sends them, lowest first. */
  function BitsOf(b: byte): seq<bool> {
    [Bit(b, 0), Bit(b, 1), Bit(b, 2), Bit(b, 3), Bit(b, 4), Bit(b, 5), Bit(b, 6), Bit(b, 7)]
  }

  function MessageBits(data: Bytes): seq<bool> {
    if data == [] then [] else BitsOf(data[0]) + MessageBits(data[1..])
  }

  lemma PolynomialsReflect()
    ensures Reflect(POLY_ARC) == GENERATOR_ARC && Reflect(POLY_X25) == GENERATOR_X25
  {}

  lemma ReflectShift(c: bv16)
    ensures Reflect(c >> 1) == Reflect(c) << 1
  {}

  lemma ReflectXor(a: bv16, b: bv16)
    ensures Reflect(Xor(a, b)) == Xor(Reflect(a), Reflect(b))
  {}

  lemma ReflectLow(c: bv16, bit: bool)
    ensures Odd(Xor(c, Flag(bit, 1))) <==> (Reflect(c) & 0x8000 == 0x8000) != bit
    ensures Xor(c, Flag(bit, 1)) >> 1 == c >> 1
  {}

  /** One turn of the loop is one step of the division. */
  lemma ShiftDivides(poly: bv16, c: bv16, bit: bool)
    ensures Reflect(Shift(poly, Xor(c, Flag(bit, 1)))) == DivideBit(Reflect(poly), Reflect(c), bit)
  {
    hide Reflect, Xor, Odd, Flag;
    ReflectLow(c, bit);
    ReflectShift(c);
    ReflectXor(c >> 1, poly);
  }

  lemma WordSplits(b7: bool, b6: bool, b5: bool, b4: bool, b3: bool, b2: bool, b1: bool, b0: bool)
    ensures var w, rest := Word(b7, b6, b5, b4, b3, b2, b1, b0), Word(b7, b6, b5, b4, b3, b2, b1, false);
      && w == Xor(Flag(b0, 1), rest) && !Odd(rest)
      && rest >> 1 == Word(false, b7, b6, b5, b4, b3, b2, b1)
  {}

  /** Mixing a whole byte in first is mixing its bits in one at a time. */
  lemma FeedBit(poly: bv16, c: bv16, b7: bool, b6: bool, b5: bool, b4: bool, b3: bool, b2: bool, b1: bool, b0: bool)
    ensures Shift(poly, Xor(c, Word(b7, b6, b5, b4, b3, b2, b1, b0)))
         == Xor(Shift(poly, Xor(c, Flag(b0, 1))), Word(false, b7, b6, b5, b4, b3, b2, b1))
  {
    hide Xor, Odd, Word, Flag;
    var rest := Word(b7, b6, b5, b4, b3, b2, b1, false);
    WordSplits(b7, b6, b5, b4, b3, b2, b1, b0);
    XorAssociates(c, Flag(b0, 1), rest);
    ShiftLinear(poly, Xor(c, Flag(b0, 1)), rest);
  }

  lemma NoWord()
    ensures Word(false, false, false, false, false, false, false, false) == 0
  {}

  /** A byte's update is eight steps of the division. */
  lemma UpdateDivides(poly: bv16, c: bv16, b: byte)
    ensures Reflect(Update(poly, c, b)) == Remainder(Reflect(poly), Reflect(c), BitsOf(b))
  {
    hide Xor, Odd, Word, Flag, Reflect, Shift, Bit, DivideBit, Remainder;
    var b7, b6, b5, b4 := Bit(b, 7), Bit(b, 6), Bit(b, 5), Bit(b, 4);
    var b3, b2, b1, b0 := Bit(b, 3), Bit(b, 2), Bit(b, 1), Bit(b, 0);
    var c1 := Shift(poly, Xor(c, Flag(b0, 1)));
    var c2 := Shift(poly, Xor(c1, Flag(b1, 1)));
    var c3 := Shift(poly, Xor(c2, Flag(b2, 1)));
    var c4 := Shift(poly, Xor(c3, Flag(b3, 1)));
    var c5 := Shift(poly, Xor(c4, Flag(b4, 1)));
    var c6 := Shift(poly, Xor(c5, Flag(b5, 1)));
    var c7 := Shift(poly, Xor(c6, Flag(b6, 1)));
    var c8 := Shift(poly, Xor(c7, Flag(b7, 1)));
    FeedBit(poly, c, b7, b6, b5, b4, b3, b2, b1, b0);
    FeedBit(poly, c1, false, b7, b6, b5, b4, b3, b2, b1);
    FeedBit(poly, c2, false, false, b7, b6, b5, b4, b3, b2);
    FeedBit(poly, c3, false, false, false, b7, b6, b5, b4, b3);
    FeedBit(poly, c4, false, false, false, false, b7, b6, b5, b4);
    FeedBit(poly, c5, false, false, false, false, false, b7, b6, b5);
    FeedBit(poly, c6, false, false, false, false, false, false, b7, b6);
    FeedBit(poly, c7, false, false, false, false, false, false, false, b7);
    NoWord();
    XorNothing(c8);
    assert Update(poly, c, b) == c8;
    ShiftDivides(poly, c, b0);
    ShiftDivides(poly, c1, b1);
    ShiftDivides(poly, c2, b2);
    ShiftDivides(poly, c3, b3);
    ShiftDivides(poly, c4, b4);
    ShiftDivides(poly, c5, b5);
    ShiftDivides(poly, c6, b6);
    ShiftDivides(poly, c7, b7);
    EightSteps(Reflect(poly), Reflect(c), b0, b1, b2, b3, b4, b5, b6, b7);
  }

  lemma EightSteps(g: bv16, r: bv16, b0: bool, b1: bool, b2: bool, b3: bool, b4: bool, b5: bool, b6: bool, b7: bool)
    ensures Remainder(g, r, [b0, b1, b2, b3, b4, b5, b6, b7])
         == DivideBit(g, DivideBit(g, DivideBit(g, DivideBit(g, DivideBit(g, DivideBit(g, DivideBit(g, DivideBit(g, r,
              b0), b1), b2), b3), b4), b5), b6), b7)
  {
    hide DivideBit;
    RemainderStep(g, r, b0, [b1, b2, b3, b4, b5, b6, b7]);
    var r1 := DivideBit(g, r, b0);
    RemainderStep(g, r1, b1, [b2, b3, b4, b5, b6, b7]);
    var r2 := DivideBit(g, r1, b1);
    RemainderStep(g, r2, b2, [b3, b4, b5, b6, b7]);
    var r3 := DivideBit(g, r2, b2);
    RemainderStep(g, r3, b3, [b4, b5, b6, b7]);
    var r4 := DivideBit(g, r3, b3);
    RemainderStep(g, r4, b4, [b5, b6, b7]);
    var r5 := DivideBit(g, r4, b4);
    RemainderStep(g, r5, b5, [b6, b7]);
    var r6 := DivideBit(g, r5, b5);
    RemainderStep(g, r6, b6, [b7]);
    RemainderStep(g, DivideBit(g, r6, b6), b7, []);
  }

  lemma RemainderStep(g: bv16, r: bv16, bit: bool, rest: seq<bool>)
    ensures [bit] + rest != [] && Remainder(g, r, [bit] + rest) == Remainder(g, DivideBit(g, r, bit), rest)
    ensures Remainder(g, r, []) == r
  {
    hide DivideBit;
    assert ([bit] + rest)[1..] == rest;
  }

  lemma {:induction false} RemainderConcat(g: bv16, r: bv16, x: seq<bool>, y: seq<bool>)
    ensures Remainder(g, r, x + y) == Remainder(g, Remainder(g, r, x), y)
    decreases |x|
  {
    hide DivideBit;
    if x == [] {
      assert x + y == y;
    } else {
      assert (x + y)[1..] == x[1..] + y;
      RemainderConcat(g, DivideBit(g, r, x[0]), x[1..], y);
    }
  }

  /** The loops compute the remainder of the message by the generator polynomial, read from the other end. */
  lemma {:induction false} FoldDivides(poly: bv16, init: bv16, data: Bytes)
    ensures Reflect(Fold(poly, init, data)) == Remainder(Reflect(poly), Reflect(init), MessageBits(data))
    decreases |data|
  {
    hide Reflect, Update, Remainder, BitsOf;
    if data == [] {
      NoRemainder(Reflect(poly), Reflect(init));
    } else {
      UpdateDivides(poly, init, data[0]);
      FoldDivides(poly, Update(poly, init, data[0]), data[1..]);
      RemainderConcat(Reflect(poly), Reflect(init), BitsOf(data[0]), MessageBits(data[1..]));
    }
  }

  lemma NoRemainder(g: bv16, r: bv16)
    ensures Remainder(g, r, []) == r
  {}

  /**
   CRC-16/ARC is the reflected remainder by x^16 + x^15 + x^2 + 1 from zero,
   CRC-16/X-25 the inverted reflected remainder by x^16 + x^12 + x^5 + 1 from
   all ones.
   */
  lemma ChecksumsDivide(data: Bytes)
    ensures Arc(data) == Value(Reflect(Remainder(0x8005, 0, MessageBits(data))))
    ensures X25(data) == Value(Reflect(Xor(Remainder(0x1021, 0xFFFF, MessageBits(data)), 0xFFFF)))
  {
    hide Fold, Remainder, Xor, MessageBits, Value;
    PolynomialsReflect();
    ReflectEnds();
    FoldDivides(POLY_ARC, 0, data);
    FoldDivides(POLY_X25, 0xFFFF, data);
    hide Reflect;
    ReflectTwice(Fold(POLY_ARC, 0, data));
    ReflectTwice(Fold(POLY_X25, 0xFFFF, data));
    ReflectXor(Remainder(0x1021, 0xFFFF, MessageBits(data)), 0xFFFF);
  }

  lemma ReflectEnds()
    ensures Reflect(0) == 0 && Reflect(0xFFFF) == 0xFFFF
  {}

  lemma ReflectTwice(c: bv16)
    ensures Reflect(Reflect(c)) == c
  {}

  // ------------------------------------------------------------------
  // Check values
  // ------------------------------------------------------------------

  /** One byte with known values on both sides. */
  lemma CheckStep(poly: bv16, c: bv16, b: byte)
    ensures Update(poly, c, b) == Shift8(poly, Xor(c, b as bv16))
  {
    hide Shift8, Xor, Bits;
    BitsValue(b);
    ValueBack(Bits(b));
  }

  /** "123456789" */
  const DIGITS: Bytes := [0x31, 0x32, 0x33, 0x34, 0x35, 0x36, 0x37, 0x38, 0x39]

  lemma KnownArc(c: bv16, b: byte, next: bv16)
    requires Shift8(POLY_ARC, Xor(c, b as bv16)) == next
    ensures Update(POLY_ARC, c, b) == next
  {
    hide Shift8, Xor, Update;
    CheckStep(POLY_ARC, c, b);
  }

  lemma KnownX25(c: bv16, b: byte, next: bv16)
    requires Shift8(POLY_X25, Xor(c, b as bv16)) == next
    ensures Update(POLY_X25, c, b) == next
  {
    hide Shift8, Xor, Update;
    CheckStep(POLY_X25, c, b);
  }

  lemma ArcFirstDigits()
    ensures Update(POLY_ARC, Update(POLY_ARC, Update(POLY_ARC, 0x0000, 0x31), 0x32), 0x33) == 0xBA04
  {
    hide Update;
    KnownArc(0x0000, 0x31, 0xD4C1);
    KnownArc(0xD4C1, 0x32, 0x4594);
    KnownArc(0x4594, 0x33, 0xBA04);
  }

  lemma ArcMiddleDigits()
    ensures Update(POLY_ARC, Update(POLY_ARC, Update(POLY_ARC, 0xBA04, 0x34), 0x35), 0x36) == 0x29E4
  {
    hide Update;
    KnownArc(0xBA04, 0x34, 0x14BA);
    KnownArc(0x14BA, 0x35, 0xA455);
    KnownArc(0xA455, 0x36, 0x29E4);
  }

  lemma ArcLastDigits()
    ensures Update(POLY_ARC, Update(POLY_ARC, Update(POLY_ARC, 0x29E4, 0x37), 0x38), 0x39) == 0xBB3D
  {
    hide Update;
    KnownArc(0x29E4, 0x37, 0x9D68);
    KnownArc(0x9D68, 0x38, 0x3C9D);
    KnownArc(0x3C9D, 0x39, 0xBB3D);
  }

  lemma X25FirstDigits()
    ensures Update(POLY_X25, Update(POLY_X25, Update(POLY_X25, 0xFFFF, 0x31), 0x32), 0x33) == 0x634B
  {
    hide Update;
    KnownX25(0xFFFF, 0x31, 0x2F8D);
    KnownX25(0x2F8D, 0x32, 0x4D53);
    KnownX25(0x4D53, 0x33, 0x634B);
  }

  lemma X25MiddleDigits()
    ensures Update(POLY_X25, Update(POLY_X25, Update(POLY_X25, 0x634B, 0x34), 0x35), 0x36) == 0x198D
  {
    hide Update;
    KnownX25(0x634B, 0x34, 0x8B13);
    KnownX25(0x8B13, 0x35, 0x44BF);
    KnownX25(0x44BF, 0x36, 0x198D);
  }

  lemma X25LastDigits()
    ensures Update(POLY_X25, Update(POLY_X25, Update(POLY_X25, 0x198D, 0x37), 0x38), 0x39) == 0x6F91
  {
    hide Update;
    KnownX25(0x198D, 0x37, 0x1AC8);
    KnownX25(0x1AC8, 0x38, 0xF795);
    KnownX25(0xF795, 0x39, 0x6F91);
  }

  /** The published check value of CRC-16/ARC. */
  lemma ArcCheckValue()
    ensures Arc(DIGITS) == 0xBB3D
  {
    hide Update, Value, Fold, Shift8;
    FoldDigits(POLY_ARC, 0);
    ArcFirstDigits();
    ArcMiddleDigits();
    ArcLastDigits();
    ValuesOf();
  }

  /** The published check value of CRC-16/X-25. */
  lemma X25CheckValue()
    ensures X25(DIGITS) == 0x906E
  {
    hide Update, Value, Fold, Shift8;
    FoldDigits(POLY_X25, 0xFFFF);
    X25FirstDigits();
    X25MiddleDigits();
    X25LastDigits();
    assert Xor(0x6F91, 0xFFFF) == 0x906E;
    ValuesOf();
  }

  lemma ValuesOf()
    ensures Value(0xBB3D) == 0xBB3D && Value(0x906E) == 0x906E
  {}

  lemma FoldDigits(poly: bv16, c: bv16)
    ensures Fold(poly, c, DIGITS)
         == Update(poly, Update(poly, Update(poly, Update(poly, Update(poly, Update(poly, Update(poly, Update(poly,
              Update(poly, c, 0x31), 0x32), 0x33), 0x34), 0x35), 0x36), 0x37), 0x38), 0x39)
  {
    hide Update;
    FoldStep(poly, c, 0x31, [0x32, 0x33, 0x34, 0x35, 0x36, 0x37, 0x38, 0x39]);
    var c1 := Update(poly, c, 0x31);
    FoldStep(poly, c1, 0x32, [0x33, 0x34, 0x35, 0x36, 0x37, 0x38, 0x39]);
    var c2 := Update(poly, c1, 0x32);
    FoldStep(poly, c2, 0x33, [0x34, 0x35, 0x36, 0x37, 0x38, 0x39]);
    var c3 := Update(poly, c2, 0x33);
    FoldStep(poly, c3, 0x34, [0x35, 0x36, 0x37, 0x38, 0x39]);
    var c4 := Update(poly, c3, 0x34);
    FoldStep(poly, c4, 0x35, [0x36, 0x37, 0x38, 0x39]);
    var c5 := Update(poly, c4, 0x35);
    FoldStep(poly, c5, 0x36, [0x37, 0x38, 0x39]);
    var c6 := Update(poly, c5, 0x36);
    FoldStep(poly, c6, 0x37, [0x38, 0x39]);
    var c7 := Update(poly, c6, 0x37);
    FoldStep(poly, c7, 0x38, [0x39]);
    FoldStep(poly, Update(poly, c7, 0x38), 0x39, []);
  }

  lemma FoldStep(poly: bv16, c: bv16, b: byte, rest: Bytes)
    ensures Fold(poly, c, [b] + rest) == Fold(poly, Update(poly, c, b), rest)
    ensures Fold(poly, c, []) == c
  {
    hide Update;
    assert ([b] + rest)[1..] == rest;
  }
}
