/** Byte strings and the big-endian integers every binary family uses. */
module Bytes {

  type byte = x: int | 0 <= x < 256

  type Bytes = seq<byte>

  function Pow256(n: nat): (p: nat)
    ensures p > 0
  {
    if n == 0 then 1 else 256 * Pow256(n - 1)
  }

  /** Python's `int.from_bytes(s, "big")`. */
  function FromBE(s: Bytes): (v: nat)
    ensures v < Pow256(|s|)
  {
    if s == [] then 0 else FromBE(s[..|s| - 1]) * 256 + s[|s| - 1]
  }

  /** Python's `v.to_bytes(n, "big")`, for a value that fits. */
  function ToBE(v: nat, n: nat): (s: Bytes)
    requires v < Pow256(n)
    ensures |s| == n
    ensures FromBE(s) == v
  {
    if n == 0 then [] else ToBE(v / 256, n - 1) + [v % 256]
  }

  lemma {:induction false} ToBEInvertsFromBE(s: Bytes)
    ensures ToBE(FromBE(s), |s|) == s
  {
    hide Pow256;
    if s != [] {
      var front, last := s[..|s| - 1], s[|s| - 1] as int;
      ToBEInvertsFromBE(front);
      DivideByte(FromBE(front), last);
      assert s == front + [last];
    }
  }

  lemma DivideByte(high: nat, low: int)
    requires 0 <= low < 256
    ensures (high * 256 + low) / 256 == high
    ensures (high * 256 + low) % 256 == low
  {}

  lemma FromBEInjective(s: Bytes, t: Bytes)
    requires |s| == |t|
    ensures FromBE(s) == FromBE(t) <==> s == t
  {
    ToBEInvertsFromBE(s);
    ToBEInvertsFromBE(t);
  }

  /** The sizes the wire formats use, so that no proof has to unfold Pow256. */
  lemma Sizes()
    ensures Pow256(0) == 1
    ensures Pow256(1) == 0x100
    ensures Pow256(2) == 0x1_0000
    ensures Pow256(4) == 0x1_0000_0000
    ensures Pow256(8) == 0x1_0000_0000_0000_0000
  {
    assert Pow256(2) == 256 * Pow256(1);
    assert Pow256(3) == 256 * Pow256(2);
    assert Pow256(4) == 256 * Pow256(3);
    assert Pow256(5) == 256 * Pow256(4);
    assert Pow256(6) == 256 * Pow256(5);
    assert Pow256(7) == 256 * Pow256(6);
  }

  function ToBE16(v: nat): (s: Bytes)
    requires v < 0x1_0000
    ensures |s| == 2 && FromBE(s) == v
  {
    Sizes();
    ToBE(v, 2)
  }

  predicate InSigned(x: int, n: nat) {
    0 <= 2 * x + Pow256(n) < 2 * Pow256(n)
  }

  /** Two's complement of `n` bytes: `int.from_bytes(s, "big", signed=True)`. */
  function FromSignedBE(s: Bytes): (x: int)
    ensures InSigned(x, |s|)
  {
    var v := FromBE(s);
    if 2 * v < Pow256(|s|) then v else v - Pow256(|s|)
  }

  /** `x.to_bytes(n, "big", signed=True)`, for a value that fits. */
  function ToSignedBE(x: int, n: nat): (s: Bytes)
    requires InSigned(x, n)
    ensures |s| == n
    ensures FromSignedBE(s) == x
  {
    ToBE(if x < 0 then x + Pow256(n) else x, n)
  }

  lemma ToSignedBEInvertsFromSignedBE(s: Bytes)
    ensures ToSignedBE(FromSignedBE(s), |s|) == s
  {
    ToBEInvertsFromBE(s);
  }

  /** The first byte weighs most, and its top bit is the sign. */
  lemma Weights(s: Bytes)
    ensures |s| == 2 ==> FromBE(s) == 0x100 * s[0] as int + s[1]
    ensures |s| == 4 ==>
      FromBE(s) == 0x100_0000 * s[0] as int + 0x1_0000 * s[1] as int + 0x100 * s[2] as int + s[3]
    ensures s != [] ==> FromSignedBE(s) == FromBE(s) - if s[0] >= 128 then Pow256(|s|) else 0
  {
    if |s| == 2 {
      assert s[..1][..0] == [];
    } else if |s| == 4 {
      assert s[..3][..2] == s[..2] && s[..2][..1] == s[..1] && s[..1][..0] == [];
    }
    if s != [] {
      TopByteDecides(s);
    }
  }

  lemma {:induction false} TopByteDecides(s: Bytes)
    requires s != []
    ensures 2 * FromBE(s) < Pow256(|s|) <==> s[0] < 128
    ensures s[0] as int * Pow256(|s| - 1) <= FromBE(s) < (s[0] as int + 1) * Pow256(|s| - 1)
  {
    if |s| == 1 {
      assert s[..0] == [];
    } else {
      hide Pow256;
      var p := Pow256(|s| - 2);
      TopByteDecides(s[..|s| - 1]);
      Longer(|s| - 2);
      Longer(|s| - 1);
      Scaled(s[0], p);
      Scaled(s[0] as int + 1, p);
      TopByteStep(s[0] as int * p, (s[0] as int + 1) * p, FromBE(s[..|s| - 1]), s[|s| - 1], p);
    }
  }

  lemma Longer(n: nat)
    ensures Pow256(n + 1) == 256 * Pow256(n)
  {}

  lemma Scaled(x: nat, p: nat)
    ensures x * (256 * p) == 256 * (x * p)
  {}

  lemma TopByteStep(low: nat, high: nat, front: nat, last: byte, p: nat)
    requires low <= front < high
    ensures 256 * low <= front * 256 + last < 256 * high
    ensures 2 * front < 256 * p <==> 2 * (front * 256 + last) < 256 * (256 * p)
  {}

  function Concat(parts: seq<Bytes>): Bytes {
    if parts == [] then [] else parts[0] + Concat(parts[1..])
  }

  lemma {:induction false} ConcatAppend(a: seq<Bytes>, b: seq<Bytes>)
    ensures Concat(a + b) == Concat(a) + Concat(b)
  {
    if a == [] {
      assert a + b == b;
    } else {
      ConcatAppend(a[1..], b);
      assert (a + b)[1..] == a[1..] + b && (a + b)[0] == a[0];
      var x, y, z := a[0], Concat(a[1..]), Concat(b);
      assert x + (y + z) == (x + y) + z;
    }
  }
}
