/**
 Bitcoin's compact ("nBits") encoding of 256-bit proof-of-work targets
 (crates/mutiny-bitcoin/src/lib.rs).

 A target is encoded by its byte length and its three leading bytes, shifted
 right by one byte when the leading bit would read as a sign. `NormalForm`
 describes the result without mentioning bytes; every theorem goes through it.
 */
module CompactTarget {
  import opened Arithmetic
  import opened Bytes
  import opened Wrappers

  type u32 = n: int | 0 <= n < 0x1_0000_0000

  function Exponent(bits: u32): (e: nat) { bits / 0x100_0000 }

  function Mantissa(bits: u32): (m: nat) { bits % 0x80_0000 }

  predicate SignBit(bits: u32) { bits / 0x80_0000 % 2 == 1 }

  function Zeros(n: nat): (s: seq<byte>)
    ensures |s| == n
  {
    if n == 0 then [] else [0] + Zeros(n - 1)
  }

  /** `compact_target_be`: the 32-byte target that the bits denote, or an error. */
  function CompactTargetBe(bits: u32): (r: Result<seq<byte>>)
    ensures r.Success? ==> |r.value| == 32
  {
    var exponent, mantissa := Exponent(bits), Mantissa(bits);
    if mantissa == 0 || SignBit(bits) || exponent == 0 || exponent > 32 then
      Failure
    else if exponent <= 3 then
      Success(Zeros(28) + BeBytes(mantissa / Pow256(3 - exponent), 4))
    else
      var start := 32 - exponent;
      Success(Zeros(start) + BeBytes(mantissa, 3) + Zeros(32 - start - 3))
  }

  /** The target as a number. */
  function Target(bits: u32): (r: Result<nat>) {
    var bytes :- CompactTargetBe(bits);
    Success(BeNat(bytes))
  }

  /** `BigUint::to_bytes_be`: the minimal big-endian digits. */
  function ToBytesBe(n: nat): (s: seq<byte>)
    ensures |s| >= 1
    ensures n < Pow256(|s|)
    ensures |s| > 1 ==> Pow256(|s| - 1) <= n
    ensures BeNat(s) == n
  {
    if n < 256 then
      assert Pow256(1) == 256;
      [n]
    else
      var s := ToBytesBe(n / 256) + [n % 256];
      assert s[..|s| - 1] == ToBytesBe(n / 256);
      s
  }

  /** The three leading bytes of a number, as a number. */
  function Leading(bytes: seq<byte>): (m: nat) {
    if |bytes| <= 3 then BeNat(bytes) * Pow256(3 - |bytes|) else BeNat(bytes[..3])
  }

  /** Length and mantissa as bits; a leading bit that reads as a sign costs one byte. */
  function Pack(size: nat, mantissa: nat): (r: Result<u32>) {
    var signed := mantissa / 0x80_0000 % 2 == 1;
    var s, m := if signed then size + 1 else size, if signed then mantissa / 256 else mantissa;
    if s > 255 then Failure else Success(s * 0x100_0000 + m % 0x80_0000)
  }

  /** `compact_bits_from_biguint`. */
  function CompactBits(target: nat): (r: Result<u32>) {
    if target == 0 then Failure
    else
      var bytes := ToBytesBe(target);
      Pack(|bytes|, Leading(bytes))
  }

  /** `canonical_compact_target_be`: only the bits that encoding produces are accepted. */
  function CanonicalTarget(bits: u32): (r: Result<nat>) {
    var target :- Target(bits);
    if CompactBits(target) == Success(bits) then Success(target) else Failure
  }

  // ---------------------------------------------------------------- decoding

  lemma {:induction false} ZerosValue(n: nat)
    ensures BeNat(Zeros(n)) == 0
  {
    if n > 0 {
      ZerosValue(n - 1);
      BeNatConcat([0], Zeros(n - 1));
    }
  }

  /** What the decoded bytes are worth. */
  lemma TargetValue(bits: u32)
    ensures Target(bits).Success? <==>
            Mantissa(bits) != 0 && !SignBit(bits) && 1 <= Exponent(bits) <= 32
    ensures Target(bits).Success? && Exponent(bits) <= 3 ==>
              Target(bits).value == Mantissa(bits) / Pow256(3 - Exponent(bits))
    ensures Target(bits).Success? && Exponent(bits) >= 3 ==>
              Target(bits).value == Mantissa(bits) * Pow256(Exponent(bits) - 3)
  {
    if Target(bits).Success? {
      if Exponent(bits) <= 3 {
        ShortTarget(Mantissa(bits), Exponent(bits));
      } else {
        LongTarget(Mantissa(bits), Exponent(bits));
      }
    }
  }

  lemma ShortTarget(m: nat, e: nat)
    requires m < 0x80_0000 && e <= 3
    ensures BeNat(Zeros(28) + BeBytes(m / Pow256(3 - e), 4)) == m / Pow256(3 - e)
    ensures e == 3 ==> m / Pow256(3 - e) == m
  {
    var shifted := m / Pow256(3 - e);
    DivAtMost(m, Pow256(3 - e));
    Pow256Values();
    BeNatConcat(Zeros(28), BeBytes(shifted, 4));
    ZerosValue(28);
    BeNatOfBeBytes(shifted, 4);
  }

  lemma LongTarget(m: nat, e: nat)
    requires m < 0x80_0000 && 3 <= e <= 32
    ensures BeNat(Zeros(32 - e) + BeBytes(m, 3) + Zeros(e - 3)) == m * Pow256(e - 3)
  {
    Pow256Values();
    BeNatConcat(Zeros(32 - e) + BeBytes(m, 3), Zeros(e - 3));
    BeNatConcat(Zeros(32 - e), BeBytes(m, 3));
    ZerosValue(32 - e);
    ZerosValue(e - 3);
    BeNatOfBeBytes(m, 3);
  }

  lemma DivAtMost(m: nat, p: nat)
    requires p >= 1
    ensures m / p <= m
  {
    assert m == p * (m / p) + m % p;
    assert p * (m / p) >= m / p by { MulGrows(p, m / p); }
  }

  lemma MulGrows(p: nat, q: nat)
    requires p >= 1
    ensures p * q >= q
  {
    assert p * q == (p - 1) * q + q;
  }

  // ---------------------------------------------------------------- encoding

  /**
   `m` is the leading part of `target` in base 256 at exponent `e`: the encoding
   keeps `target * 256^3 / 256^e` and this quotient has 16 to 23 significant bits.
   */
  ghost predicate NormalForm(target: nat, e: nat, m: nat) {
    && 0x8000 <= m < 0x80_0000
    && m * Pow256(e) <= target * 0x100_0000 < (m + 1) * Pow256(e)
  }

  /** Powers of 256 absorb one another. */
  lemma {:induction false} Pow256Add(a: nat, b: nat)
    ensures Pow256(a + b) == Pow256(a) * Pow256(b)
  {
    if a > 0 {
      Pow256Add(a - 1, b);
      MulAssoc(256, Pow256(a - 1), Pow256(b));
    }
  }

  lemma MulAssoc(a: nat, b: nat, c: nat)
    ensures a * (b * c) == (a * b) * c
  {
  }

  lemma MulStrict(a: nat, b: nat, p: nat)
    requires a * p < b * p
    ensures a < b
  {
    if b <= a { MulMonotone(b, a, p, p); }
  }

  /** The three leading bytes, before the sign adjustment, as a rounded quotient. */
  lemma LeadingBytes(target: nat)
    requires target > 0
    ensures var bytes := ToBytesBe(target);
            var m := Leading(bytes);
            && 0x1_0000 <= m < 0x100_0000
            && m * Pow256(|bytes|) <= target * 0x100_0000 < (m + 1) * Pow256(|bytes|)
  {
    var bytes := ToBytesBe(target);
    var size := |bytes|;
    if size <= 3 {
      LeadingShort(target, size);
    } else {
      LeadingLong(bytes);
      LeadingRange(BeNat(bytes[..3]), Pow256(size - 3), target);
    }
  }

  lemma LeadingShort(t: nat, size: nat)
    requires 1 <= size <= 3 && 0 < t < Pow256(size) && (size > 1 ==> Pow256(size - 1) <= t)
    ensures var m := t * Pow256(3 - size);
            && 0x1_0000 <= m < 0x100_0000
            && m * Pow256(size) <= t * 0x100_0000 < (m + 1) * Pow256(size)
  {
    Pow256Values();
    assert Pow256(0) == 1;
  }

  lemma LeadingLong(bytes: seq<byte>)
    requires |bytes| > 3 && Pow256(|bytes| - 1) <= BeNat(bytes)
    ensures var p, m, t := Pow256(|bytes| - 3), BeNat(bytes[..3]), BeNat(bytes);
            && m < 0x100_0000 && m * p <= t < m * p + p && 0x1_0000 * p <= t
            && Pow256(|bytes|) == 0x100_0000 * p
  {
    var head, tail := bytes[..3], bytes[3..];
    assert bytes == head + tail;
    BeNatConcat(head, tail);
    BeNatBound(tail);
    BeNatBound(head);
    Pow256Values();
    Pow256Add(3, |bytes| - 3);
    Pow256Add(2, |bytes| - 3);
  }

  lemma LeadingRange(m: nat, p: nat, t: nat)
    requires m * p <= t < m * p + p && 0x1_0000 * p <= t
    ensures 0x1_0000 <= m
    ensures m * (0x100_0000 * p) <= t * 0x100_0000 < (m + 1) * (0x100_0000 * p)
  {
    Scale(m, p, t);
    assert m * p + p == (m + 1) * p;
    MulStrict(0x1_0000, m + 1, p);
  }

  lemma Scale(m: nat, p: nat, t: nat)
    requires m * p <= t < m * p + p
    ensures m * (0x100_0000 * p) <= t * 0x100_0000 < (m + 1) * (0x100_0000 * p)
  {
    assert m * (0x100_0000 * p) == 0x100_0000 * (m * p);
    assert (m + 1) * (0x100_0000 * p) == 0x100_0000 * (m * p + p);
  }

  /** Encoding computes the normal form. */
  lemma CompactBitsNormal(target: nat)
    requires CompactBits(target).Success?
    ensures var bits := CompactBits(target).value;
            && target > 0 && Exponent(bits) >= 1 && !SignBit(bits)
            && NormalForm(target, Exponent(bits), Mantissa(bits))
  {
    LeadingBytes(target);
    var bytes := ToBytesBe(target);
    PackNormal(|bytes|, Leading(bytes), target);
  }

  lemma PackNormal(size: nat, m: nat, target: nat)
    requires Pack(size, m).Success? && size >= 1 && 0x1_0000 <= m < 0x100_0000
    requires m * Pow256(size) <= target * 0x100_0000 < (m + 1) * Pow256(size)
    ensures var bits := Pack(size, m).value;
            && Exponent(bits) >= 1 && !SignBit(bits)
            && NormalForm(target, Exponent(bits), Mantissa(bits))
  {
    if m >= 0x80_0000 {
      assert m / 0x80_0000 % 2 == 1;
      Coarsen(m, Pow256(size), target * 0x100_0000);
      BitsFields(size + 1, m / 256);
    } else {
      assert m / 0x80_0000 == 0;
      BitsFields(size, m);
    }
  }

  lemma BitsFields(size: nat, m: nat)
    requires size <= 255 && m < 0x80_0000
    ensures var bits: u32 := size * 0x100_0000 + m % 0x80_0000;
            Exponent(bits) == size && Mantissa(bits) == m && !SignBit(bits)
  {
    assert size * 0x100_0000 == 2 * size * 0x80_0000;
  }

  /** Dropping the last byte of a rounded quotient rounds at the next power. */
  lemma Coarsen(m: nat, p: nat, t: nat)
    requires m * p <= t < (m + 1) * p
    ensures (m / 256) * (256 * p) <= t < (m / 256 + 1) * (256 * p)
  {
    var k := m / 256;
    assert (k * 256) * p <= m * p by { MulMonotone(k * 256, m, p, p); }
    assert (m + 1) * p <= ((k + 1) * 256) * p by { MulMonotone(m + 1, (k + 1) * 256, p, p); }
    assert k * (256 * p) == (k * 256) * p;
    assert (k + 1) * (256 * p) == ((k + 1) * 256) * p;
  }

  lemma Pow256Monotone(a: nat, b: nat)
    requires a < b
    ensures 256 * Pow256(a) <= Pow256(b)
  {
    Pow256Add(b - a - 1, a + 1);
    MulGrows(Pow256(b - a - 1), Pow256(a + 1));
  }

  /** The exponents and then the mantissas of ordered targets are ordered. */
  lemma NormalFormOrdered(t1: nat, e1: nat, m1: nat, t2: nat, e2: nat, m2: nat)
    requires NormalForm(t1, e1, m1) && NormalForm(t2, e2, m2) && t1 <= t2
    ensures e1 < e2 || (e1 == e2 && m1 <= m2)
  {
    if e2 < e1 {
      Pow256Monotone(e2, e1);
      var p, q := Pow256(e2), Pow256(e1);
      MulMonotone(m2 + 1, 0x80_0000, p, p);
      MulMonotone(0x8000, m1, q, q);
      assert false;
    } else if e1 == e2 {
      MulStrict(m1, m2 + 1, Pow256(e1));
    }
  }

  /** A larger target never gets smaller bits. */
  lemma CompactBitsMonotone(t1: nat, t2: nat)
    requires 0 < t1 <= t2 && CompactBits(t1).Success? && CompactBits(t2).Success?
    ensures CompactBits(t1).value <= CompactBits(t2).value
  {
    CompactBitsNormal(t1);
    CompactBitsNormal(t2);
    var b1, b2 := CompactBits(t1).value, CompactBits(t2).value;
    NormalFormOrdered(t1, Exponent(b1), Mantissa(b1), t2, Exponent(b2), Mantissa(b2));
    FieldsGiveBits(b1);
    FieldsGiveBits(b2);
  }

  lemma FieldsGiveBits(bits: u32)
    requires !SignBit(bits)
    ensures bits == Exponent(bits) * 0x100_0000 + Mantissa(bits)
  {
    assert bits / 0x100_0000 == bits / 0x80_0000 / 2;
  }

  /** Encoding fails only for zero and for targets of more than 255 bytes. */
  lemma CompactBitsTotal(target: nat)
    requires 0 < target < TWO_256
    ensures CompactBits(target).Success?
  {
    TwoTo256();
    var size := |ToBytesBe(target)|;
    if size > 32 {
      if size - 1 > 32 { Pow256Monotone(32, size - 1); }
      assert false;
    }
  }

  /** A decodable encoding is that of a target below 2^255, and conversely. */
  lemma EncodingDecodable(target: nat)
    requires CompactBits(target).Success?
    ensures Target(CompactBits(target).value).Success? <==> target < TWO_255
  {
    CompactBitsNormal(target);
    var bits := CompactBits(target).value;
    var e, m := Exponent(bits), Mantissa(bits);
    TargetValue(bits);
    assert Target(bits).Success? <==> e <= 32;
    TwoTo256();
    assert Pow256(32) == 256 * Pow256(31);
    if e < 32 { Pow256Monotone(e, 32); }
    if e > 32 { Pow256Monotone(32, e); }
    BelowLimit(target, m, Pow256(e), Pow256(31), e <= 32);
  }

  lemma BelowLimit(t: nat, m: nat, q: nat, p31: nat, small: bool)
    requires 0x8000 <= m < 0x80_0000 && m * q <= t * 0x100_0000 < (m + 1) * q
    requires if small then q <= 256 * p31 else 256 * (256 * p31) <= q
    ensures small <==> t < 0x80 * p31
  {
    if small {
      MulMonotone(m + 1, 0x80_0000, q, q);
    } else {
      MulMonotone(0x8000, m, q, q);
    }
  }

  /**
   Encoding then decoding: the target is never raised, loses less than 2^-15 of
   itself, and encodes to the same bits again.
   */
  lemma CompactRoundTrip(target: nat)
    requires 0 < target < TWO_255
    ensures CompactBits(target).Success?
    ensures var bits := CompactBits(target).value;
            && Target(bits).Success?
            && var decoded := Target(bits).value;
            && 0 < decoded <= target
            && (target - decoded) * 0x8000 < target
            && CompactBits(decoded) == Success(bits)
  {
    CompactBitsTotal(target);
    CompactBitsNormal(target);
    EncodingDecodable(target);
    var bits := CompactBits(target).value;
    DecodedNormal(target, bits);
    Reencode(Target(bits).value, Exponent(bits), Mantissa(bits), bits);
  }

  /** Decoding undoes the normal form up to the bytes that were dropped. */
  lemma DecodedNormal(target: nat, bits: u32)
    requires target > 0 && Target(bits).Success? && NormalForm(target, Exponent(bits), Mantissa(bits))
    ensures var decoded := Target(bits).value;
            && 0 < decoded <= target && (target - decoded) * 0x8000 < target
            && NormalForm(decoded, Exponent(bits), Mantissa(bits))
  {
    var e, m := Exponent(bits), Mantissa(bits);
    TargetValue(bits);
    if e >= 3 {
      ScaledPower(e);
      LossAtExponent(target, m, Pow256(e - 3));
    } else {
      ComplementPower(e);
      ExactWhenSmall(target, Pow256(3 - e), Pow256(e), m);
    }
  }

  lemma ScaledPower(e: nat)
    requires e >= 3
    ensures Pow256(e) == 0x100_0000 * Pow256(e - 3)
  {
    Pow256Values();
    Pow256Add(3, e - 3);
  }

  lemma ComplementPower(e: nat)
    requires e <= 3
    ensures Pow256(3 - e) * Pow256(e) == 0x100_0000
  {
    Pow256Values();
    Pow256Add(3 - e, e);
  }

  lemma LossAtExponent(t: nat, m: nat, p: nat)
    requires p >= 1 && 0x8000 <= m
    requires m * (0x100_0000 * p) <= t * 0x100_0000 < (m + 1) * (0x100_0000 * p)
    ensures var d := m * p;
            && 0 < d <= t && (t - d) * 0x8000 < t
            && m * (0x100_0000 * p) <= d * 0x100_0000 < (m + 1) * (0x100_0000 * p)
  {
    Unscale(m, p, t);
    MulMonotone(0x8000, m, p, p);
    Scale(m, p, m * p);
  }

  lemma Unscale(m: nat, p: nat, t: nat)
    requires m * (0x100_0000 * p) <= t * 0x100_0000 < (m + 1) * (0x100_0000 * p)
    ensures m * p <= t < m * p + p
  {
    assert m * (0x100_0000 * p) == 0x100_0000 * (m * p);
    assert (m + 1) * (0x100_0000 * p) == 0x100_0000 * (m * p + p);
  }

  lemma ExactWhenSmall(t: nat, r: nat, q: nat, m: nat)
    requires r >= 1 && q >= 1 && r * q == 0x100_0000 && m * q <= t * 0x100_0000 < (m + 1) * q
    ensures m == t * r && m / r == t
  {
    assert t * (r * q) == (t * r) * q by { MulAssoc(t, r, q); }
    MulStrict(t * r, m + 1, q);
    MulStrict(m, t * r + 1, q) by { assert (t * r + 1) * q == (t * r) * q + q; }
    assert m == t * r;
    DivOfMultiple(t, r);
  }

  lemma DivOfMultiple(t: nat, r: nat)
    requires r >= 1
    ensures t * r / r == t
  {
    var d := t * r / r;
    assert t * r == r * d + t * r % r;
    MulStrict(d, t + 1, r);
    MulStrict(t, d + 1, r);
  }

  /** The bits are determined by the normal form. */
  lemma Reencode(target: nat, e: nat, m: nat, bits: u32)
    requires 0 < target < TWO_256 && NormalForm(target, e, m)
    requires Exponent(bits) == e && Mantissa(bits) == m && !SignBit(bits)
    ensures CompactBits(target) == Success(bits)
  {
    CompactBitsTotal(target);
    CompactBitsNormal(target);
    var b := CompactBits(target).value;
    NormalFormOrdered(target, e, m, target, Exponent(b), Mantissa(b));
    NormalFormOrdered(target, Exponent(b), Mantissa(b), target, e, m);
    FieldsGiveBits(b);
    FieldsGiveBits(bits);
  }

  /** The canonical check accepts exactly the decodable bits that encoding can produce. */
  lemma CanonicalIffProduced(bits: u32)
    ensures CanonicalTarget(bits).Success? <==>
            Target(bits).Success? && exists target: nat :: CompactBits(target) == Success(bits)
  {
    if Target(bits).Success? {
      forall target: nat | CompactBits(target) == Success(bits)
        ensures CanonicalTarget(bits).Success?
      {
        EncodingDecodable(target);
        CompactBitsNormal(target);
        CompactRoundTrip(target);
      }
    }
  }

  /** A canonical target is positive and below 2^255. */
  lemma CanonicalBounds(bits: u32)
    requires CanonicalTarget(bits).Success?
    ensures 0 < CanonicalTarget(bits).value < TWO_255
  {
    var target := Target(bits).value;
    CompactBitsNormal(target);
    EncodingDecodable(target);
  }
}
