/**
 VarUInt, the minimal base-128 encoding of 64-bit integers, and its three decoders
 (crates/mutiny-codec/src/lib.rs, crates/mutiny-protocol/src/lib.rs,
 crates/mutiny-node/src/mainnet_bootstrap.rs).

 Seven bits per byte, low bits first; all bytes but the last have the high bit set.
 The bits that a decoder adds with `|=` are above those it already has, so the
 operation is an addition.
 */
module VarUInt {
  import opened Wrappers
  import opened Arithmetic
  import opened Bytes
  import opened Codecs

  function Encode(v: nat): (s: seq<byte>)
    ensures s != []
  {
    if v < 128 then [v] else [v % 128 + 128] + Encode(v / 128)
  }

  /** Digits off the front, without a bound; a leading zero digit is not minimal. */
  function Digits(b: seq<byte>): Result<Read<nat>> {
    if b == [] then Failure
    else if b[0] < 128 then Success(Read(b[0], b[1..]))
    else
      var high :- Digits(b[1..]);
      if high.value == 0 then Failure else Success(Read(b[0] - 128 + 128 * high.value, high.rest))
  }

  /** The reference decoder. */
  function Decode(b: seq<byte>): Result<Read<nat>> {
    var r :- Digits(b);
    if r.value < U64 then Success(r) else Failure
  }

  lemma {:induction false} DigitsOfEncoding(v: nat, rest: seq<byte>)
    ensures Digits(Encode(v) + rest) == Success(Read(v, rest))
  {
    var b := Encode(v) + rest;
    if v < 128 {
      assert b[1..] == rest;
    } else {
      DigitsOfEncoding(v / 128, rest);
      assert b[1..] == Encode(v / 128) + rest;
    }
  }

  lemma {:induction false} EncodingOfDigits(b: seq<byte>)
    requires Digits(b).Success?
    ensures b == Encode(Digits(b).value.value) + Digits(b).value.rest
  {
    assert b == [b[0]] + b[1..];
    if b[0] >= 128 {
      EncodingOfDigits(b[1..]);
      var high := Digits(b[1..]).value;
      var v := Digits(b).value.value;
      DigitStep(b[0] - 128, high.value);
      assert b == ([b[0]] + Encode(high.value)) + high.rest;
    }
  }

  lemma DigitStep(d: nat, high: nat)
    requires d < 128
    ensures (d + 128 * high) % 128 == d && (d + 128 * high) / 128 == high
  {
  }

  function VarUIntCodec(): Codec<nat> {
    Codec(Encode, Decode, (v: nat) => v < U64)
  }

  /** Reading undoes writing for every 64-bit value and any following bytes, and accepts nothing else. */
  lemma VarUIntLawful()
    ensures Lawful(VarUIntCodec())
  {
    var c := VarUIntCodec();
    forall v: nat, rest: seq<byte> | c.ok(v) ensures c.read(c.write(v) + rest) == Success(Read(v, rest)) {
      DigitsOfEncoding(v, rest);
    }
    forall b | c.read(b).Success?
      ensures c.ok(c.read(b).value.value) && b == c.write(c.read(b).value.value) + c.read(b).value.rest
    {
      EncodingOfDigits(b);
    }
  }

  // ----------------------------------------------------------------- writing

  lemma EncodeStep(out: seq<byte>, v: nat)
    ensures v < 128 ==> out + Encode(v) == out + [v % 128]
    ensures v >= 128 ==> out + Encode(v) == out + [v % 128 + 128] + Encode(v / 128)
  {
    if v >= 128 {
      var d: byte := v % 128 + 128;
      assert out + ([d] + Encode(v / 128)) == out + [d] + Encode(v / 128);
    }
  }

  /** `write_varuint`; `pack_m_write_varuint` and the third decoder's inner loop are the same loop. */
  method WriteVarUInt(before: seq<byte>, value: nat) returns (out: seq<byte>)
    ensures out == before + Encode(value)
  {
    out := before;
    var v := value;
    while true
      invariant before + Encode(value) == out + Encode(v)
      decreases v
    {
      EncodeStep(out, v);
      var low := v % 128;
      v := v / 128;
      if v == 0 {
        out := out + [low];
        break;
      }
      out := out + [low + 128];
    }
  }

  // ------------------------------------------------------- what a scan sees

  function Pow128(k: nat): (p: nat)
    ensures p >= 1
  {
    if k == 0 then 1 else 128 * Pow128(k - 1)
  }

  /** The number in the low seven bits of the first `k` bytes. */
  function Low(b: seq<byte>, k: nat): nat
    requires k <= |b|
  {
    if k == 0 then 0 else Low(b, k - 1) + b[k - 1] % 128 * Pow128(k - 1)
  }

  /** The first `k` bytes all have the continuation bit. */
  predicate Continues(b: seq<byte>, k: nat)
    requires k <= |b|
  {
    forall i :: 0 <= i < k ==> b[i] >= 128
  }

  lemma {:induction false} LowFront(b: seq<byte>, k: nat)
    requires 0 < k <= |b|
    ensures Low(b, k) == b[0] % 128 + 128 * Low(b[1..], k - 1)
  {
    if k > 1 {
      LowFront(b, k - 1);
      assert b[1..][k - 2] == b[k - 1];
      Distribute(b[k - 1] % 128, Pow128(k - 2));
    } else {
      assert Low(b, 0) == 0 && Low(b[1..], 0) == 0;
    }
  }

  lemma Distribute(d: nat, p: nat)
    ensures d * (128 * p) == 128 * (d * p)
  {
  }

  /** What an accepted encoding looks like to a scan from the front. */
  lemma {:induction false} Shape(b: seq<byte>)
    requires Digits(b).Success?
    ensures var n := |b| - |Digits(b).value.rest|;
            && 0 < n <= |b| && Continues(b, n - 1) && b[n - 1] < 128 && Low(b, n) == Digits(b).value.value
            && b[n..] == Digits(b).value.rest && (n > 1 ==> b[n - 1] > 0)
  {
    if b[0] < 128 {
      assert Low(b, 1) == Low(b, 0) + b[0] % 128 * Pow128(0);
    } else {
      Shape(b[1..]);
      var n := |b| - |Digits(b).value.rest|;
      LowFront(b, n);
      forall i | 0 <= i < n - 1 ensures b[i] >= 128 {
        assert i > 0 ==> b[i] == b[1..][i - 1];
      }
      assert b[n - 1] == b[1..][n - 2];
      assert b[n..] == b[1..][n - 1..];
    }
  }

  lemma {:induction false} LowAtLeast(b: seq<byte>, k: nat)
    requires 0 < k <= |b|
    ensures Low(b, k) >= b[k - 1] % 128 * Pow128(k - 1)
  {
  }

  lemma {:induction false} PowMonotone(j: nat, k: nat)
    requires j <= k
    ensures Pow128(j) <= Pow128(k)
  {
    if j < k {
      PowMonotone(j, k - 1);
    }
  }

  lemma PowNine()
    ensures 2 * Pow128(9) == U64
  {
    assert Pow128(3) == 128 * Pow128(2) && Pow128(2) == 128 * Pow128(1);
    assert Pow128(5) == 128 * Pow128(4) && Pow128(4) == 128 * Pow128(3);
    assert Pow128(7) == 128 * Pow128(6) && Pow128(6) == 128 * Pow128(5);
    assert Pow128(9) == 128 * Pow128(8) && Pow128(8) == 128 * Pow128(7);
  }

  lemma Multiples(d: nat, p: nat)
    ensures d >= 1 ==> d * p >= p
    ensures d >= 2 ==> d * p >= 2 * p
  {
  }

  /** A non-zero last digit bounds the length. */
  lemma TopDigit(d: nat, n: nat)
    requires d >= 1 && n >= 1 && d * Pow128(n - 1) < U64
    ensures n <= 10 && (n == 10 ==> d == 1)
  {
    Multiples(d, Pow128(n - 1));
    PowNine();
    if n > 10 {
      PowMonotone(10, n - 1);
    }
  }

  /** A 64-bit value has at most ten bytes, and the tenth carries one bit. */
  lemma TenBytes(b: seq<byte>)
    requires Decode(b).Success?
    ensures var n := |b| - |Decode(b).value.rest|;
            0 < n <= 10 && n <= |b| && Continues(b, n - 1) && b[n - 1] < 128
            && Low(b, n) == Decode(b).value.value && b[n..] == Decode(b).value.rest && (n == 10 ==> b[9] <= 1)
  {
    Shape(b);
    var n := |b| - |Decode(b).value.rest|;
    if n > 1 {
      LowAtLeast(b, n);
      TopDigit(b[n - 1] % 128, n);
    }
  }

  /** A scan ends at one place only. */
  lemma FirstStop(b: seq<byte>, j: nat, k: nat)
    requires j < |b| && Continues(b, j) && b[j] < 128
    requires k < |b| && Continues(b, k) && b[k] < 128
    ensures j == k
  {
  }

  lemma StopsAfter(b: seq<byte>, j: nat, k: nat)
    requires j < |b| && b[j] < 128 && k <= |b| && Continues(b, k)
    ensures k <= j
  {
  }

  /** A scan that ends at byte `k` accepts what re-encodes to itself. */
  lemma ScanAccepts(b: seq<byte>, k: nat)
    requires k < |b| && Low(b, k + 1) < U64 && Encode(Low(b, k + 1)) == b[..k + 1]
    ensures Decode(b) == Success(Read(Low(b, k + 1), b[k + 1..]))
  {
    var v := Low(b, k + 1);
    assert b == b[..k + 1] + b[k + 1..];
    DigitsOfEncoding(v, b[k + 1..]);
  }

  /** What is accepted re-encodes to itself, so the test refuses nothing else. */
  lemma ScanRefuses(b: seq<byte>, k: nat)
    requires k < |b| && Continues(b, k) && b[k] < 128 && Decode(b).Success?
    ensures Encode(Low(b, k + 1)) == b[..k + 1]
  {
    TenBytes(b);
    EncodingOfDigits(b);
    FirstStop(b, |b| - |Decode(b).value.rest| - 1, k);
  }

  lemma ScanEnds(b: seq<byte>, k: nat)
    requires k < |b| && Continues(b, k) && b[k] < 128 && Low(b, k + 1) < U64
    ensures Encode(Low(b, k + 1)) == b[..k + 1] ==> Decode(b) == Success(Read(Low(b, k + 1), b[k + 1..]))
    ensures Encode(Low(b, k + 1)) != b[..k + 1] ==> Decode(b).Failure?
  {
    if Encode(Low(b, k + 1)) == b[..k + 1] {
      ScanAccepts(b, k);
    } else if Decode(b).Success? {
      ScanRefuses(b, k);
    }
  }

  /** A scan that has not ended after `k` bytes needs another byte, and never an eleventh. */
  lemma ScanContinues(b: seq<byte>, k: nat)
    requires k <= |b| && Continues(b, k)
    ensures k == |b| || k >= 10 || (k == 9 && b[9] % 128 > 1) ==> Decode(b).Failure?
  {
    if Decode(b).Success? {
      TenBytes(b);
      StopsAfter(b, |b| - |Decode(b).value.rest| - 1, k);
    }
  }

  lemma {:induction false} LowBound(b: seq<byte>, k: nat)
    requires k <= |b|
    ensures Low(b, k) < Pow128(k)
  {
    if k > 0 {
      LowBound(b, k - 1);
      Carry(Low(b, k - 1), b[k - 1] % 128, Pow128(k - 1));
    }
  }

  lemma Carry(low: nat, d: nat, p: nat)
    requires low < p && d < 128
    ensures low + d * p < 128 * p
  {
    assert (d + 1) * p <= 128 * p;
    assert (d + 1) * p == d * p + p;
  }

  /** The value stays within 64 bits as long as the tenth byte carries at most one bit. */
  lemma LowFits(b: seq<byte>, k: nat)
    requires k < |b| && k <= 9 && (k == 9 ==> b[9] % 128 <= 1)
    ensures Low(b, k + 1) < U64
  {
    PowNine();
    if k < 9 {
      LowBound(b, k + 1);
      PowMonotone(k + 1, 9);
    } else {
      LowBound(b, 9);
      var d := b[9] % 128;
      assert d * Pow128(9) <= Pow128(9);
    }
  }

  // ---------------------------------------------------------- the decoders

  /** `read_varuint` of the codec crate. */
  method ReadVarUInt(input: seq<byte>) returns (r: Result<Read<nat>>)
    ensures r == Decode(input)
  {
    var value, consumed := 0, 0;
    while true
      invariant 0 <= consumed <= |input| && consumed <= 10
      invariant Continues(input, consumed) && value == Low(input, consumed)
      decreases 10 - consumed
    {
      ScanContinues(input, consumed);
      if consumed >= 10 || consumed >= |input| {
        return Failure;
      }
      var payload := input[consumed] % 128;
      if consumed == 9 && payload > 1 {
        return Failure;
      }
      LowFits(input, consumed);
      value := value + payload * Pow128(consumed);
      consumed := consumed + 1;
      if input[consumed - 1] < 128 {
        break;
      }
    }
    ScanEnds(input, consumed - 1);
    var canonical := WriteVarUInt([], value);
    assert [] + Encode(value) == Encode(value);
    if canonical != input[..consumed] {
      return Failure;
    }
    return Success(Read(value, input[consumed..]));
  }

  /** `pack_m_read_varuint` of the protocol crate: the value and how many bytes it took. */
  method ReadPackM(input: seq<byte>) returns (r: Result<(nat, nat)>)
    ensures r.Success? <==> Decode(input).Success?
    ensures r.Success? ==> r.value.1 <= |input| && Decode(input) == Success(Read(r.value.0, input[r.value.1..]))
  {
    var value := 0;
    var i := 0;
    while i < |input| && i < 10
      invariant 0 <= i <= |input| && i <= 10
      invariant Continues(input, i) && value == Low(input, i)
    {
      var low := input[i] % 128;
      ScanContinues(input, i);
      if i == 9 && low > 1 {
        return Failure;
      }
      LowFits(input, i);
      value := value + low * Pow128(i);
      if input[i] < 128 {
        ScanEnds(input, i);
        var canonical := WriteVarUInt([], value);
        assert [] + Encode(value) == Encode(value);
        if canonical != input[..i + 1] {
          return Failure;
        }
        return Success((value, i + 1));
      }
      i := i + 1;
    }
    ScanContinues(input, i);
    return Failure;
  }

  /** The bootstrap witness reader: a byte string and a position. */
  class WitnessReader {
    const b: seq<byte>
    var p: nat

    constructor (b: seq<byte>)
      ensures this.b == b && p == 0
    {
      this.b := b;
      p := 0;
    }

    /** `var`: on success the position is just after the integer. */
    method Var() returns (r: Result<nat>)
      requires p <= |b|
      modifies this`p
      ensures p <= |b|
      ensures r.Success? <==> Decode(b[old(p)..]).Success?
      ensures r.Success? ==> Decode(b[old(p)..]) == Success(Read(r.value, b[p..]))
    {
      ghost var input := b[p..];
      var s, v, i := p, 0, 0;
      while i < 10
        invariant 0 <= i <= 10 && s == old(p) && p == s + i <= |b| && input == b[s..]
        invariant Continues(input, i) && v == Low(input, i)
      {
        ScanContinues(input, i);
        if p >= |b| {
          return Failure;
        }
        var x := b[p];
        p := p + 1;
        var lo := x % 128;
        assert x == input[i];
        if i == 9 && lo > 1 {
          return Failure;
        }
        LowFits(input, i);
        v := v + lo * Pow128(i);
        if x < 128 {
          ScanEnds(input, i);
          var c := WriteVarUInt([], v);
          assert [] + Encode(v) == Encode(v);
          assert b[s..p] == input[..i + 1] && b[p..] == input[i + 1..];
          if c != b[s..p] {
            return Failure;
          }
          return Success(v);
        }
        i := i + 1;
      }
      ScanContinues(input, i);
      return Failure;
    }
  }
}
