/**
 Byte strings and the fixed-width integers stored in them.

 Big-endian and little-endian numerals are given by `BeNat`/`LeNat`; the two
 directions of each encoding are shown to be inverse of one another.
 */
module Bytes {

  type byte = b: int | 0 <= b < 256

  /** 256^k */
  function Pow256(k: nat): (p: nat)
    ensures p >= 1
  {
    if k == 0 then 1 else 256 * Pow256(k - 1)
  }

  /** The number written by big-endian digits. */
  function BeNat(s: seq<byte>): (n: nat) {
    if s == [] then 0 else 256 * BeNat(s[..|s| - 1]) + s[|s| - 1]
  }

  /** The `width` big-endian digits of `n`, wrapping as an `as uN` cast does. */
  function BeBytes(n: nat, width: nat): (s: seq<byte>)
    ensures |s| == width
  {
    if width == 0 then [] else BeBytes(n / 256, width - 1) + [n % 256]
  }

  lemma {:induction false} BeNatBound(s: seq<byte>)
    ensures BeNat(s) < Pow256(|s|)
  {
    if s != [] {
      BeNatBound(s[..|s| - 1]);
    }
  }

  lemma {:induction false} BeBytesOfBeNat(s: seq<byte>)
    ensures BeBytes(BeNat(s), |s|) == s
  {
    if s != [] {
      BeBytesOfBeNat(s[..|s| - 1]);
      DivModDigit(s[|s| - 1], BeNat(s[..|s| - 1]));
      assert s == s[..|s| - 1] + [s[|s| - 1]];
    }
  }

  lemma {:induction false} BeNatOfBeBytes(n: nat, width: nat)
    requires n < Pow256(width)
    ensures BeNat(BeBytes(n, width)) == n
  {
    if width > 0 {
      BeNatOfBeBytes(n / 256, width - 1);
      var s := BeBytes(n, width);
      assert s[..width - 1] == BeBytes(n / 256, width - 1);
    }
  }

  lemma {:induction false} BeNatConcat(a: seq<byte>, b: seq<byte>)
    ensures BeNat(a + b) == BeNat(a) * Pow256(|b|) + BeNat(b)
  {
    if b == [] {
      assert a + b == a;
    } else {
      BeNatConcat(a, b[..|b| - 1]);
      var s := a + b;
      assert s[..|s| - 1] == a + b[..|b| - 1];
      ShiftDigits(BeNat(a), Pow256(|b| - 1), BeNat(b[..|b| - 1]));
    }
  }

  lemma ShiftDigits(x: nat, p: nat, y: nat)
    ensures 256 * (x * p + y) == x * (256 * p) + 256 * y
  {
  }

  /** The number written by little-endian digits. */
  function LeNat(s: seq<byte>): (n: nat) {
    if s == [] then 0 else s[0] + 256 * LeNat(s[1..])
  }

  function LeBytes(n: nat, width: nat): (s: seq<byte>)
    ensures |s| == width
  {
    if width == 0 then [] else [n % 256] + LeBytes(n / 256, width - 1)
  }

  lemma {:induction false} LeNatBound(s: seq<byte>)
    ensures LeNat(s) < Pow256(|s|)
  {
    if s != [] {
      LeNatBound(s[1..]);
    }
  }

  lemma {:induction false} LeBytesOfLeNat(s: seq<byte>)
    ensures LeBytes(LeNat(s), |s|) == s
  {
    if s != [] {
      LeBytesOfLeNat(s[1..]);
      DivModDigit(s[0], LeNat(s[1..]));
      assert s == [s[0]] + s[1..];
    }
  }

  lemma DivModDigit(d: byte, n: nat)
    ensures (d + 256 * n) % 256 == d && (d + 256 * n) / 256 == n
  {
  }

  lemma {:induction false} LeNatOfLeBytes(n: nat, width: nat)
    requires n < Pow256(width)
    ensures LeNat(LeBytes(n, width)) == n
  {
    if width > 0 {
      LeNatOfLeBytes(n / 256, width - 1);
      assert LeBytes(n, width)[1..] == LeBytes(n / 256, width - 1);
    }
  }

  lemma Pow256Values()
    ensures Pow256(1) == 0x100
    ensures Pow256(2) == 0x1_0000
    ensures Pow256(3) == 0x100_0000
    ensures Pow256(4) == 0x1_0000_0000
    ensures Pow256(8) == 0x1_0000_0000_0000_0000
  {
    assert Pow256(4) == 256 * Pow256(3);
    assert Pow256(5) == 256 * Pow256(4);
    assert Pow256(6) == 256 * Pow256(5);
    assert Pow256(7) == 256 * Pow256(6);
    assert Pow256(8) == 256 * Pow256(7);
  }

  const TWO_255: nat := 0x8000_0000_0000_0000_0000_0000_0000_0000_0000_0000_0000_0000_0000_0000_0000_0000
  const TWO_256: nat := 2 * TWO_255

  lemma TwoTo256()
    ensures Pow256(32) == TWO_256 && 0x80 * Pow256(31) == TWO_255
  {
    Pow256Values();
    var p := Pow256(8);
    assert Pow256(12) == 0x1_0000_0000 * p by { FourMore(8); }
    assert Pow256(16) == 0x1_0000_0000 * Pow256(12) by { FourMore(12); }
    FourMore(16);
    FourMore(20);
    FourMore(24);
    FourMore(28);
    assert Pow256(32) == 256 * Pow256(31);
  }

  lemma FourMore(k: nat)
    ensures Pow256(k + 4) == 0x1_0000_0000 * Pow256(k)
  {
    assert Pow256(k + 4) == 256 * Pow256(k + 3);
    assert Pow256(k + 3) == 256 * Pow256(k + 2);
    assert Pow256(k + 2) == 256 * Pow256(k + 1);
  }

  /** Lexicographic order, which is how Rust compares byte slices and strings. */
  predicate LexLe(a: seq<byte>, b: seq<byte>) {
    a == [] || (b != [] && (a[0] < b[0] || (a[0] == b[0] && LexLe(a[1..], b[1..]))))
  }

  lemma {:induction false} LexLeReflexive(a: seq<byte>)
    ensures LexLe(a, a)
  {
    if a != [] {
      LexLeReflexive(a[1..]);
    }
  }

  lemma {:induction false} LexLeTotal(a: seq<byte>, b: seq<byte>)
    ensures LexLe(a, b) || LexLe(b, a)
  {
    if a != [] && b != [] && a[0] == b[0] {
      LexLeTotal(a[1..], b[1..]);
    }
  }

  lemma {:induction false} LexLeAntisymmetric(a: seq<byte>, b: seq<byte>)
    requires LexLe(a, b) && LexLe(b, a)
    ensures a == b
  {
    if a != [] {
      LexLeAntisymmetric(a[1..], b[1..]);
      assert a == [a[0]] + a[1..] && b == [b[0]] + b[1..];
    }
  }

  lemma {:induction false} LexLeTransitive(a: seq<byte>, b: seq<byte>, c: seq<byte>)
    requires LexLe(a, b) && LexLe(b, c)
    ensures LexLe(a, c)
  {
    if a != [] && a[0] == b[0] == c[0] {
      LexLeTransitive(a[1..], b[1..], c[1..]);
    }
  }

  /** After `k` common bytes `a` ends, or has the smaller byte. */
  predicate PartsAt(a: seq<byte>, b: seq<byte>, k: nat) {
    k <= |a| && k < |b| && a[..k] == b[..k] && (k == |a| || a[k] < b[k])
  }

  lemma {:induction false} PartingFound(a: seq<byte>, b: seq<byte>) returns (k: nat)
    requires LexLe(a, b) && a != b
    ensures PartsAt(a, b, k)
  {
    if a == [] || a[0] < b[0] {
      k := 0;
    } else {
      assert a == [a[0]] + a[1..] && b == [b[0]] + b[1..];
      var tail := PartingFound(a[1..], b[1..]);
      k := tail + 1;
      assert a[..k] == [a[0]] + a[1..][..tail] && b[..k] == [b[0]] + b[1..][..tail];
    }
  }

  lemma {:induction false} PartingOrders(a: seq<byte>, b: seq<byte>, k: nat)
    requires PartsAt(a, b, k)
    ensures LexLe(a, b) && a != b
  {
    if k > 0 {
      assert a[0] == a[..k][0] == b[..k][0] == b[0];
      assert a[1..][..k - 1] == a[..k][1..] && b[1..][..k - 1] == b[..k][1..];
      PartingOrders(a[1..], b[1..], k - 1);
    }
  }

  /** One byte string is before another exactly when it is smaller where they part. */
  lemma LexBeforeIff(a: seq<byte>, b: seq<byte>)
    ensures LexLe(a, b) && a != b <==> exists k: nat :: PartsAt(a, b, k)
  {
    if LexLe(a, b) && a != b {
      var k := PartingFound(a, b);
    }
    forall k: nat | PartsAt(a, b, k) ensures LexLe(a, b) && a != b {
      PartingOrders(a, b, k);
    }
  }
}
