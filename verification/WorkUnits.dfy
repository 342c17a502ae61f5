/**
 Equal-work allocation and the target (crates/mutiny-consensus/src/lib.rs).

 With L eligible licences each one gets the least W for which
 W^25 * 65536^16 >= 2048^25 * min(L, 65536)^16, found by binary search over exact
 powers. The theorems hold for any such curve; `MUTINY` is the one in use.
 */
module WorkUnits {
  import opened Wrappers
  import opened Arithmetic
  import opened Bytes

  /** `max` work units at `saturation` licences, with exponents `p` over `q`. */
  datatype Curve = Curve(max: nat, saturation: nat, p: nat, q: nat)

  const MUTINY := Curve(2048, 65536, 25, 16)

  predicate CurveOk(c: Curve) {
    c.max >= 1 && c.saturation >= 1 && c.p >= 1 && c.q >= 1
  }

  // ------------------------------------------------------------------ powers

  function Pow(x: nat, k: nat): nat
    decreases k
  {
    if k == 0 then 1 else x * Pow(x, k - 1)
  }

  lemma {:induction false} PowMonotone(x: nat, y: nat, k: nat)
    requires x <= y
    ensures Pow(x, k) <= Pow(y, k)
    decreases k
  {
    if k > 0 {
      PowMonotone(x, y, k - 1);
      MulMonotone(x, y, Pow(x, k - 1), Pow(y, k - 1));
    }
  }

  lemma {:induction false} PowPositive(x: nat, k: nat)
    requires x >= 1
    ensures Pow(x, k) >= 1
    decreases k
  {
    if k > 0 {
      PowPositive(x, k - 1);
      MulMonotone(1, x, 1, Pow(x, k - 1));
    }
  }

  lemma PowStrict(x: nat, y: nat, k: nat)
    requires x < y && k >= 1
    ensures Pow(x, k) < Pow(y, k)
    decreases k
  {
    PowMonotone(x, y, k - 1);
    PowPositive(y, k - 1);
    MulMonotone(x, x, Pow(x, k - 1), Pow(y, k - 1));
    assert x * Pow(y, k - 1) + Pow(y, k - 1) == (x + 1) * Pow(y, k - 1);
    MulMonotone(x + 1, y, Pow(y, k - 1), Pow(y, k - 1));
  }

  // --------------------------------------------------------------- the curve

  function Min(a: nat, b: nat): nat {
    if a < b then a else b
  }

  /** `w` units are enough for `l` licences. */
  predicate Enough(c: Curve, w: nat, l: nat) {
    Pow(w, c.p) * Pow(c.saturation, c.q) >= Pow(c.max, c.p) * Pow(Min(l, c.saturation), c.q)
  }

  lemma EnoughForMore(c: Curve, w: nat, v: nat, l: nat)
    requires w <= v && Enough(c, w, l)
    ensures Enough(c, v, l)
  {
    PowMonotone(w, v, c.p);
    MulMonotone(Pow(w, c.p), Pow(v, c.p), Pow(c.saturation, c.q), Pow(c.saturation, c.q));
  }

  lemma EnoughForFewer(c: Curve, w: nat, l: nat, m: nat)
    requires l <= m && Enough(c, w, m)
    ensures Enough(c, w, l)
  {
    PowMonotone(Min(l, c.saturation), Min(m, c.saturation), c.q);
    MulMonotone(Pow(c.max, c.p), Pow(c.max, c.p), Pow(Min(l, c.saturation), c.q), Pow(Min(m, c.saturation), c.q));
  }

  lemma MaxIsEnough(c: Curve, l: nat)
    ensures Enough(c, c.max, l)
  {
    PowMonotone(Min(l, c.saturation), c.saturation, c.q);
    MulMonotone(Pow(c.max, c.p), Pow(c.max, c.p), Pow(Min(l, c.saturation), c.q), Pow(c.saturation, c.q));
  }

  /** The work allocation: enough, and the least that is. */
  predicate IsLeast(c: Curve, w: nat, l: nat) {
    Enough(c, w, l) && forall v :: 0 <= v < w ==> !Enough(c, v, l)
  }

  lemma LeastUnique(c: Curve, w: nat, l: nat)
    requires IsLeast(c, w, l)
    ensures forall v: nat :: IsLeast(c, v, l) ==> v == w
  {
  }

  /** No licences, no work. */
  lemma NoLicences(c: Curve)
    requires CurveOk(c)
    ensures IsLeast(c, 0, 0)
  {
    assert Pow(0, c.p) == 0 * Pow(0, c.p - 1);
    assert Pow(0, c.q) == 0 * Pow(0, c.q - 1);
  }

  /** At least one unit as soon as there is a licence. */
  lemma ZeroIsNotEnough(c: Curve, l: nat)
    requires CurveOk(c) && l > 0
    ensures !Enough(c, 0, l)
  {
    assert Pow(0, c.p) == 0 * Pow(0, c.p - 1);
    PowPositive(c.max, c.p);
    PowPositive(Min(l, c.saturation), c.q);
    MulMonotone(1, Pow(c.max, c.p), 1, Pow(Min(l, c.saturation), c.q));
  }

  /** From saturation on the allocation is the maximum. */
  lemma SaturatedIsMax(c: Curve, l: nat)
    requires CurveOk(c) && l >= c.saturation
    ensures IsLeast(c, c.max, l)
  {
    MaxIsEnough(c, l);
    PowPositive(c.saturation, c.q);
    forall v | 0 <= v < c.max ensures !Enough(c, v, l) {
      PowStrict(v, c.max, c.p);
      StrictProduct(Pow(v, c.p), Pow(c.max, c.p), Pow(c.saturation, c.q));
    }
  }

  lemma StrictProduct(a: nat, b: nat, x: nat)
    requires a < b && x >= 1
    ensures a * x < b * x
  {
    MulMonotone(a + 1, b, x, x);
    assert (a + 1) * x == a * x + x;
  }

  // -------------------------------------------------------------- the search

  /** `work_units`: binary search with the two large powers computed once. */
  method WorkUnitsFor(c: Curve, l: nat) returns (w: nat)
    requires CurveOk(c)
    ensures IsLeast(c, w, l) && w <= c.max
    ensures forall v: nat :: IsLeast(c, v, l) ==> v == w
  {
    MaxIsEnough(c, l);
    if l == 0 {
      NoLicences(c);
      LeastUnique(c, 0, l);
      return 0;
    }
    ZeroIsNotEnough(c, l);
    if l >= c.saturation {
      SaturatedIsMax(c, l);
      LeastUnique(c, c.max, l);
      return c.max;
    }
    var n, rhs := Pow(c.saturation, c.q), Pow(c.max, c.p) * Pow(l, c.q);
    var lo, hi := 1, c.max;
    while lo < hi
      invariant 1 <= lo <= hi <= c.max
      invariant Enough(c, hi, l) && !Enough(c, lo - 1, l)
    {
      var mid := lo + (hi - lo) / 2;
      if Pow(mid, c.p) * n >= rhs {
        hi := mid;
      } else {
        lo := mid + 1;
      }
    }
    forall v | 0 <= v < lo ensures !Enough(c, v, l) {
      if Enough(c, v, l) { EnoughForMore(c, v, lo - 1, l); }
    }
    LeastUnique(c, lo, l);
    return lo;
  }

  /** More licences never mean less work each, and never less capacity. */
  lemma AllocationMonotone(c: Curve, l: nat, m: nat, w: nat, v: nat)
    requires l <= m && IsLeast(c, w, l) && IsLeast(c, v, m)
    ensures w <= v && l * w <= m * v
  {
    EnoughForFewer(c, v, l, m);
    MulMonotone(l, m, w, v);
  }

  /** `authorized_capacity` fits 128 bits for every 64-bit licence count. */
  lemma CapacityFits(l: nat, w: nat)
    requires l < U64 && w <= MUTINY.max
    ensures l * w < 0x1_0000_0000_0000_0000_0000_0000_0000_0000
  {
    MulMonotone(l, 0xFFFF_FFFF_FFFF_FFFF, w, 2048);
  }

  // ---------------------------------------------------------------- the target

  /** The target before it is capped. */
  function Corrected(space: nat, capacity: nat, correction: nat, one: nat): nat
    requires capacity > 0 && one > 0
  {
    space / capacity * correction / one
  }

  /** `derive_target`, for a hash space of any size and any unit of correction. */
  function DeriveIn(space: nat, capacity: nat, correction: nat, one: nat): Result<nat>
    requires space > 0 && one > 0
  {
    if capacity == 0 then Failure else Success(Min(space - 1, Corrected(space, capacity, correction, one)))
  }

  /** `derive_target`: 256-bit hashes, and 32 fractional bits of correction. */
  function DeriveTarget(capacity: nat, correction: nat): Result<nat> {
    DeriveIn(TWO_256, capacity, correction, 0x1_0000_0000)
  }

  lemma Floor(a: nat, b: nat)
    requires b > 0
    ensures a / b * b <= a < (a / b + 1) * b
  {
    assert a == a / b * b + a % b;
  }

  /** Both roundings are downward, and together lose less than one unit of each kind. */
  lemma CorrectedBounds(space: nat, capacity: nat, correction: nat, one: nat)
    requires capacity > 0 && one > 0
    ensures var t := Corrected(space, capacity, correction, one);
            && t * (capacity * one) <= space * correction
            && space * correction <= (t + 1) * (capacity * one) + capacity * correction
  {
    var base := space / capacity;
    var t := Corrected(space, capacity, correction, one);
    Floor(space, capacity);
    Floor(base * correction, one);
    LowerChain(space, capacity, correction, one, base, t);
    UpperChain(space, capacity, correction, one, base, t);
  }

  lemma LowerChain(space: nat, capacity: nat, correction: nat, one: nat, base: nat, t: nat)
    requires base * capacity <= space && t * one <= base * correction
    ensures t * (capacity * one) <= space * correction
  {
    MulMonotone(t * one, base * correction, capacity, capacity);
    MulMonotone(base * capacity, space, correction, correction);
    assert t * one * capacity == t * (capacity * one);
    assert base * correction * capacity == base * capacity * correction;
  }

  lemma UpperChain(space: nat, capacity: nat, correction: nat, one: nat, base: nat, t: nat)
    requires space < (base + 1) * capacity && base * correction < (t + 1) * one
    ensures space * correction <= (t + 1) * (capacity * one) + capacity * correction
  {
    MulMonotone(space, (base + 1) * capacity, correction, correction);
    MulMonotone(base * correction, (t + 1) * one, capacity, capacity);
    assert (base + 1) * capacity * correction == base * correction * capacity + capacity * correction;
    assert (t + 1) * one * capacity == (t + 1) * (capacity * one);
  }

  /**
   Target times capacity never exceeds the space scaled by the correction, and unless it
   is capped falls short of it by less than one of each rounding.
   */
  lemma TargetBounded(space: nat, capacity: nat, correction: nat, one: nat)
    requires space > 0 && one > 0
    ensures DeriveIn(space, capacity, correction, one).Success? <==> capacity > 0
    ensures capacity > 0 ==>
              var t := DeriveIn(space, capacity, correction, one).value;
              && t < space && t * (capacity * one) <= space * correction
              && (t < space - 1 ==> space * correction <= (t + 1) * (capacity * one) + capacity * correction)
  {
    if capacity > 0 {
      var full, t := Corrected(space, capacity, correction, one), DeriveIn(space, capacity, correction, one).value;
      CorrectedBounds(space, capacity, correction, one);
      MulMonotone(t, full, capacity * one, capacity * one);
    }
  }

  /** Without correction, one unit of capacity has the whole space and two have half of it. */
  lemma TargetUnits()
    ensures DeriveTarget(1, 0x1_0000_0000) == Success(TWO_256 - 1)
    ensures DeriveTarget(2, 0x1_0000_0000) == Success(TWO_255)
  {
  }

  lemma DivMonotone(a: nat, b: nat, d: nat)
    requires a <= b && d > 0
    ensures a / d <= b / d
  {
    Floor(a, d);
    Floor(b, d);
    if a / d > b / d {
      MulMonotone(b / d + 1, a / d, d, d);
    }
  }

  lemma DivAntitone(a: nat, d: nat, e: nat)
    requires 0 < d <= e
    ensures a / e <= a / d
  {
    Floor(a, d);
    Floor(a, e);
    if a / e > a / d {
      MulMonotone(a / d + 1, a / e, d, e);
    }
  }

  /** More capacity never makes the target easier; a larger correction never makes it harder. */
  lemma TargetMonotone(space: nat, one: nat, a: nat, b: nat, c: nat, d: nat)
    requires space > 0 && one > 0 && 0 < a <= b && c <= d
    ensures DeriveIn(space, b, c, one).value <= DeriveIn(space, a, d, one).value
  {
    DivAntitone(space, a, b);
    MulMonotone(space / b, space / a, c, d);
    DivMonotone(space / b * c, space / a * d, one);
  }
}
