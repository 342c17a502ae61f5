/**
 Bitcoin header fields and the mainnet difficulty rules
 (crates/mutiny-bitcoin/src/lib.rs).
 */
module HeaderRules {
  import opened Arithmetic
  import opened Bytes
  import opened Wrappers
  import opened CompactTarget
  import Sorting

  datatype BlockHash = BlockHash(bytes: seq<byte>)

  /** The fields of an 80-byte block header. */
  datatype Header = Header(version: u32, previous: BlockHash, merkleRoot: BlockHash,
                           timestamp: u32, bits: u32, nonce: u32)

  /** The double SHA-256 of the header's bytes: an unknown function of its fields. */
  const HashOf: Header -> BlockHash

  const POW_LIMIT_BITS: u32 := 0x1d00_ffff
  const RETARGET_INTERVAL := 2016
  const TARGET_TIMESPAN := 1_209_600

  /** `validate_mainnet_target_bits` */
  function MainnetTarget(bits: u32): (r: Result<nat>) {
    var target :- CanonicalTarget(bits);
    var limit :- Target(POW_LIMIT_BITS);
    if target > limit then Failure else Success(target)
  }

  /** `header_meets_pow`: the hash, read as a little-endian number, is at most the target. */
  function MeetsPow(h: Header): (r: Result<bool>) {
    var target :- Target(h.bits);
    Success(LeNat(HashOf(h).bytes) <= target)
  }

  /** `header_meets_mainnet_pow` */
  function MeetsMainnetPow(h: Header): (r: Result<bool>) {
    var target :- MainnetTarget(h.bits);
    Success(LeNat(HashOf(h).bytes) <= target)
  }

  /** Division of the unbounded integers that `BigUint` models. */
  function FloorDiv(n: nat, d: nat): (q: nat)
    requires d > 0
    ensures q * d <= n < (q + 1) * d
  {
    DivBounds(n, d);
    n / d
  }

  /** `bitcoin_header_work_be`: floor(2^256 / (target + 1)), which must fit 32 bytes. */
  function HeaderWork(bits: u32): (r: Result<nat>) {
    var target :- CanonicalTarget(bits);
    var work := FloorDiv(TWO_256, target + 1);
    if work >= TWO_256 then Failure else Success(work)
  }

  /** `add_chainwork_be` */
  function AddChainwork(parent: nat, work: nat): (r: Result<nat>) {
    if parent + work >= TWO_256 then Failure else Success(parent + work)
  }

  /** The old target scaled by the elapsed share of the target timespan. */
  function Scaled(prior: nat, elapsed: nat): (t: nat) {
    FloorDiv(Product(prior, elapsed), TARGET_TIMESPAN)
  }

  function Product(a: nat, b: nat): (p: nat) { a * b }

  function Capped(prior: nat, elapsed: nat, limit: nat): (t: nat) {
    var scaled := Scaled(prior, elapsed);
    if scaled > limit then limit else scaled
  }

  function Clamp(x: int, lo: int, hi: int): int
    requires lo <= hi
  {
    if x < lo then lo else if x > hi then hi else x
  }

  /** The elapsed time used by a retarget: limited to a factor of four either way. */
  function Elapsed(first: u32, last: u32): (e: nat)
    ensures TARGET_TIMESPAN / 4 <= e <= TARGET_TIMESPAN * 4
  {
    Clamp(last - first, TARGET_TIMESPAN / 4, TARGET_TIMESPAN * 4)
  }

  /** `bitcoin_mainnet_retarget_bits` */
  function RetargetBits(oldBits: u32, first: u32, last: u32): (r: Result<u32>) {
    var prior :- MainnetTarget(oldBits);
    var limit :- Target(POW_LIMIT_BITS);
    CompactBits(Capped(prior, Elapsed(first, last), limit))
  }

  /** `expected_mainnet_bits` */
  function ExpectedBits(nextHeight: nat, parentBits: u32, first: u32, parentTime: u32): (r: Result<u32>) {
    var _ :- MainnetTarget(parentBits);
    if nextHeight % RETARGET_INTERVAL != 0 then Success(parentBits)
    else RetargetBits(parentBits, first, parentTime)
  }

  predicate Earlier(a: u32, b: u32) { a <= b }

  /** `median_timestamp_11` */
  function Median11(times: seq<u32>): (m: u32)
    requires |times| == 11
  {
    Sorting.Sort<u32>(Earlier, times)[5]
  }

  /** The median is the sixth smallest of the eleven times. */
  lemma Median11IsMedian(times: seq<u32>)
    requires |times| == 11
    ensures exists s: seq<u32> ::
              && multiset(s) == multiset(times) && |s| == 11 && s[5] == Median11(times)
              && forall i, j :: 0 <= i < j < 11 ==> s[i] <= s[j]
  {
    Sorting.SortSorted<u32>(Earlier, times);
    var s := Sorting.Sort<u32>(Earlier, times);
    assert forall i, j :: 0 <= i < j < 11 ==> Earlier(s[i], s[j]);
  }

  /** `validate_mainnet_header_rules`: the work of an accepted header. */
  function ValidateMainnetHeader(h: Header, nextHeight: nat, parentBits: u32, first: u32,
                                 parentTime: u32, times: seq<u32>): (r: Result<nat>)
    requires |times| == 11
  {
    var expected :- ExpectedBits(nextHeight, parentBits, first, parentTime);
    if h.bits != expected then Failure
    else if h.timestamp <= Median11(times) then Failure
    else
      var pow :- MeetsMainnetPow(h);
      if !pow then Failure else HeaderWork(h.bits)
  }

  /** The Devnet branch of `validate_header_for_policy`. */
  function ValidateDevnetHeader(h: Header, bits: u32): (r: Result<nat>) {
    if h.bits != bits then Failure
    else
      var pow :- MeetsPow(h);
      if !pow then Failure else HeaderWork(h.bits)
  }

  // -------------------------------------------------------------------- work

  lemma DivBounds(n: nat, d: nat)
    requires d > 0
    ensures 0 <= n / d && n / d * d <= n < (n / d + 1) * d
  {
    assert n == d * (n / d) + n % d;
    assert (n / d + 1) * d == n / d * d + d;
  }

  /** Work exists for exactly the canonical bits, inverts the target, and lies in 2..2^255. */
  lemma WorkBounds(bits: u32)
    ensures HeaderWork(bits).Success? <==> CanonicalTarget(bits).Success?
    ensures HeaderWork(bits).Success? ==>
              var w, t := HeaderWork(bits).value, CanonicalTarget(bits).value;
              && 2 <= w <= TWO_255
              && w * (t + 1) <= TWO_256 < (w + 1) * (t + 1)
  {
    if CanonicalTarget(bits).Success? {
      CanonicalBounds(bits);
      var t := CanonicalTarget(bits).value;
      WorkRange(t);
    }
  }

  lemma WorkRange(t: nat)
    requires 0 < t < TWO_255
    ensures 2 <= FloorDiv(TWO_256, t + 1) <= TWO_255
  {
    var w := FloorDiv(TWO_256, t + 1);
    if w < 2 {
      MulMonotone(w + 1, 2, t + 1, t + 1);
      assert false;
    }
    MulMonotone(2, t + 1, w, w);
  }

  /** Adding a header's work strictly raises the chainwork, when it still fits. */
  lemma ChainworkGrows(parent: nat, bits: u32)
    requires HeaderWork(bits).Success?
    requires AddChainwork(parent, HeaderWork(bits).value).Success?
    ensures parent + 2 <= AddChainwork(parent, HeaderWork(bits).value).value < TWO_256
  {
    WorkBounds(bits);
  }

  // --------------------------------------------------------------- retargets

  /** The limit is itself canonical, and every mainnet target is at most the limit. */
  lemma PowLimit()
    ensures Target(POW_LIMIT_BITS) == Success(0xffff * Pow256(26))
    ensures MainnetTarget(POW_LIMIT_BITS) == Target(POW_LIMIT_BITS)
    ensures 0 < 0xffff * Pow256(26) < TWO_255
  {
    LimitFields(POW_LIMIT_BITS, 29);
  }

  lemma LimitFields(bits: u32, e: nat)
    requires Exponent(bits) == e && Mantissa(bits) == 0xffff && !SignBit(bits) && 3 <= e <= 30
    ensures Target(bits) == Success(0xffff * Pow256(e - 3))
    ensures CanonicalTarget(bits) == Target(bits)
    ensures 0xffff * Pow256(e - 3) < TWO_255
  {
    TargetValue(bits);
    var limit := 0xffff * Pow256(e - 3);
    ScaledPower(e);
    Pow256Monotone(e, 31);
    TwoTo256();
    LimitNormal(Pow256(e - 3), Pow256(e));
    Reencode(limit, e, 0xffff, bits);
  }

  lemma LimitNormal(p: nat, q: nat)
    requires p >= 1 && q == 0x100_0000 * p
    ensures 0xffff * q <= (0xffff * p) * 0x100_0000 < 0x1_0000 * q
  {
  }

  /** The limit as a number. */
  lemma LimitOf() returns (limit: nat)
    ensures Target(POW_LIMIT_BITS) == Success(limit) && 0 < limit < TWO_255
    ensures CompactBits(limit) == Success(POW_LIMIT_BITS)
  {
    PowLimit();
    limit := Target(POW_LIMIT_BITS).value;
  }

  lemma RetargetShape(oldBits: u32, first: u32, last: u32, limit: nat)
    requires Target(POW_LIMIT_BITS) == Success(limit)
    ensures RetargetBits(oldBits, first, last).Success? ==> MainnetTarget(oldBits).Success?
    ensures MainnetTarget(oldBits).Success? ==>
              var prior := MainnetTarget(oldBits).value;
              prior <= limit
              && RetargetBits(oldBits, first, last) == CompactBits(Capped(prior, Elapsed(first, last), limit))
  {
  }

  /**
   A retarget of valid bits succeeds exactly when the scaled target is not zero,
   and then gives valid bits again whose target is at most four times the old one
   and at least a quarter of it, up to one floor and the loss of compact rounding.
   */
  lemma RetargetBounds(oldBits: u32, first: u32, last: u32)
    requires MainnetTarget(oldBits).Success?
    ensures var prior := MainnetTarget(oldBits).value;
            var r := RetargetBits(oldBits, first, last);
            && (r.Success? <==> prior * Elapsed(first, last) >= TARGET_TIMESPAN)
            && (r.Success? ==>
                  && MainnetTarget(r.value).Success?
                  && MainnetTarget(r.value).value <= 4 * prior
                  && (prior / 4) * 0x7fff <= MainnetTarget(r.value).value * 0x8000)
  {
    var limit := LimitOf();
    RetargetShape(oldBits, first, last, limit);
    BoundsOf(MainnetTarget(oldBits).value, Elapsed(first, last), limit);
  }

  lemma BoundsOf(prior: nat, e: nat, limit: nat)
    requires Target(POW_LIMIT_BITS) == Success(limit) && prior <= limit < TWO_255
    requires TARGET_TIMESPAN / 4 <= e <= TARGET_TIMESPAN * 4
    ensures var r := CompactBits(Capped(prior, e, limit));
            && (r.Success? <==> prior * e >= TARGET_TIMESPAN)
            && (r.Success? ==>
                  && MainnetTarget(r.value).Success?
                  && MainnetTarget(r.value).value <= 4 * prior
                  && (prior / 4) * 0x7fff <= MainnetTarget(r.value).value * 0x8000)
  {
    ScaledRange(prior, e);
    var scaled, capped := Scaled(prior, e), Capped(prior, e, limit);
    if capped > 0 {
      RoundedTarget(capped, limit);
      KeepsBounds(prior, scaled, limit, capped, MainnetTarget(CompactBits(capped).value).value);
    }
  }

  lemma KeepsBounds(prior: nat, scaled: nat, limit: nat, capped: nat, rounded: nat)
    requires prior <= limit && prior / 4 <= scaled <= 4 * prior
    requires capped == if scaled > limit then limit else scaled
    requires rounded <= capped && capped * 0x7fff <= rounded * 0x8000
    ensures rounded <= 4 * prior && (prior / 4) * 0x7fff <= rounded * 0x8000
  {
    MulMonotone(prior / 4, capped, 0x7fff, 0x7fff);
  }

  /** Compact rounding of a target at or below the limit. */
  lemma RoundedTarget(capped: nat, limit: nat)
    requires Target(POW_LIMIT_BITS) == Success(limit) && 0 < capped <= limit < TWO_255
    ensures CompactBits(capped).Success? && MainnetTarget(CompactBits(capped).value).Success?
    ensures MainnetTarget(CompactBits(capped).value) == Target(CompactBits(capped).value)
    ensures var rounded := MainnetTarget(CompactBits(capped).value).value;
            rounded <= capped && capped * 0x7fff <= rounded * 0x8000
  {
    CompactRoundTrip(capped);
    var bits := CompactBits(capped).value;
    assert CanonicalTarget(bits) == Target(bits);
  }

  lemma ScaledRange(prior: nat, elapsed: nat)
    requires TARGET_TIMESPAN / 4 <= elapsed <= TARGET_TIMESPAN * 4
    ensures var scaled := Scaled(prior, elapsed);
            && prior / 4 <= scaled <= 4 * prior
            && (scaled > 0 <==> prior * elapsed >= TARGET_TIMESPAN)
  {
    MulMonotone(TARGET_TIMESPAN / 4, elapsed, prior, prior);
    MulMonotone(elapsed, TARGET_TIMESPAN * 4, prior, prior);
  }

  /** `e` is the time from `first` to `last`, limited to between half a week and eight weeks. */
  predicate IsPeriod(first: u32, last: u32, e: nat) {
    || 302_400 <= last - first == e <= 4_838_400
    || last - first < 302_400 == e
    || last - first > 4_838_400 == e
  }

  /**
   `next` is `product` over two weeks: never more, less only by one floor and compact
   rounding, and the limit whenever the quotient reaches it.
   */
  predicate IsQuotient(product: int, limit: int, next: int) {
    && next * 1_209_600 <= product
    && (product < limit * 1_209_600 ==> (product - 1_209_600) * 0x7fff < next * 1_209_600 * 0x8000)
    && (product >= limit * 1_209_600 ==> next == limit)
  }

  /** What a retarget gives for this product of old target and period. */
  predicate Retargets(r: Result<u32>, product: int, limit: int) {
    && (r.Success? <==> product >= 1_209_600)
    && (r.Success? ==>
          MainnetTarget(r.value).Success? && IsQuotient(product, limit, MainnetTarget(r.value).value))
  }

  /**
   A retarget fails exactly when the old target times the period is less than two weeks.
   Otherwise the new target is that product over two weeks.
   */
  lemma RetargetValue(oldBits: u32, first: u32, last: u32, e: nat, limit: nat)
    requires MainnetTarget(oldBits).Success? && IsPeriod(first, last, e) && Target(POW_LIMIT_BITS) == Success(limit)
    ensures Retargets(RetargetBits(oldBits, first, last), MainnetTarget(oldBits).value * e, limit)
  {
    var prior := MainnetTarget(oldBits).value;
    PeriodIs(first, last, e);
    RetargetShape(oldBits, first, last, limit);
    var found := LimitOf();
    RetargetOf(prior, e, limit);
  }

  lemma PeriodIs(first: u32, last: u32, e: nat)
    requires IsPeriod(first, last, e)
    ensures Elapsed(first, last) == e && 302_400 <= e <= 4_838_400
  {
  }

  lemma RetargetOf(prior: nat, e: nat, limit: nat)
    requires Target(POW_LIMIT_BITS) == Success(limit) && prior <= limit < TWO_255 && 302_400 <= e <= 4_838_400
    requires CompactBits(limit) == Success(POW_LIMIT_BITS)
    ensures Retargets(CompactBits(Capped(prior, e, limit)), Product(prior, e), limit)
  {
    var product, scaled, capped := Product(prior, e), Scaled(prior, e), Capped(prior, e, limit);
    FloorZero(product, scaled);
    if capped > 0 {
      RoundedTarget(capped, limit);
      var next := MainnetTarget(CompactBits(capped).value).value;
      CappedQuotient(product, scaled, limit, capped, next);
    }
  }

  lemma FloorZero(product: nat, scaled: nat)
    requires scaled * TARGET_TIMESPAN <= product < (scaled + 1) * TARGET_TIMESPAN
    ensures scaled > 0 <==> product >= TARGET_TIMESPAN
  {
  }

  lemma CappedQuotient(product: nat, scaled: nat, limit: nat, capped: nat, next: nat)
    requires scaled * TARGET_TIMESPAN <= product < (scaled + 1) * TARGET_TIMESPAN
    requires capped == if scaled > limit then limit else scaled
    requires next <= capped && capped * 0x7fff <= next * 0x8000 && (capped == limit ==> next == limit)
    ensures IsQuotient(product, limit, next)
  {
  }

  /** A period exactly on time leaves the bits as they were. */
  lemma OnTimeKeepsBits(oldBits: u32, first: u32, last: u32)
    requires MainnetTarget(oldBits).Success? && last - first == 1_209_600
    ensures RetargetBits(oldBits, first, last) == Success(oldBits)
  {
    var limit := LimitOf();
    RetargetShape(oldBits, first, last, limit);
    OnTimeScale(MainnetTarget(oldBits).value);
  }

  lemma OnTimeScale(prior: nat)
    ensures Scaled(prior, 1_209_600) == prior
  {
  }

  /** Compact rounding keeps the order of targets. */
  lemma RoundingMonotone(a: nat, b: nat)
    requires 0 < a <= b < TWO_255
    ensures CompactBits(a).Success? && CompactBits(b).Success?
    ensures Target(CompactBits(a).value).Success? && Target(CompactBits(b).value).Success?
    ensures Target(CompactBits(a).value).value <= Target(CompactBits(b).value).value
  {
    CompactRoundTrip(a);
    CompactRoundTrip(b);
    var x, y := Target(CompactBits(a).value).value, Target(CompactBits(b).value).value;
    CompactBitsMonotone(a, b);
    if y < x {
      CompactBitsMonotone(y, x);
    }
  }

  /** A slower period never lowers the target, and never makes a retarget fail. */
  lemma SlowerIsEasier(oldBits: u32, first: u32, last: u32, later: u32)
    requires RetargetBits(oldBits, first, last).Success? && last <= later
    ensures RetargetBits(oldBits, first, later).Success?
    ensures MainnetTarget(RetargetBits(oldBits, first, last).value).Success?
    ensures MainnetTarget(RetargetBits(oldBits, first, later).value).Success?
    ensures MainnetTarget(RetargetBits(oldBits, first, last).value).value
            <= MainnetTarget(RetargetBits(oldBits, first, later).value).value
  {
    var limit := LimitOf();
    RetargetShape(oldBits, first, last, limit);
    RetargetShape(oldBits, first, later, limit);
    var a, b := Elapsed(first, last), Elapsed(first, later);
    LaterIsLonger(first, last, later);
    CappedMonotone(MainnetTarget(oldBits).value, a, b, limit);
  }

  lemma LaterIsLonger(first: u32, last: u32, later: u32)
    requires last <= later
    ensures Elapsed(first, last) <= Elapsed(first, later)
  {
  }

  lemma CappedMonotone(prior: nat, e: nat, f: nat, limit: nat)
    requires e <= f && Target(POW_LIMIT_BITS) == Success(limit) && 0 < limit < TWO_255
    requires CompactBits(Capped(prior, e, limit)).Success?
    ensures CompactBits(Capped(prior, f, limit)).Success?
    ensures var a, b := CompactBits(Capped(prior, e, limit)).value, CompactBits(Capped(prior, f, limit)).value;
            MainnetTarget(a).Success? && MainnetTarget(b).Success? && MainnetTarget(a).value <= MainnetTarget(b).value
  {
    ScaledMonotone(prior, e, f);
    var a, b := Capped(prior, e, limit), Capped(prior, f, limit);
    RoundedTarget(a, limit);
    RoundedTarget(b, limit);
    RoundingMonotone(a, b);
  }

  lemma ScaledMonotone(prior: nat, e: nat, f: nat)
    requires e <= f
    ensures Scaled(prior, e) <= Scaled(prior, f)
  {
    MulMonotone(prior, prior, e, f);
    FloorMonotone(Product(prior, e), Product(prior, f), Scaled(prior, e), Scaled(prior, f));
  }

  lemma FloorMonotone(m: nat, n: nat, a: nat, b: nat)
    requires m <= n && a * TARGET_TIMESPAN <= m && n < (b + 1) * TARGET_TIMESPAN
    ensures a <= b
  {
  }

  /**
   How the target of a header may relate to its parent's: both valid, equal between
   boundaries, within the retarget bounds at one.
   */
  ghost predicate TargetStep(parentBits: u32, bits: u32, nextHeight: nat) {
    && MainnetTarget(parentBits).Success? && MainnetTarget(bits).Success?
    && var prior, next := MainnetTarget(parentBits).value, MainnetTarget(bits).value;
    && (nextHeight % RETARGET_INTERVAL != 0 ==> next == prior)
    && next <= 4 * prior && (prior / 4) * 0x7fff <= next * 0x8000
  }

  /**
   What an accepted mainnet header guarantees: a lawful target step from its
   parent, proof of work, a timestamp above the median, and the returned work.
   */
  lemma AcceptedMainnetHeader(h: Header, nextHeight: nat, parentBits: u32, first: u32,
                              parentTime: u32, times: seq<u32>)
    requires |times| == 11
    requires ValidateMainnetHeader(h, nextHeight, parentBits, first, parentTime, times).Success?
    ensures TargetStep(parentBits, h.bits, nextHeight)
    ensures LeNat(HashOf(h).bytes) <= MainnetTarget(h.bits).value && Median11(times) < h.timestamp
    ensures var work := ValidateMainnetHeader(h, nextHeight, parentBits, first, parentTime, times).value;
            HeaderWork(h.bits) == Success(work) && 2 <= work <= TWO_255
  {
    if nextHeight % RETARGET_INTERVAL == 0 {
      RetargetBounds(parentBits, first, parentTime);
    }
    WorkBounds(h.bits);
  }

  /**
   A mainnet header is accepted exactly when it carries the bits that the height asks for
   (its parent's, or those of the retarget), is later than the median of the eleven times,
   and its hash is at most its target.
   */
  lemma MainnetHeaderIff(h: Header, nextHeight: nat, parentBits: u32, first: u32, parentTime: u32, times: seq<u32>)
    requires |times| == 11
    ensures ValidateMainnetHeader(h, nextHeight, parentBits, first, parentTime, times).Success? <==>
            && MainnetTarget(parentBits).Success?
            && (if nextHeight % 2016 != 0 then h.bits == parentBits
                else RetargetBits(parentBits, first, parentTime) == Success(h.bits))
            && Median11(times) < h.timestamp
            && Target(h.bits).Success? && LeNat(HashOf(h).bytes) <= Target(h.bits).value
  {
    if ExpectedBits(nextHeight, parentBits, first, parentTime).Success? {
      ExpectedIsTarget(nextHeight, parentBits, first, parentTime);
    }
    WorkBounds(h.bits);
  }

  lemma ExpectedIsTarget(nextHeight: nat, parentBits: u32, first: u32, parentTime: u32)
    requires ExpectedBits(nextHeight, parentBits, first, parentTime).Success?
    ensures MainnetTarget(ExpectedBits(nextHeight, parentBits, first, parentTime).value).Success?
  {
    if nextHeight % RETARGET_INTERVAL == 0 {
      RetargetBounds(parentBits, first, parentTime);
    }
  }

  /**
   A Devnet header is accepted exactly when it carries the fixed bits, these are canonical,
   and its hash is at most their target; it then counts with the work of those bits.
   */
  lemma DevnetHeaderIff(h: Header, bits: u32)
    ensures ValidateDevnetHeader(h, bits).Success? <==>
            h.bits == bits && CanonicalTarget(bits).Success? && LeNat(HashOf(h).bytes) <= CanonicalTarget(bits).value
    ensures ValidateDevnetHeader(h, bits).Success? ==> ValidateDevnetHeader(h, bits) == HeaderWork(bits)
  {
    WorkBounds(bits);
  }
}
