/**
 Exactly which headers the store takes, and as which rows
 (crates/mutiny-node/src/bitcoin_headers.rs), said in terms of parent links, targets
 and hashes rather than of the lookups and rules that decide it.
 */
module HeaderAcceptance {
  import opened Bytes
  import opened Wrappers
  import opened CompactTarget
  import opened HeaderRules
  import opened HeaderStore

  // ----------------------------------------------------------------- ancestry

  /** The eleven context headers stand at the heights up to the anchor, in order. */
  lemma ContextHeaders(height: nat)
    requires |MainnetGenesisHeaders| == 11
    ensures ContextHeader(height).Some? <==> 963_638 <= height <= 963_648
    ensures ContextHeader(height).Some? ==> ContextHeader(height).value == MainnetGenesisHeaders[height - 963_638]
    ensures AnchorHash(Mainnet) == Success(HashOf(MainnetGenesisHeaders[10]))
  {
  }

  /** `line` follows parent links down from the header with this hash at this height. */
  ghost predicate IsLine(rows: Rows, hash: BlockHash, height: nat, line: seq<Header>) {
    && 0 < |line| <= height + 1 && HeaderAt(rows, hash, height) == Success(line[0])
    && forall i :: 0 < i < |line| ==> HeaderAt(rows, line[i - 1].previous, height - i) == Success(line[i])
  }

  ghost predicate Ancestor(rows: Rows, hash: BlockHash, height: nat, target: nat, a: Header) {
    && target <= height
    && exists line :: |line| == height - target + 1 && IsLine(rows, hash, height, line) && line[|line| - 1] == a
  }

  lemma LineTail(rows: Rows, hash: BlockHash, height: nat, line: seq<Header>)
    requires IsLine(rows, hash, height, line) && |line| > 1
    ensures IsLine(rows, line[0].previous, height - 1, line[1..])
  {
    forall i | 0 < i < |line[1..]|
      ensures HeaderAt(rows, line[1..][i - 1].previous, height - 1 - i) == Success(line[1..][i])
    {
      assert HeaderAt(rows, line[i].previous, height - (i + 1)) == Success(line[i + 1]);
    }
  }

  lemma LinePrefix(rows: Rows, hash: BlockHash, height: nat, first: Header, line: seq<Header>)
    requires height > 0 && HeaderAt(rows, hash, height) == Success(first)
    requires IsLine(rows, first.previous, height - 1, line)
    ensures IsLine(rows, hash, height, [first] + line)
  {
    var all := [first] + line;
    forall i | 0 < i < |all| ensures HeaderAt(rows, all[i - 1].previous, height - i) == Success(all[i]) {
      if i > 1 {
        assert HeaderAt(rows, line[i - 2].previous, height - 1 - (i - 1)) == Success(line[i - 1]);
      }
    }
  }

  /** The ancestry loop finds exactly the header that parent links lead to. */
  lemma {:induction false} LineageIff(rows: Rows, hash: BlockHash, height: nat, target: nat, a: Header)
    requires target <= height
    ensures Lineage(rows, hash, height, target) == Success(a) <==> Ancestor(rows, hash, height, target, a)
    decreases height
  {
    var current := HeaderAt(rows, hash, height);
    if height == target {
      if current == Success(a) {
        assert IsLine(rows, hash, height, [a]);
      }
    } else if current.Success? {
      LineageIff(rows, current.value.previous, height - 1, target, a);
      if Ancestor(rows, current.value.previous, height - 1, target, a) {
        var line :| |line| == height - target && IsLine(rows, current.value.previous, height - 1, line)
                    && line[|line| - 1] == a;
        LinePrefix(rows, hash, height, current.value, line);
        assert ([current.value] + line)[|line|] == a;
      }
      if Ancestor(rows, hash, height, target, a) {
        var line :| |line| == height - target + 1 && IsLine(rows, hash, height, line) && line[|line| - 1] == a;
        LineTail(rows, hash, height, line);
        assert line[1..][|line| - 2] == a;
      }
    }
  }

  /** In a consistent store every header of a line hashes to the link that leads to it. */
  lemma LineHashes(rules: RuleSet, policy: Policy, rows: Rows, hash: BlockHash, height: nat, line: seq<Header>, i: nat)
    requires Consistent(rules, policy, rows) && IsLine(rows, hash, height, line) && i < |line|
    ensures HashOf(line[i]) == if i == 0 then hash else line[i - 1].previous
  {
    var link := if i == 0 then hash else line[i - 1].previous;
    assert HeaderAt(rows, link, height - i) == Success(line[i]);
    if height - i > MAINNET_ANCHOR_HEIGHT {
      assert RowOk(rules, policy, rows, link);
    }
  }

  /** Conversely every row above the anchor, and every context header, is found at its height. */
  lemma RowsAreFound(rows: Rows, k: BlockHash)
    requires k in rows && rows[k].height > MAINNET_ANCHOR_HEIGHT
    ensures HeaderAt(rows, k, rows[k].height) == Success(rows[k].header)
  {
  }

  lemma ContextIsFound(rows: Rows, height: nat)
    requires ContextHeader(height).Some?
    ensures HeaderAt(rows, HashOf(ContextHeader(height).value), height) == Success(ContextHeader(height).value)
  {
  }

  /** The i-th lineage time is that of the ancestor at that height. */
  lemma {:induction false} TimesOfAncestors(rows: Rows, hash: BlockHash, height: nat, from: nat, times: seq<u32>)
    requires from <= height + 1 && from >= MAINNET_CONTEXT_START
    ensures LineageTimes(rows, hash, height, from) == Success(times) <==> AreTimes(rows, hash, height, from, times)
    decreases height + 1 - from
  {
    if from <= height {
      var head, rest := LineageHeader(rows, hash, height, from), LineageTimes(rows, hash, height, from + 1);
      if times != [] {
        TimesOfAncestors(rows, hash, height, from + 1, times[1..]);
        TimesShift(rows, hash, height, from, times);
      }
      if head.Success? {
        LineageIff(rows, hash, height, from, head.value);
      }
      if LineageTimes(rows, hash, height, from) == Success(times) {
        assert times[1..] == rest.value;
      }
      if AreTimes(rows, hash, height, from, times) {
        assert TimeAt(rows, hash, height, from, times, from);
        var a :| Ancestor(rows, hash, height, from, a) && a.timestamp == times[0];
        LineageIff(rows, hash, height, from, a);
        assert times == [times[0]] + times[1..];
      }
    }
  }

  /** The time listed for height `h` is that of the ancestor there. */
  ghost predicate TimeAt(rows: Rows, hash: BlockHash, height: nat, from: nat, times: seq<u32>, h: nat)
    requires from <= h < from + |times|
  {
    exists a :: Ancestor(rows, hash, height, h, a) && a.timestamp == times[h - from]
  }

  /** `times` are those of the ancestors at the heights `from..height`. */
  ghost predicate AreTimes(rows: Rows, hash: BlockHash, height: nat, from: nat, times: seq<u32>) {
    |times| + from == height + 1 && forall h: nat :: from <= h <= height ==> TimeAt(rows, hash, height, from, times, h)
  }

  lemma TimesShift(rows: Rows, hash: BlockHash, height: nat, from: nat, times: seq<u32>)
    requires from <= height && times != []
    ensures AreTimes(rows, hash, height, from, times) <==>
            TimeAt(rows, hash, height, from, times, from) && AreTimes(rows, hash, height, from + 1, times[1..])
  {
    var next, rest := from + 1, times[1..];
    if AreTimes(rows, hash, height, from, times) {
      forall h: nat | next <= h <= height ensures TimeAt(rows, hash, height, next, rest, h) {
        assert TimeAt(rows, hash, height, from, times, h);
      }
    }
    if TimeAt(rows, hash, height, from, times, from) && AreTimes(rows, hash, height, from + 1, times[1..]) {
      forall h: nat | from <= h <= height ensures TimeAt(rows, hash, height, from, times, h) {
        if h > from {
          assert TimeAt(rows, hash, height, next, rest, h);
        }
      }
    }
  }

  // --------------------------------------------------------------- acceptance

  /** The parent of a new header: the anchor, or a stored row. */
  ghost predicate IsParent(rows: Rows, policy: Policy, previous: BlockHash, height: nat, work: nat) {
    if AnchorHash(policy) == Success(previous) then
      height == (if policy.Mainnet? then 963_648 else 800_352) && work == 0
    else previous in rows && height == rows[previous].height && work == rows[previous].work
  }

  lemma ParentIff(rows: Rows, policy: Policy, previous: BlockHash, height: nat, work: nat)
    requires AnchorHash(policy).Success?
    ensures ParentMetadata(rows, policy, previous) == Success((height, work)) <==>
            IsParent(rows, policy, previous, height, work)
  {
  }

  /** What storing a new header as this row leaves: a heavier row is the new tip, a tie changes nothing. */
  ghost predicate Stores(rows: Rows, best: Option<Best>, row: Row, after: (Rows, Option<Best>)) {
    && after.0 == rows[row.hash := row]
    && after.1 == if best.Some? && row.work <= best.value.work then best else Some(Best(row.hash, row.height, row.work))
  }

  /** What the header rules make of a header above a parent at this height. */
  ghost predicate Passes(rules: RuleSet, rows: Rows, policy: Policy, h: Header, parentHeight: nat, work: nat) {
    ValidateHeader(rules, rows, policy, h, parentHeight + 1, parentHeight) == Success(work)
  }

  /**
   A header that is not stored is taken exactly when its parent is known, its height fits
   32 bits, it passes the rules there, and the chainwork fits 256 bits.
   */
  lemma NewHeaderIff(rules: RuleSet, policy: Policy, rows: Rows, best: Option<Best>, h: Header, height: nat, base: nat)
    requires AnchorHash(policy).Success? && HashOf(h) !in rows && IsParent(rows, policy, h.previous, height, base)
    ensures var r := ImportOne(rules, policy, rows, best, h);
            && (r.Success? <==>
                  height + 1 < 0x1_0000_0000 && exists work :: Passes(rules, rows, policy, h, height, work)
                                                               && base + work < TWO_256)
            && (forall work :: r.Success? && Passes(rules, rows, policy, h, height, work) ==>
                  Stores(rows, best, Row(HashOf(h), height + 1, h, base + work), r.value))
  {
    ParentIff(rows, policy, h.previous, height, base);
    if ValidateHeader(rules, rows, policy, h, height + 1, height).Success? {
      assert Passes(rules, rows, policy, h, height, ValidateHeader(rules, rows, policy, h, height + 1, height).value);
    }
  }

  /** Without a known parent it is refused. */
  lemma OrphanRefused(rules: RuleSet, policy: Policy, rows: Rows, best: Option<Best>, h: Header)
    requires HashOf(h) !in rows && h.previous !in rows && AnchorHash(policy) != Success(h.previous)
    ensures ImportOne(rules, policy, rows, best, h).Failure?
  {
  }

  /** A header that is stored changes nothing; another one with its hash is refused. */
  lemma KnownHeader(rules: RuleSet, policy: Policy, rows: Rows, best: Option<Best>, h: Header)
    requires HashOf(h) in rows
    ensures ImportOne(rules, policy, rows, best, h)
            == if rows[HashOf(h)].header == h then Success((rows, best)) else Failure
  {
  }

  /** Under the Devnet policy: the fixed bits, canonical, and a hash at or below their target. */
  lemma DevnetPassesIff(rows: Rows, bits: u32, h: Header, parentHeight: nat, work: nat)
    ensures Passes(BitcoinRules, rows, DevnetFixedBits(bits), h, parentHeight, work) <==>
            && h.bits == bits && CanonicalTarget(bits).Success? && LeNat(HashOf(h).bytes) <= CanonicalTarget(bits).value
            && HeaderWork(bits) == Success(work)
  {
    DevnetHeaderIff(h, bits);
    WorkBounds(bits);
  }

  /** What parent links supply to the Mainnet rules for a header above `parentHeight`. */
  ghost predicate Supplies(rows: Rows, h: Header, parentHeight: nat, parent: Header, first: Header, times: seq<u32>) {
    && Ancestor(rows, h.previous, parentHeight, parentHeight, parent)
    && |times| == 11 && parentHeight >= 10 && AreTimes(rows, h.previous, parentHeight, parentHeight - 10, times)
    && (if (parentHeight + 1) % 2016 == 0 then
          parentHeight >= 2015 && parentHeight - 2015 >= 963_638
          && Ancestor(rows, h.previous, parentHeight, parentHeight - 2015, first)
        else first == parent)
  }

  /**
   Under the Mainnet policy: above the anchor, and taken by the rules given what parent
   links supply; `MainnetHeaderIff` says what these rules take.
   */
  lemma MainnetPassesIff(rules: RuleSet, rows: Rows, h: Header, parentHeight: nat, work: nat)
    ensures Passes(rules, rows, Mainnet, h, parentHeight, work) <==>
            && parentHeight >= 963_648
            && exists parent, first, times ::
                 Supplies(rows, h, parentHeight, parent, first, times)
                 && rules.mainnet(h, parentHeight + 1, parent.bits, first.timestamp, parent.timestamp, times)
                    == Success(work)
  {
    if Passes(rules, rows, Mainnet, h, parentHeight, work) {
      var parent, first, times := InputsSupplied(rules, rows, h, parentHeight, work);
    }
    forall parent, first, times |
      parentHeight >= 963_648 && Supplies(rows, h, parentHeight, parent, first, times)
      ensures ValidateHeader(rules, rows, Mainnet, h, parentHeight + 1, parentHeight)
              == rules.mainnet(h, parentHeight + 1, parent.bits, first.timestamp, parent.timestamp, times)
    {
      SuppliedInputs(rules, rows, h, parentHeight, parent, first, times);
    }
  }

  /** The target of a header above this parent: the parent's, or where a period ends the retargeted one. */
  ghost predicate FollowsTarget(h: Header, next: nat, parent: Header, first: Header) {
    && MainnetTarget(parent.bits).Success?
    && if next % 2016 != 0 then h.bits == parent.bits
       else RetargetBits(parent.bits, first.timestamp, parent.timestamp) == Success(h.bits)
  }

  /** Later than the median of the times, on that target, and with a hash at or below it. */
  ghost predicate Taken(h: Header, next: nat, parent: Header, first: Header, times: seq<u32>) {
    && |times| == 11 && FollowsTarget(h, next, parent, first) && Median11(times) < h.timestamp
    && Target(h.bits).Success? && LeNat(HashOf(h).bytes) <= Target(h.bits).value
  }

  ghost predicate Takes(
    rules: RuleSet, h: Header, next: nat, parent: Header, first: Header, times: seq<u32>)
  {
    rules.mainnet(h, next, parent.bits, first.timestamp, parent.timestamp, times).Success?
  }

  lemma BitcoinTakesIff(h: Header, next: nat, parent: Header, first: Header, times: seq<u32>)
    ensures Takes(BitcoinRules, h, next, parent, first, times) <==> Taken(h, next, parent, first, times)
  {
    if |times| == 11 {
      MainnetHeaderIff(h, next, parent.bits, first.timestamp, parent.timestamp, times);
    }
  }

  lemma RulesPassIff(rules: RuleSet, rows: Rows, h: Header, parentHeight: nat)
    ensures (exists work :: Passes(rules, rows, Mainnet, h, parentHeight, work)) <==>
            && parentHeight >= 963_648
            && exists parent, first, times :: Supplies(rows, h, parentHeight, parent, first, times)
                                              && Takes(rules, h, parentHeight + 1, parent, first, times)
  {
    if work :| Passes(rules, rows, Mainnet, h, parentHeight, work) {
      var parent, first, times := InputsSupplied(rules, rows, h, parentHeight, work);
      assert Takes(rules, h, parentHeight + 1, parent, first, times);
    }
    forall parent, first, times |
      && parentHeight >= 963_648 && Supplies(rows, h, parentHeight, parent, first, times)
      && Takes(rules, h, parentHeight + 1, parent, first, times)
      ensures exists work :: Passes(rules, rows, Mainnet, h, parentHeight, work)
    {
      SuppliedInputs(rules, rows, h, parentHeight, parent, first, times);
      var work := ValidateHeader(rules, rows, Mainnet, h, parentHeight + 1, parentHeight).value;
      assert Passes(rules, rows, Mainnet, h, parentHeight, work);
    }
  }

  /** The real Mainnet rules, on the real ancestors. */
  lemma BitcoinPassesIff(rows: Rows, h: Header, parentHeight: nat)
    ensures (exists work :: Passes(BitcoinRules, rows, Mainnet, h, parentHeight, work)) <==>
            && parentHeight >= 963_648
            && exists parent, first, times :: Supplies(rows, h, parentHeight, parent, first, times)
                                              && Taken(h, parentHeight + 1, parent, first, times)
  {
    RulesPassIff(BitcoinRules, rows, h, parentHeight);
    var next := parentHeight + 1;
    forall parent, first, times
      ensures Takes(BitcoinRules, h, next, parent, first, times) <==> Taken(h, next, parent, first, times)
    {
      BitcoinTakesIff(h, next, parent, first, times);
    }
  }

  lemma InputsSupplied(rules: RuleSet, rows: Rows, h: Header, parentHeight: nat, work: nat)
    returns (parent: Header, first: Header, times: seq<u32>)
    requires Passes(rules, rows, Mainnet, h, parentHeight, work)
    ensures parentHeight >= 963_648 && Supplies(rows, h, parentHeight, parent, first, times)
    ensures rules.mainnet(h, parentHeight + 1, parent.bits, first.timestamp, parent.timestamp, times) == Success(work)
  {
    parent, first, times := MainnetInputs(rules, rows, h, parentHeight);
    SuppliedBy(rows, h, parentHeight, parent, first, times);
  }

  lemma SuppliedInputs(
    rules: RuleSet, rows: Rows, h: Header, parentHeight: nat, parent: Header, first: Header, times: seq<u32>)
    requires parentHeight >= 963_648 && Supplies(rows, h, parentHeight, parent, first, times)
    ensures ValidateHeader(rules, rows, Mainnet, h, parentHeight + 1, parentHeight)
            == rules.mainnet(h, parentHeight + 1, parent.bits, first.timestamp, parent.timestamp, times)
  {
    SuppliedBy(rows, h, parentHeight, parent, first, times);
  }

  /** The lookups of the source give exactly what parent links supply. */
  lemma SuppliedBy(rows: Rows, h: Header, parentHeight: nat, parent: Header, first: Header, times: seq<u32>)
    requires parentHeight >= 963_648 && |times| == 11
    ensures Supplies(rows, h, parentHeight, parent, first, times) <==>
            && LineageHeader(rows, h.previous, parentHeight, parentHeight) == Success(parent)
            && LineageTimes(rows, h.previous, parentHeight, parentHeight - 10) == Success(times)
            && (if (parentHeight + 1) % RETARGET_INTERVAL == 0 then
                  LineageHeader(rows, h.previous, parentHeight, parentHeight + 1 - RETARGET_INTERVAL) == Success(first)
                else first == parent)
  {
    LineageIff(rows, h.previous, parentHeight, parentHeight, parent);
    TimesOfAncestors(rows, h.previous, parentHeight, parentHeight - 10, times);
    LineageIff(rows, h.previous, parentHeight, parentHeight - 2015, first);
  }
}
