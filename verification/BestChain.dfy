/**
 Reading the best chain (crates/mutiny-node/src/bitcoin_headers.rs): the walk
 from the tip down to the locked Devnet anchor, the six-confirmation purchase
 window with its median payment time, and what the real header rules say about
 every edge of the tree.
 */
module BestChain {
  import opened Bytes
  import opened Wrappers
  import opened CompactTarget
  import opened HeaderRules
  import opened HeaderStore
  import opened HeaderLedger

  // ------------------------------------------------------------------ the walk

  /** One hash per height from the anchor to the tip, each the parent of the next. */
  ghost predicate IsBestChain(rows: Rows, best: Best, chain: map<nat, BlockHash>) {
    && DEVNET_ANCHOR_HEIGHT <= best.height
    && (forall h :: h in chain <==> DEVNET_ANCHOR_HEIGHT <= h <= best.height)
    && chain[DEVNET_ANCHOR_HEIGHT] == DEVNET_ANCHOR_HASH && chain[best.height] == best.hash
    && forall h :: DEVNET_ANCHOR_HEIGHT < h <= best.height ==> Linked(rows, chain, h)
  }

  ghost predicate Linked(rows: Rows, chain: map<nat, BlockHash>, h: nat) {
    && h > 0 && h in chain && h - 1 in chain && chain[h] in rows
    && rows[chain[h]].height == h && rows[chain[h]].header.previous == chain[h - 1]
  }

  /** A store has at most one best chain. */
  lemma BestChainUnique(rows: Rows, best: Best, a: map<nat, BlockHash>, b: map<nat, BlockHash>)
    requires IsBestChain(rows, best, a) && IsBestChain(rows, best, b)
    ensures a == b
  {
    forall h | h in a ensures a[h] == b[h] {
      SameAt(rows, best, a, b, h);
    }
  }

  lemma {:induction false} SameAt(rows: Rows, best: Best, a: map<nat, BlockHash>, b: map<nat, BlockHash>, h: nat)
    requires IsBestChain(rows, best, a) && IsBestChain(rows, best, b) && h in a
    ensures a[h] == b[h]
    decreases best.height - h
  {
    if h < best.height {
      SameAt(rows, best, a, b, h + 1);
      assert Linked(rows, a, h + 1) && Linked(rows, b, h + 1);
    }
  }

  function Heights(rows: Rows): set<nat> {
    set k | k in rows :: rows[k].height
  }

  /** The part of the chain above `current` that the walk has recorded. */
  ghost predicate WalkedTo(rows: Rows, best: Best, chain: map<nat, BlockHash>, current: BlockHash) {
    && current in rows && rows[current].height <= best.height
    && (forall h :: h in chain <==> rows[current].height < h <= best.height)
    && (forall h :: h in chain && h > rows[current].height + 1 ==> Linked(rows, chain, h))
    && if rows[current].height == best.height then current == best.hash
       else var above := rows[current].height + 1;
         && chain[best.height] == best.hash && chain[above] in rows
         && rows[chain[above]].height == above && rows[chain[above]].header.previous == current
  }

  lemma WalkStart(rows: Rows, best: Best)
    requires best.hash in rows && rows[best.hash].height == best.height
    ensures WalkedTo(rows, best, map[], best.hash)
  {
  }

  lemma WalkStep(rows: Rows, best: Best, chain: map<nat, BlockHash>, current: BlockHash)
    requires WalkedTo(rows, best, chain, current)
    requires LinksToParent(rows, DEVNET_ANCHOR_HASH, DEVNET_ANCHOR_HEIGHT, current)
    requires rows[current].header.previous != DEVNET_ANCHOR_HASH
    ensures WalkedTo(rows, best, chain[rows[current].height := current], rows[current].header.previous)
  {
    LinkedAfterStep(rows, best, chain, current);
  }

  lemma LinkedAfterStep(rows: Rows, best: Best, chain: map<nat, BlockHash>, current: BlockHash)
    requires WalkedTo(rows, best, chain, current)
    ensures var chain' := chain[rows[current].height := current];
            forall h :: h in chain && h > rows[current].height ==> Linked(rows, chain', h)
  {
    var chain' := chain[rows[current].height := current];
    forall h | h in chain && h > rows[current].height ensures Linked(rows, chain', h) {
      if h > rows[current].height + 1 { assert Linked(rows, chain, h); }
    }
  }

  lemma WalkEnd(rows: Rows, best: Best, chain: map<nat, BlockHash>, current: BlockHash)
    requires WalkedTo(rows, best, chain, current)
    requires LinksToParent(rows, DEVNET_ANCHOR_HASH, DEVNET_ANCHOR_HEIGHT, current)
    requires rows[current].header.previous == DEVNET_ANCHOR_HASH
    ensures IsBestChain(rows, best,
              chain[rows[current].height := current][DEVNET_ANCHOR_HEIGHT := DEVNET_ANCHOR_HASH])
  {
    LinkedAfterStep(rows, best, chain, current);
    var chain1 := chain[rows[current].height := current];
    var chain2 := chain1[DEVNET_ANCHOR_HEIGHT := DEVNET_ANCHOR_HASH];
    forall h | DEVNET_ANCHOR_HEIGHT < h <= best.height ensures Linked(rows, chain2, h) {
      if h > rows[current].height { assert Linked(rows, chain1, h); }
    }
  }

  /** What the loop of `best_chain_hashes_by_height` computes from `current` on. */
  function WalkFrom(rows: Rows, current: BlockHash, byHeight: map<nat, BlockHash>): Result<map<nat, BlockHash>>
    decreases Heights(rows) - byHeight.Keys
  {
    if current !in rows || rows[current].height in byHeight then Failure
    else
      var row := rows[current];
      assert row.height in Heights(rows) - byHeight.Keys;
      var next := byHeight[row.height := current];
      if row.header.previous == DEVNET_ANCHOR_HASH then Success(next[DEVNET_ANCHOR_HEIGHT := DEVNET_ANCHOR_HASH])
      else WalkFrom(rows, row.header.previous, next)
  }

  /** Where every row links to its parent or to the Devnet anchor, the walk returns the best chain. */
  lemma {:induction false} WalkReaches(rows: Rows, best: Best, byHeight: map<nat, BlockHash>, current: BlockHash)
    requires WalkedTo(rows, best, byHeight, current)
    requires forall k :: k in rows ==> LinksToParent(rows, DEVNET_ANCHOR_HASH, DEVNET_ANCHOR_HEIGHT, k)
    ensures var r := WalkFrom(rows, current, byHeight); r.Success? && IsBestChain(rows, best, r.value)
    decreases rows[current].height
  {
    if rows[current].header.previous == DEVNET_ANCHOR_HASH {
      WalkEnd(rows, best, byHeight, current);
    } else {
      WalkStep(rows, best, byHeight, current);
      WalkReaches(rows, best, byHeight[rows[current].height := current], rows[current].header.previous);
    }
  }

  /** Stored headers, each the parent of the one before it. */
  ghost predicate Path(rows: Rows, path: seq<BlockHash>) {
    && path != [] && (forall i :: 0 <= i < |path| ==> path[i] in rows)
    && forall i :: 0 < i < |path| ==> path[i] == rows[path[i - 1]].header.previous
  }

  ghost predicate EndsAtAnchor(rows: Rows, path: seq<BlockHash>) {
    Path(rows, path) && rows[path[|path| - 1]].header.previous == DEVNET_ANCHOR_HASH
  }

  /** No height occurs twice, nor among `used`. */
  ghost predicate FreshHeights(rows: Rows, path: seq<BlockHash>, used: set<nat>)
    requires Path(rows, path)
  {
    && (forall i :: 0 <= i < |path| ==> rows[path[i]].height !in used)
    && forall i, j :: 0 <= i < j < |path| ==> rows[path[i]].height != rows[path[j]].height
  }

  /** The stored ancestry of `hash` comes to a row that names the Devnet anchor, without repeating a height. */
  ghost predicate ReachesAnchor(rows: Rows, hash: BlockHash, used: set<nat>) {
    exists path :: EndsAtAnchor(rows, path) && path[0] == hash && FreshHeights(rows, path, used)
  }

  lemma PathExtends(rows: Rows, hash: BlockHash, used: set<nat>)
    requires hash in rows && rows[hash].height !in used
    requires ReachesAnchor(rows, rows[hash].header.previous, used + {rows[hash].height})
    ensures ReachesAnchor(rows, hash, used)
  {
    var path :| EndsAtAnchor(rows, path) && path[0] == rows[hash].header.previous
                && FreshHeights(rows, path, used + {rows[hash].height});
    var longer := [hash] + path;
    assert longer[1..] == path;
    assert EndsAtAnchor(rows, longer) && FreshHeights(rows, longer, used);
  }

  lemma PathShrinks(rows: Rows, hash: BlockHash, used: set<nat>)
    requires ReachesAnchor(rows, hash, used) && rows[hash].header.previous != DEVNET_ANCHOR_HASH
    ensures ReachesAnchor(rows, rows[hash].header.previous, used + {rows[hash].height})
  {
    var path :| EndsAtAnchor(rows, path) && path[0] == hash && FreshHeights(rows, path, used);
    var rest := path[1..];
    assert EndsAtAnchor(rows, rest) && rest[0] == rows[hash].header.previous;
    assert FreshHeights(rows, rest, used + {rows[hash].height});
  }

  /** The walk succeeds exactly when the stored ancestry reaches the Devnet anchor. */
  lemma {:induction false} WalkIff(rows: Rows, current: BlockHash, byHeight: map<nat, BlockHash>)
    ensures WalkFrom(rows, current, byHeight).Success? <==> ReachesAnchor(rows, current, byHeight.Keys)
    decreases Heights(rows) - byHeight.Keys
  {
    if current in rows && rows[current].height !in byHeight {
      var height, previous := rows[current].height, rows[current].header.previous;
      if previous == DEVNET_ANCHOR_HASH {
        assert EndsAtAnchor(rows, [current]) && FreshHeights(rows, [current], byHeight.Keys);
      } else {
        assert height in Heights(rows) - byHeight.Keys;
        var next := byHeight[height := current];
        assert next.Keys == byHeight.Keys + {height};
        WalkIff(rows, previous, next);
        if ReachesAnchor(rows, previous, next.Keys) { PathExtends(rows, current, byHeight.Keys); }
        if ReachesAnchor(rows, current, byHeight.Keys) { PathShrinks(rows, current, byHeight.Keys); }
      }
    }
  }

  /** While the policy's own anchor is not stored, heights fall by one along every path. */
  lemma {:induction false} PathHeights(rules: RuleSet, policy: Policy, rows: Rows, path: seq<BlockHash>, i: nat)
    requires Consistent(rules, policy, rows) && AnchorHash(policy).Success? && AnchorHash(policy).value !in rows
    requires Path(rows, path) && i < |path|
    ensures rows[path[i]].height + i == rows[path[0]].height
  {
    if i > 0 {
      PathHeights(rules, policy, rows, path, i - 1);
      ConsistentLinks(rules, policy, rows, path[i - 1]);
    }
  }

  /**
   On a consistent store that does not hold its own anchor, reaching the Devnet anchor is
   a matter of ancestry alone.
   */
  lemma ReachesIffAncestry(rules: RuleSet, policy: Policy, rows: Rows, hash: BlockHash)
    requires Consistent(rules, policy, rows) && AnchorHash(policy).Success? && AnchorHash(policy).value !in rows
    ensures ReachesAnchor(rows, hash, {}) <==> exists path :: EndsAtAnchor(rows, path) && path[0] == hash
  {
    forall path | EndsAtAnchor(rows, path) ensures FreshHeights(rows, path, {}) {
      forall i | 0 <= i < |path| ensures rows[path[i]].height + i == rows[path[0]].height {
        PathHeights(rules, policy, rows, path, i);
      }
    }
  }

  /** A Mainnet store that does not hold the Devnet anchor has no row that names it. */
  lemma MainnetNamesNoDevnetAnchor(rules: RuleSet, rows: Rows, k: BlockHash)
    requires Consistent(rules, Mainnet, rows) && k in rows
    requires DEVNET_ANCHOR_HASH !in rows && AnchorHash(Mainnet) != Success(DEVNET_ANCHOR_HASH)
    ensures rows[k].header.previous != DEVNET_ANCHOR_HASH
  {
    ConsistentLinks(rules, Mainnet, rows, k);
  }

  /** So no Mainnet tip reaches it. */
  lemma MainnetRefused(rules: RuleSet, rows: Rows, hash: BlockHash)
    requires Consistent(rules, Mainnet, rows)
    requires DEVNET_ANCHOR_HASH !in rows && AnchorHash(Mainnet) != Success(DEVNET_ANCHOR_HASH)
    ensures !ReachesAnchor(rows, hash, {})
  {
    if ReachesAnchor(rows, hash, {}) {
      var path :| EndsAtAnchor(rows, path) && path[0] == hash && FreshHeights(rows, path, {});
      MainnetNamesNoDevnetAnchor(rules, rows, path[|path| - 1]);
    }
  }

  /** The two anchors differ and the store holds no Devnet anchor, which the locked constants and Bitcoin ensure. */
  ghost predicate MainnetApart(policy: Option<Policy>, headers: seq<Row>) {
    && policy == Some(Mainnet) && DEVNET_ANCHOR_HASH !in Index(headers)
    && AnchorHash(Mainnet) != Success(DEVNET_ANCHOR_HASH)
  }

  lemma WalkOutcomes(rules: RuleSet, policy: Option<Policy>, headers: seq<Row>, best: Best)
    requires ListOk(rules, policy, headers, Some(best))
    ensures policy.Some? && best.hash in Index(headers) && Index(headers)[best.hash].height == best.height
    ensures policy.value.DevnetFixedBits? ==>
              var r := WalkFrom(Index(headers), best.hash, map[]);
              r.Success? && IsBestChain(Index(headers), best, r.value)
    ensures MainnetApart(policy, headers) ==> WalkFrom(Index(headers), best.hash, map[]).Failure?
  {
    var rows := Index(headers);
    if policy.value.DevnetFixedBits? {
      forall k | k in rows ensures LinksToParent(rows, DEVNET_ANCHOR_HASH, DEVNET_ANCHOR_HEIGHT, k) {
        ConsistentLinks(rules, policy.value, rows, k);
      }
      WalkStart(rows, best);
      WalkReaches(rows, best, map[], best.hash);
    }
    if MainnetApart(policy, headers) {
      MainnetRefused(rules, rows, best.hash);
      WalkIff(rows, best.hash, map[]);
    }
  }

  /**
   `best_chain_hashes_by_height`. The walk always terminates. It succeeds exactly on
   checked states whose tip has a stored ancestry down to the Devnet anchor. Under the
   Devnet policy that is every checked state with a tip, and the result is the best
   chain. A Mainnet state is refused.
   */
  method BestChainHashesByHeight(rules: RuleSet, policy: Option<Policy>, headers: seq<Row>, best: Option<Best>)
    returns (r: Result<map<nat, BlockHash>>)
    ensures r.Success? <==>
            && ListOk(rules, policy, headers, best) && best.Some?
            && ReachesAnchor(Index(headers), best.value.hash, {})
    ensures r.Success? ==> r == WalkFrom(Index(headers), best.value.hash, map[])
    ensures policy.Some? && policy.value.DevnetFixedBits? && ListOk(rules, policy, headers, best) && best.Some? ==>
              r.Success? && IsBestChain(Index(headers), best.value, r.value)
    ensures MainnetApart(policy, headers) ==> r.Failure?
  {
    var ok := CheckState(rules, policy, headers, best);
    if !ok || best.None? {
      return Failure;
    }
    WalkOutcomes(rules, policy, headers, best.value);
    WalkIff(Index(headers), best.value.hash, map[]);
    r := Walk(headers, best.value);
  }

  /** The loop of `best_chain_hashes_by_height`. */
  method Walk(headers: seq<Row>, best: Best) returns (r: Result<map<nat, BlockHash>>)
    requires Distinct(headers)
    ensures r == WalkFrom(Index(headers), best.hash, map[])
  {
    ghost var rows := Index(headers);
    var current := best.hash;
    var byHeight: map<nat, BlockHash> := map[];
    while true
      invariant WalkFrom(rows, current, byHeight) == WalkFrom(rows, best.hash, map[])
      decreases Heights(rows) - byHeight.Keys
    {
      var row := Find(headers, current);
      if row.None? {
        return Failure;
      }
      if row.value.height in byHeight {
        return Failure;
      }
      assert row.value.height in Heights(rows) - byHeight.Keys;
      var previous := row.value.header.previous;
      if previous == DEVNET_ANCHOR_HASH {
        return Success(byHeight[row.value.height := current][DEVNET_ANCHOR_HEIGHT := DEVNET_ANCHOR_HASH]);
      }
      byHeight := byHeight[row.value.height := current];
      current := previous;
    }
  }

  // ----------------------------------------------------------- purchase window

  /** `pack_j_context_timestamp`, for heights inside the context. */
  function ContextTimestamp(height: nat): u32
    requires CONTEXT_START <= height <= DEVNET_ANCHOR_HEIGHT
  {
    CONTEXT_START_TIMESTAMP + (height - CONTEXT_START) * 600
  }

  /** The context ends at the anchor's own time, with a block every ten minutes before it. */
  lemma ContextTimes(height: nat)
    requires 800_342 <= height <= 800_352
    ensures ContextTimestamp(height) + 600 * (800_352 - height) == 1_800_000_000
  {
  }

  /** `time` is recorded for this height of the best chain, or of the context below the anchor. */
  ghost predicate TimeAt(rows: Rows, chain: map<nat, BlockHash>, height: int, time: u32) {
    if height <= DEVNET_ANCHOR_HEIGHT then
      CONTEXT_START <= height && time == ContextTimestamp(height)
    else
      height in chain && chain[height] in rows && time == rows[chain[height]].header.timestamp
  }

  ghost predicate HasTime(rows: Rows, chain: map<nat, BlockHash>, height: int) {
    CONTEXT_START <= height && (height > DEVNET_ANCHOR_HEIGHT ==> height in chain && chain[height] in rows)
  }

  /** All eleven heights that end at the containing block have a time. */
  ghost predicate HasTimes(rows: Rows, chain: map<nat, BlockHash>, height: nat) {
    forall h: int :: height - 10 <= h <= height ==> HasTime(rows, chain, h)
  }

  datatype Window = Window(containing: Header, sixth: Header, paymentTime: u32)

  /** The proof lists stored headers at consecutive heights, and its first six are on the best chain. */
  ghost predicate ProofOk(rows: Rows, best: Best, chain: map<nat, BlockHash>, proof: seq<Header>, height: nat) {
    && |proof| >= REQUIRED_CONFIRMATIONS && height + REQUIRED_CONFIRMATIONS - 1 <= best.height
    && (forall i :: 0 <= i < |proof| ==> StoredAt(rows, proof[i], height + i))
    && (forall i :: 0 < i < |proof| ==> proof[i].previous == HashOf(proof[i - 1]))
    && forall i :: 0 <= i < REQUIRED_CONFIRMATIONS ==> OnChain(chain, height + i, proof[i])
  }

  ghost predicate StoredAt(rows: Rows, h: Header, height: nat) {
    HashOf(h) in rows && rows[HashOf(h)].height == height && rows[HashOf(h)].header == h
  }

  ghost predicate OnChain(chain: map<nat, BlockHash>, height: nat, h: Header) {
    height in chain && chain[height] == HashOf(h)
  }

  /** The eleven times that end at the containing block. */
  ghost predicate TimesUpTo(rows: Rows, chain: map<nat, BlockHash>, height: nat, times: seq<u32>) {
    |times| == 11 && forall i :: 0 <= i < 11 ==> TimeAt(rows, chain, height - 10 + i, times[i])
  }

  /** The proof is good on the best chain, which is unique. */
  ghost predicate WindowOk(rows: Rows, best: Best, proof: seq<Header>, height: nat) {
    exists chain :: IsBestChain(rows, best, chain) && ProofOk(rows, best, chain, proof, height)
  }

  /** `time` is the median of the eleven times of the best chain that end at `height`. */
  ghost predicate PaymentTime(rows: Rows, best: Best, height: nat, time: u32) {
    exists chain, times ::
      IsBestChain(rows, best, chain) && TimesUpTo(rows, chain, height, times) && time == Median11(times)
  }

  lemma WindowOnBestChain(rows: Rows, best: Best, chain: map<nat, BlockHash>, proof: seq<Header>, height: nat)
    requires IsBestChain(rows, best, chain)
    ensures WindowOk(rows, best, proof, height) <==> ProofOk(rows, best, chain, proof, height)
  {
    if WindowOk(rows, best, proof, height) {
      var other :| IsBestChain(rows, best, other) && ProofOk(rows, best, other, proof, height);
      BestChainUnique(rows, best, chain, other);
    }
  }

  /** On a best chain the eleven times are always there. */
  lemma BestChainHasTimes(rows: Rows, best: Best, chain: map<nat, BlockHash>, proof: seq<Header>, height: nat)
    requires IsBestChain(rows, best, chain) && ProofOk(rows, best, chain, proof, height)
    ensures HasTimes(rows, chain, height)
  {
    assert OnChain(chain, height + 0, proof[0]);
    forall h: int | height - 10 <= h <= height ensures HasTime(rows, chain, h) {
      if h > DEVNET_ANCHOR_HEIGHT {
        assert Linked(rows, chain, h);
      }
    }
  }

  /** What the source checks, on the chain that the walk returns. */
  ghost predicate Accepted(rows: Rows, best: Best, proof: seq<Header>, height: nat) {
    && ReachesAnchor(rows, best.hash, {})
    && var chain := WalkFrom(rows, best.hash, map[]);
       chain.Success? && ProofOk(rows, best, chain.value, proof, height) && HasTimes(rows, chain.value, height)
  }

  /**
   `validate_purchase_window`, under either policy: accepted exactly when the state
   checks out, its tip reaches the Devnet anchor, the proof is six consecutive blocks of
   the chain walked (and any further stored descendants) and the eleven times are known.
   Under the Devnet policy that is a proof on the best chain, and the payment time is the
   median of the eleven times that end at its first block. Under the Mainnet policy every
   purchase is refused.
   */
  method ValidatePurchaseWindow(rules: RuleSet, policy: Policy, headers: seq<Row>, best: Option<Best>,
                                proof: seq<Header>, height: u32)
    returns (r: Result<Window>)
    ensures r.Success? <==>
            && ListOk(rules, Some(policy), headers, best) && best.Some?
            && Accepted(Index(headers), best.value, proof, height)
    ensures r.Success? ==>
              && |proof| >= REQUIRED_CONFIRMATIONS
              && r.value.containing == proof[0] && r.value.sixth == proof[5]
              && WalkTime(Index(headers), best.value, height, r.value.paymentTime)
    ensures policy.DevnetFixedBits? ==>
              && (r.Success? <==>
                    && ListOk(rules, Some(policy), headers, best) && best.Some?
                    && WindowOk(Index(headers), best.value, proof, height))
              && (r.Success? ==> PaymentTime(Index(headers), best.value, height, r.value.paymentTime))
    ensures MainnetApart(Some(policy), headers) ==> r.Failure?
  {
    var walked := BestChainHashesByHeight(rules, Some(policy), headers, best);
    if walked.Failure? {
      return Failure;
    }
    WalkIff(Index(headers), best.value.hash, map[]);
    r := WindowOn(headers, best.value, walked.value, proof, height);
    if policy.DevnetFixedBits? {
      DevnetWindow(Index(headers), best.value, walked.value, proof, height);
    }
  }

  /** The median of the eleven times on the chain walked. */
  ghost predicate WalkTime(rows: Rows, best: Best, height: nat, time: u32) {
    var chain := WalkFrom(rows, best.hash, map[]);
    chain.Success? && MedianOn(rows, chain.value, height, time)
  }

  ghost predicate MedianOn(rows: Rows, chain: map<nat, BlockHash>, height: nat, time: u32) {
    exists times :: TimesUpTo(rows, chain, height, times) && time == Median11(times)
  }

  lemma DevnetWindow(rows: Rows, best: Best, chain: map<nat, BlockHash>, proof: seq<Header>, height: nat)
    requires IsBestChain(rows, best, chain)
    ensures WindowOk(rows, best, proof, height) <==>
              ProofOk(rows, best, chain, proof, height) && HasTimes(rows, chain, height)
    ensures forall time: u32 :: MedianOn(rows, chain, height, time) ==> PaymentTime(rows, best, height, time)
  {
    WindowOnBestChain(rows, best, chain, proof, height);
    if ProofOk(rows, best, chain, proof, height) {
      BestChainHasTimes(rows, best, chain, proof, height);
    }
  }

  /** The checks of `validate_purchase_window` once the chain has been walked. */
  method WindowOn(headers: seq<Row>, best: Best, byHeight: map<nat, BlockHash>, proof: seq<Header>, height: u32)
    returns (r: Result<Window>)
    requires Distinct(headers)
    ensures r.Success? <==> ProofOk(Index(headers), best, byHeight, proof, height)
                            && HasTimes(Index(headers), byHeight, height)
    ensures r.Success? ==>
              && r.value.containing == proof[0] && r.value.sixth == proof[5]
              && MedianOn(Index(headers), byHeight, height, r.value.paymentTime)
  {
    if |proof| < REQUIRED_CONFIRMATIONS || best.height < height + REQUIRED_CONFIRMATIONS - 1 {
      return Failure;
    }
    var stored := ProofStored(headers, proof, height);
    if !stored {
      return Failure;
    }
    var confirmed := SixOnChain(byHeight, proof, height);
    if !confirmed {
      return Failure;
    }
    if height < 10 || height - 10 < CONTEXT_START {
      assert !HasTime(Index(headers), byHeight, height - 10);
      return Failure;
    }
    var times := WindowTimes(headers, byHeight, height);
    if times.Failure? {
      return Failure;
    }
    return Success(Window(proof[0], proof[5], Median11(times.value)));
  }

  /** The loop over the six confirmations. */
  method SixOnChain(byHeight: map<nat, BlockHash>, proof: seq<Header>, height: nat) returns (ok: bool)
    requires |proof| >= REQUIRED_CONFIRMATIONS
    ensures ok <==> forall i :: 0 <= i < REQUIRED_CONFIRMATIONS ==> OnChain(byHeight, height + i, proof[i])
  {
    for i := 0 to REQUIRED_CONFIRMATIONS
      invariant forall j :: 0 <= j < i ==> OnChain(byHeight, height + j, proof[j])
    {
      if !(height + i in byHeight && byHeight[height + i] == HashOf(proof[i])) {
        assert !OnChain(byHeight, height + i, proof[i]);
        return false;
      }
    }
    return true;
  }

  /** The loop over the proof headers. */
  method ProofStored(headers: seq<Row>, proof: seq<Header>, height: nat) returns (ok: bool)
    requires Distinct(headers)
    ensures ok <==> && (forall i :: 0 <= i < |proof| ==> StoredAt(Index(headers), proof[i], height + i))
                    && (forall i :: 0 < i < |proof| ==> proof[i].previous == HashOf(proof[i - 1]))
  {
    for i := 0 to |proof|
      invariant forall j :: 0 <= j < i ==> StoredAt(Index(headers), proof[j], height + j)
      invariant forall j :: 0 < j < i ==> proof[j].previous == HashOf(proof[j - 1])
    {
      var row := Find(headers, HashOf(proof[i]));
      if row.None? || row.value.height != height + i || row.value.header != proof[i] {
        assert !StoredAt(Index(headers), proof[i], height + i);
        return false;
      }
      if i > 0 && proof[i].previous != HashOf(proof[i - 1]) {
        return false;
      }
    }
    return true;
  }

  /** The loop that collects the eleven times. */
  method WindowTimes(headers: seq<Row>, byHeight: map<nat, BlockHash>, height: nat) returns (r: Result<seq<u32>>)
    requires Distinct(headers) && height >= 10 && height - 10 >= CONTEXT_START
    ensures r.Success? <==> HasTimes(Index(headers), byHeight, height)
    ensures r.Success? ==> TimesUpTo(Index(headers), byHeight, height, r.value)
  {
    ghost var rows := Index(headers);
    var times: seq<u32> := [];
    for i := 0 to 11
      invariant |times| == i
      invariant forall j :: 0 <= j < i ==> TimeAt(rows, byHeight, height - 10 + j, times[j])
      invariant forall h: int :: height - 10 <= h < height - 10 + i ==> HasTime(rows, byHeight, h)
    {
      var time := HeightTime(headers, byHeight, height - 10 + i);
      if time.Failure? {
        assert !HasTime(rows, byHeight, height - 10 + i);
        return Failure;
      }
      times := times + [time.value];
    }
    return Success(times);
  }

  /** The context time, or that of `authenticated_best_header_at_height`. */
  method HeightTime(headers: seq<Row>, byHeight: map<nat, BlockHash>, height: nat) returns (r: Result<u32>)
    requires Distinct(headers) && CONTEXT_START <= height
    ensures r.Success? <==> HasTime(Index(headers), byHeight, height)
    ensures r.Success? ==> TimeAt(Index(headers), byHeight, height, r.value)
  {
    if height <= DEVNET_ANCHOR_HEIGHT {
      return Success(ContextTimestamp(height));
    }
    if height !in byHeight {
      return Failure;
    }
    var row := Find(headers, byHeight[height]);
    if row.None? {
      return Failure;
    }
    return Success(row.value.header.timestamp);
  }

  /** The headers of an accepted window are consecutive ancestors of the best tip. */
  lemma WindowIsAncestry(rows: Rows, best: Best, chain: map<nat, BlockHash>, proof: seq<Header>, height: nat, i: nat)
    requires IsBestChain(rows, best, chain) && ProofOk(rows, best, chain, proof, height)
    requires i < REQUIRED_CONFIRMATIONS
    ensures Ancestor(rows, best.hash, HashOf(proof[i]), best.height - height - i)
  {
    assert OnChain(chain, height + i, proof[i]);
    ChainAncestor(rows, best, chain, height + i);
  }

  /** `older` is reached from `hash` by `n` parent links. */
  ghost predicate Ancestor(rows: Rows, hash: BlockHash, older: BlockHash, n: nat)
    decreases n
  {
    if n == 0 then hash == older
    else hash in rows && Ancestor(rows, rows[hash].header.previous, older, n - 1)
  }

  lemma {:induction false} AncestorExtend(rows: Rows, hash: BlockHash, older: BlockHash, n: nat)
    requires Ancestor(rows, hash, older, n) && older in rows
    ensures Ancestor(rows, hash, rows[older].header.previous, n + 1)
    decreases n
  {
    if n > 0 {
      AncestorExtend(rows, rows[hash].header.previous, older, n - 1);
    }
  }

  lemma {:induction false} ChainAncestor(rows: Rows, best: Best, chain: map<nat, BlockHash>, h: nat)
    requires IsBestChain(rows, best, chain) && h in chain
    ensures Ancestor(rows, best.hash, chain[h], best.height - h)
    decreases best.height - h
  {
    if h < best.height {
      ChainAncestor(rows, best, chain, h + 1);
      assert Linked(rows, chain, h + 1);
      AncestorExtend(rows, best.hash, chain[h + 1], best.height - h - 1);
    }
  }

  // --------------------------------------------------- the real rules on edges

  /** Whatever the rules guarantee of the work they return holds of every accepted header. */
  lemma AcceptedWork(rules: RuleSet, rows: Rows, policy: Policy, h: Header, parentHeight: nat, good: nat -> bool)
    requires forall h, bits :: rules.devnet(h, bits).Success? ==> good(rules.devnet(h, bits).value)
    requires forall h, n, b, f, t, ts :: |ts| == 11 && rules.mainnet(h, n, b, f, t, ts).Success? ==>
               good(rules.mainnet(h, n, b, f, t, ts).value)
    requires ValidateHeader(rules, rows, policy, h, parentHeight + 1, parentHeight).Success?
    ensures good(ValidateHeader(rules, rows, policy, h, parentHeight + 1, parentHeight).value)
  {
    if policy.Mainnet? {
      var parent, first, times := MainnetInputs(rules, rows, h, parentHeight);
    }
  }

  /** Whatever the rules guarantee of a mainnet header and its parent's bits holds in the store. */
  lemma AcceptedMainnet(rules: RuleSet, rows: Rows, h: Header, parentHeight: nat, good: (u32, Header, nat) -> bool)
    requires forall h, n, b, f, t, ts :: |ts| == 11 && rules.mainnet(h, n, b, f, t, ts).Success? ==> good(b, h, n)
    requires ValidateHeader(rules, rows, Mainnet, h, parentHeight + 1, parentHeight).Success?
    ensures parentHeight + 1 > MAINNET_ANCHOR_HEIGHT && HeaderAt(rows, h.previous, parentHeight).Success?
    ensures good(HeaderAt(rows, h.previous, parentHeight).value.bits, h, parentHeight + 1)
  {
    var parent, first, times := MainnetInputs(rules, rows, h, parentHeight);
  }

  function WorkInRange(): nat -> bool {
    w => 2 <= w <= TWO_255
  }

  lemma BitcoinWorkInRange()
    ensures forall h, bits :: BitcoinRules.devnet(h, bits).Success? ==>
              WorkInRange()(BitcoinRules.devnet(h, bits).value)
    ensures forall h, n, b, f, t, ts :: |ts| == 11 && BitcoinRules.mainnet(h, n, b, f, t, ts).Success? ==>
              WorkInRange()(BitcoinRules.mainnet(h, n, b, f, t, ts).value)
  {
    forall h, bits | BitcoinRules.devnet(h, bits).Success?
      ensures WorkInRange()(BitcoinRules.devnet(h, bits).value)
    {
      WorkBounds(h.bits);
    }
    forall h, n, b, f, t, ts | |ts| == 11 && BitcoinRules.mainnet(h, n, b, f, t, ts).Success?
      ensures WorkInRange()(BitcoinRules.mainnet(h, n, b, f, t, ts).value)
    {
      AcceptedMainnetHeader(h, n, b, f, t, ts);
    }
  }

  /** Under the real rules, chainwork strictly grows from every parent to its child. */
  lemma WorkGrowsOnEdge(policy: Policy, rows: Rows, k: BlockHash)
    requires Consistent(BitcoinRules, policy, rows) && k in rows
    ensures 2 <= rows[k].work < TWO_256 && Heavier(policy, rows, k)
  {
    BitcoinWorkInRange();
    EdgeWork(BitcoinRules, policy, rows, k);
  }

  lemma EdgeWork(rules: RuleSet, policy: Policy, rows: Rows, k: BlockHash)
    requires forall h, bits :: rules.devnet(h, bits).Success? ==> WorkInRange()(rules.devnet(h, bits).value)
    requires forall h, n, b, f, t, ts :: |ts| == 11 && rules.mainnet(h, n, b, f, t, ts).Success? ==>
               WorkInRange()(rules.mainnet(h, n, b, f, t, ts).value)
    requires Consistent(rules, policy, rows) && k in rows
    ensures 2 <= rows[k].work < TWO_256 && Heavier(policy, rows, k)
  {
    assert RowOk(rules, policy, rows, k);
    var parentHeight, parentWork, work := RowParts(rules, policy, rows, k);
    AcceptedWork(rules, rows, policy, rows[k].header, parentHeight, WorkInRange());
  }

  ghost predicate Heavier(policy: Policy, rows: Rows, k: BlockHash)
    requires k in rows
  {
    var p := rows[k].header.previous;
    AnchorHash(policy) != Success(p) ==> p in rows && rows[p].work + 2 <= rows[k].work
  }

  /** Chainwork strictly grows along every path that stays above the anchor. */
  lemma WorkGrowsOnPath(policy: Policy, rows: Rows, hash: BlockHash, older: BlockHash, n: nat)
    requires Consistent(BitcoinRules, policy, rows) && AncestorAbove(policy, rows, hash, older, n)
    ensures hash in rows && older in rows && rows[older].work + 2 * n <= rows[hash].work
  {
    forall k | k in rows ensures Heavier(policy, rows, k) {
      WorkGrowsOnEdge(policy, rows, k);
    }
    HeavierOnPath(policy, rows, hash, older, n);
  }

  lemma {:induction false} HeavierOnPath(policy: Policy, rows: Rows, hash: BlockHash, older: BlockHash, n: nat)
    requires forall k :: k in rows ==> Heavier(policy, rows, k)
    requires AncestorAbove(policy, rows, hash, older, n)
    ensures hash in rows && older in rows && rows[older].work + 2 * n <= rows[hash].work
    decreases n
  {
    if n > 0 {
      assert Heavier(policy, rows, hash);
      HeavierOnPath(policy, rows, rows[hash].header.previous, older, n - 1);
    }
  }

  /** `older` is reached by `n` parent links, none of which leads to the anchor. */
  ghost predicate AncestorAbove(policy: Policy, rows: Rows, hash: BlockHash, older: BlockHash, n: nat)
    decreases n
  {
    hash in rows &&
    if n == 0 then hash == older
    else
      && AnchorHash(policy) != Success(rows[hash].header.previous)
      && AncestorAbove(policy, rows, rows[hash].header.previous, older, n - 1)
  }

  /**
   Under the Mainnet rules every stored header has valid bits that follow from
   those of its parent, which is the stored header below it or a locked context
   header, and its hash is at or below its own target.
   */
  lemma MainnetEdge(rows: Rows, k: BlockHash)
    requires Consistent(BitcoinRules, Mainnet, rows) && k in rows
    ensures rows[k].height > MAINNET_ANCHOR_HEIGHT
    ensures HeaderAt(rows, rows[k].header.previous, rows[k].height - 1).Success?
    ensures MainnetChild(HeaderAt(rows, rows[k].header.previous, rows[k].height - 1).value.bits,
                         rows[k].header, rows[k].height)
  {
    BitcoinChildren();
    EdgeTarget(BitcoinRules, rows, k);
  }

  lemma EdgeTarget(rules: RuleSet, rows: Rows, k: BlockHash)
    requires forall h, n, b, f, t, ts :: |ts| == 11 && rules.mainnet(h, n, b, f, t, ts).Success? ==>
               ChildOf()(b, h, n)
    requires Consistent(rules, Mainnet, rows) && k in rows
    ensures rows[k].height > MAINNET_ANCHOR_HEIGHT
    ensures HeaderAt(rows, rows[k].header.previous, rows[k].height - 1).Success?
    ensures ChildOf()(HeaderAt(rows, rows[k].header.previous, rows[k].height - 1).value.bits,
                      rows[k].header, rows[k].height)
  {
    assert RowOk(rules, Mainnet, rows, k);
    var parentHeight, parentWork, work := RowParts(rules, Mainnet, rows, k);
    AcceptedMainnet(rules, rows, rows[k].header, parentHeight, ChildOf());
  }

  /** The target follows from the parent's, and the hash is at or below it. */
  ghost predicate MainnetChild(parentBits: u32, h: Header, height: nat) {
    TargetStep(parentBits, h.bits, height) && LeNat(HashOf(h).bytes) <= MainnetTarget(h.bits).value
  }

  ghost function ChildOf(): (u32, Header, nat) -> bool {
    (b: u32, h: Header, n: nat) => MainnetChild(b, h, n)
  }

  lemma BitcoinChildren()
    ensures forall h, n, b, f, t, ts :: |ts| == 11 && BitcoinRules.mainnet(h, n, b, f, t, ts).Success? ==>
              ChildOf()(b, h, n)
  {
    forall h, n, b, f, t, ts | |ts| == 11 && BitcoinRules.mainnet(h, n, b, f, t, ts).Success?
      ensures ChildOf()(b, h, n)
    {
      AcceptedMainnetHeader(h, n, b, f, t, ts);
    }
  }
}
