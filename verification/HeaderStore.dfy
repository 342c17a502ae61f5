/**
 The authenticated Bitcoin header store
 (crates/mutiny-node/src/bitcoin_headers.rs).

 Headers form a tree above a locked anchor. An import keeps heights, chainwork
 and the best tip incrementally; `check_state` recomputes all of them by growing
 a validated set to a fixpoint. `Consistent` is what both amount to: every stored
 row is exactly the row that its own header and its parent determine.

 The acceptance rules of a single header are a parameter (`RuleSet`), so the
 store's theorems hold for any rules; `BitcoinRules` are the real ones.
 */
module HeaderStore {
  import opened Bytes
  import opened Wrappers
  import opened CompactTarget
  import opened HeaderRules
  import opened Runs

  datatype Policy = DevnetFixedBits(bits: u32) | Mainnet

  /** `BitcoinHeaderStateStored`; `work` is the 32-byte relative chainwork as a number. */
  datatype Row = Row(hash: BlockHash, height: nat, header: Header, work: nat)

  /** `BitcoinBestChainStored` */
  datatype Best = Best(hash: BlockHash, height: nat, work: nat)

  type Rows = map<BlockHash, Row>

  const U32_LIMIT := 0x1_0000_0000
  const DEVNET_ANCHOR_HEIGHT := 800_352

  /** The locked Devnet anchor hash; no theorem depends on its bytes. */
  const DEVNET_ANCHOR_HASH: BlockHash

  const MAINNET_ANCHOR_HEIGHT := 963_648
  const MAINNET_CONTEXT_START := MAINNET_ANCHOR_HEIGHT - 10

  /** The headers up to the anchor that the locked Genesis block embeds. */
  const MainnetGenesisHeaders: seq<Header>

  /** `mainnet_pack_j_context_header` */
  function ContextHeader(height: nat): (r: Option<Header>) {
    if !(MAINNET_CONTEXT_START <= height <= MAINNET_ANCHOR_HEIGHT) then None
    else
      var index := height - MAINNET_CONTEXT_START;
      if index >= |MainnetGenesisHeaders| then None else Some(MainnetGenesisHeaders[index])
  }

  function AnchorHeight(policy: Policy): (h: nat) {
    if policy.Mainnet? then MAINNET_ANCHOR_HEIGHT else DEVNET_ANCHOR_HEIGHT
  }

  /** `policy_anchor_hash_internal` */
  function AnchorHash(policy: Policy): (r: Result<BlockHash>) {
    match policy
    case DevnetFixedBits(_) => Success(DEVNET_ANCHOR_HASH)
    case Mainnet =>
      match ContextHeader(MAINNET_ANCHOR_HEIGHT)
      case Some(header) => Success(HashOf(header))
      case None => Failure
  }

  // ----------------------------------------------------------------- lineage

  /** The header with this hash at this height: a context header up to the anchor, a row above it. */
  function HeaderAt(rows: Rows, hash: BlockHash, height: nat): (r: Result<Header>) {
    if height <= MAINNET_ANCHOR_HEIGHT then
      match ContextHeader(height)
      case Some(header) => if HashOf(header) == hash then Success(header) else Failure
      case None => Failure
    else if hash in rows && rows[hash].height == height then Success(rows[hash].header)
    else Failure
  }

  function Lineage(rows: Rows, hash: BlockHash, height: nat, target: nat): (r: Result<Header>)
    requires target <= height
    decreases height
  {
    var current :- HeaderAt(rows, hash, height);
    if height == target then Success(current)
    else Lineage(rows, current.previous, height - 1, target)
  }

  /** What `mainnet_lineage_header_at_height` returns. */
  function LineageHeader(rows: Rows, hash: BlockHash, height: nat, target: nat): (r: Result<Header>) {
    if target < MAINNET_CONTEXT_START || height < target then Failure
    else Lineage(rows, hash, height, target)
  }

  /** `mainnet_lineage_header_at_height`: the ancestry loop. */
  method MainnetLineageHeaderAtHeight(rows: Rows, hash: BlockHash, height: nat, target: nat)
    returns (r: Result<Header>)
    ensures r == LineageHeader(rows, hash, height, target)
  {
    if target < MAINNET_CONTEXT_START {
      return Failure;
    }
    if height < target {
      return Failure;
    }
    var currentHash, currentHeight := hash, height;
    while true
      invariant target <= currentHeight
      invariant Lineage(rows, hash, height, target) == Lineage(rows, currentHash, currentHeight, target)
      decreases currentHeight
    {
      var current: Header;
      if currentHeight <= MAINNET_ANCHOR_HEIGHT {
        var context := ContextHeader(currentHeight);
        if context.None? {
          return Failure;
        }
        if HashOf(context.value) != currentHash {
          return Failure;
        }
        current := context.value;
      } else {
        if currentHash !in rows {
          return Failure;
        }
        if rows[currentHash].height != currentHeight {
          return Failure;
        }
        current := rows[currentHash].header;
      }
      if currentHeight == target {
        return Success(current);
      }
      currentHash := current.previous;
      currentHeight := currentHeight - 1;
    }
  }

  /** Timestamps of the lineage at heights `from..height`. */
  function LineageTimes(rows: Rows, hash: BlockHash, height: nat, from: nat): (r: Result<seq<u32>>)
    requires from <= height + 1
    ensures r.Success? ==> |r.value| == height + 1 - from
    decreases height + 1 - from
  {
    if from == height + 1 then Success([])
    else
      var header :- LineageHeader(rows, hash, height, from);
      var rest :- LineageTimes(rows, hash, height, from + 1);
      Success([header.timestamp] + rest)
  }

  // ---------------------------------------------------------- header validity

  /** The rules one header must meet, given what the lineage supplies; they return its work. */
  datatype RuleSet = RuleSet(
    devnet: (Header, u32) -> Result<nat>,
    mainnet: (Header, nat, u32, u32, u32, seq<u32>) -> Result<nat>)

  const BitcoinRules: RuleSet := RuleSet(
    (h: Header, bits: u32) => ValidateDevnetHeader(h, bits),
    (h: Header, next: nat, bits: u32, first: u32, time: u32, times: seq<u32>) =>
      if |times| == 11 then ValidateMainnetHeader(h, next, bits, first, time, times) else Failure)

  /** `validate_header_for_policy` */
  function ValidateHeader(rules: RuleSet, rows: Rows, policy: Policy, h: Header,
                          nextHeight: nat, parentHeight: nat): (r: Result<nat>)
  {
    match policy
    case DevnetFixedBits(bits) => rules.devnet(h, bits)
    case Mainnet =>
      if nextHeight <= MAINNET_ANCHOR_HEIGHT || parentHeight + 1 != nextHeight then Failure
      else
        var parentHash := h.previous;
        var parent :- LineageHeader(rows, parentHash, parentHeight, parentHeight);
        if nextHeight - 11 < MAINNET_CONTEXT_START then Failure
        else
          var times :- LineageTimes(rows, parentHash, parentHeight, nextHeight - 11);
          var first :-
            if nextHeight % RETARGET_INTERVAL == 0 then
              LineageHeader(rows, parentHash, parentHeight, nextHeight - RETARGET_INTERVAL)
            else Success(parent);
          rules.mainnet(h, nextHeight, parent.bits, first.timestamp, parent.timestamp, times)
  }

  /** `parent_metadata`: height and chainwork of the parent. */
  function ParentMetadata(rows: Rows, policy: Policy, previous: BlockHash): (r: Result<(nat, nat)>) {
    var anchor :- AnchorHash(policy);
    if previous == anchor then Success((AnchorHeight(policy), 0))
    else if previous in rows then Success((rows[previous].height, rows[previous].work))
    else Failure
  }

  /** The row that a header must have in a store, or an error when it may not be stored. */
  function ExpectedRow(rules: RuleSet, rows: Rows, policy: Policy, h: Header): (r: Result<Row>)
    ensures r.Success? ==> r.value.hash == HashOf(h) && r.value.header == h
  {
    var (parentHeight, parentWork) :- ParentMetadata(rows, policy, h.previous);
    RowAbove(rules, rows, policy, h, parentHeight, parentWork)
  }

  /** The row of a header whose parent has this height and chainwork. */
  function RowAbove(rules: RuleSet, rows: Rows, policy: Policy, h: Header, parentHeight: nat, parentWork: nat)
    : (r: Result<Row>)
    ensures r.Success? ==> r.value.hash == HashOf(h) && r.value.header == h
  {
    var height := parentHeight + 1;
    if height >= U32_LIMIT then Failure
    else
      var work :- ValidateHeader(rules, rows, policy, h, height, parentHeight);
      var total :- AddChainwork(parentWork, work);
      Success(Row(HashOf(h), height, h, total))
  }

  // -------------------------------------------------------- the store's state

  /** Every row is the one its header and its parent determine. */
  ghost predicate Consistent(rules: RuleSet, policy: Policy, rows: Rows) {
    forall k :: k in rows ==> RowOk(rules, policy, rows, k)
  }

  ghost predicate RowOk(rules: RuleSet, policy: Policy, rows: Rows, k: BlockHash)
    requires k in rows
  {
    && rows[k].hash == k && HashOf(rows[k].header) == k
    && ExpectedRow(rules, rows, policy, rows[k].header) == Success(rows[k])
  }

  /** The singleton names a stored row of greatest work. */
  ghost predicate BestOk(rows: Rows, best: Option<Best>) {
    if rows == map[] then best.None?
    else
      && best.Some? && best.value.hash in rows
      && best.value.height == rows[best.value.hash].height
      && best.value.work == rows[best.value.hash].work
      && forall k :: k in rows ==> rows[k].work <= best.value.work
  }

  /** What `check_state` accepts. */
  ghost predicate StateOk(rules: RuleSet, policy: Option<Policy>, rows: Rows, best: Option<Best>) {
    && BestOk(rows, best)
    && (rows != map[] ==>
          policy.Some? && AnchorHash(policy.value).Success? && Consistent(rules, policy.value, rows))
  }

  /** Heights count parent links from the anchor. */
  ghost predicate LinksToParent(rows: Rows, anchorHash: BlockHash, anchorHeight: nat, k: BlockHash)
    requires k in rows
  {
    var previous := rows[k].header.previous;
    if previous == anchorHash then rows[k].height == anchorHeight + 1
    else previous in rows && rows[k].height == rows[previous].height + 1
  }

  lemma ConsistentLinks(rules: RuleSet, policy: Policy, rows: Rows, k: BlockHash)
    requires Consistent(rules, policy, rows) && k in rows
    ensures AnchorHash(policy).Success?
    ensures LinksToParent(rows, AnchorHash(policy).value, AnchorHeight(policy), k)
  {
    assert RowOk(rules, policy, rows, k);
  }

  /** The parts a consistent row is made of. */
  lemma RowParts(rules: RuleSet, policy: Policy, rows: Rows, k: BlockHash)
    returns (parentHeight: nat, parentWork: nat, work: nat)
    requires k in rows && RowOk(rules, policy, rows, k)
    ensures ParentMetadata(rows, policy, rows[k].header.previous) == Success((parentHeight, parentWork))
    ensures ValidateHeader(rules, rows, policy, rows[k].header, parentHeight + 1, parentHeight) == Success(work)
    ensures rows[k].height == parentHeight + 1 && rows[k].work == parentWork + work < TWO_256
  {
    var h := rows[k].header;
    var metadata := ParentMetadata(rows, policy, h.previous).value;
    parentHeight, parentWork := metadata.0, metadata.1;
    work := ValidateHeader(rules, rows, policy, h, parentHeight + 1, parentHeight).value;
  }

  /** What the lineage supplies to the mainnet rules when a header is accepted. */
  lemma MainnetInputs(rules: RuleSet, rows: Rows, h: Header, parentHeight: nat)
    returns (parent: Header, first: Header, times: seq<u32>)
    requires ValidateHeader(rules, rows, Mainnet, h, parentHeight + 1, parentHeight).Success?
    ensures parentHeight + 1 > MAINNET_ANCHOR_HEIGHT && |times| == 11
    ensures HeaderAt(rows, h.previous, parentHeight) == Success(parent)
    ensures LineageTimes(rows, h.previous, parentHeight, parentHeight + 1 - 11) == Success(times)
    ensures (parentHeight + 1) % RETARGET_INTERVAL == 0 ==>
              LineageHeader(rows, h.previous, parentHeight, parentHeight + 1 - RETARGET_INTERVAL) == Success(first)
    ensures (parentHeight + 1) % RETARGET_INTERVAL != 0 ==> first == parent
    ensures ValidateHeader(rules, rows, Mainnet, h, parentHeight + 1, parentHeight)
            == rules.mainnet(h, parentHeight + 1, parent.bits, first.timestamp, parent.timestamp, times)
  {
    var next := parentHeight + 1;
    parent := LineageHeader(rows, h.previous, parentHeight, parentHeight).value;
    times := LineageTimes(rows, h.previous, parentHeight, next - 11).value;
    first := if next % RETARGET_INTERVAL == 0
             then LineageHeader(rows, h.previous, parentHeight, next - RETARGET_INTERVAL).value else parent;
  }

  // ------------------------------------------------ lookups survive additions

  ghost predicate Extends(rows: Rows, more: Rows) {
    forall k :: k in rows ==> k in more && more[k] == rows[k]
  }

  lemma {:induction false} LineageStable(rows: Rows, more: Rows, hash: BlockHash, height: nat, target: nat)
    requires Extends(rows, more) && target <= height && Lineage(rows, hash, height, target).Success?
    ensures Lineage(more, hash, height, target) == Lineage(rows, hash, height, target)
    decreases height
  {
    if height != target {
      var current := HeaderAt(rows, hash, height).value;
      LineageStable(rows, more, current.previous, height - 1, target);
    }
  }

  lemma {:induction false} LineageTimesStable(rows: Rows, more: Rows, hash: BlockHash, height: nat, from: nat)
    requires Extends(rows, more) && from <= height + 1 && LineageTimes(rows, hash, height, from).Success?
    ensures LineageTimes(more, hash, height, from) == LineageTimes(rows, hash, height, from)
    decreases height + 1 - from
  {
    if from <= height {
      LineageStable(rows, more, hash, height, from);
      LineageTimesStable(rows, more, hash, height, from + 1);
    }
  }

  /** Adding headers never changes the verdict on a header that was accepted. */
  lemma ValidateHeaderStable(rules: RuleSet, rows: Rows, more: Rows, policy: Policy, h: Header,
                             nextHeight: nat, parentHeight: nat)
    requires Extends(rows, more)
    requires ValidateHeader(rules, rows, policy, h, nextHeight, parentHeight).Success?
    ensures ValidateHeader(rules, more, policy, h, nextHeight, parentHeight)
            == ValidateHeader(rules, rows, policy, h, nextHeight, parentHeight)
  {
    if policy.Mainnet? {
      var p := h.previous;
      LineageStable(rows, more, p, parentHeight, parentHeight);
      LineageTimesStable(rows, more, p, parentHeight, nextHeight - 11);
      if nextHeight % RETARGET_INTERVAL == 0 {
        LineageStable(rows, more, p, parentHeight, nextHeight - RETARGET_INTERVAL);
      }
    }
  }

  lemma ExpectedRowStable(rules: RuleSet, rows: Rows, more: Rows, policy: Policy, h: Header)
    requires Extends(rows, more) && ExpectedRow(rules, rows, policy, h).Success?
    ensures ExpectedRow(rules, more, policy, h) == ExpectedRow(rules, rows, policy, h)
  {
    var (parentHeight, parentWork) := ParentMetadata(rows, policy, h.previous).value;
    RowAboveStable(rules, rows, more, policy, h, parentHeight, parentWork);
  }

  lemma RowAboveStable(rules: RuleSet, rows: Rows, more: Rows, policy: Policy, h: Header,
                       parentHeight: nat, parentWork: nat)
    requires Extends(rows, more)
    requires RowAbove(rules, rows, policy, h, parentHeight, parentWork).Success?
    ensures RowAbove(rules, more, policy, h, parentHeight, parentWork)
            == RowAbove(rules, rows, policy, h, parentHeight, parentWork)
  {
    ValidateHeaderStable(rules, rows, more, policy, h, parentHeight + 1, parentHeight);
  }

  // ------------------------------------------------------------------ import

  /** One turn of the import loop. */
  function ImportOne(rules: RuleSet, policy: Policy, rows: Rows, best: Option<Best>, h: Header)
    : (r: Result<(Rows, Option<Best>)>)
  {
    var hash := HashOf(h);
    if hash in rows then
      if rows[hash].header != h then Failure else Success((rows, best))
    else
      var row :- ExpectedRow(rules, rows, policy, h);
      Success((rows[hash := row], Switch(best, row)))
  }

  /** A strictly heavier header becomes the tip; a tie keeps the old one. */
  function Switch(best: Option<Best>, row: Row): Option<Best> {
    if best.None? || row.work > best.value.work then Some(Best(row.hash, row.height, row.work)) else best
  }

  function ImportStep(rules: RuleSet, policy: Policy)
    : ((Rows, Option<Best>), Header) -> Result<(Rows, Option<Best>)>
  {
    (s: (Rows, Option<Best>), h: Header) => ImportOne(rules, policy, s.0, s.1, h)
  }

  /** The import loop of `apply_operation`. */
  function ImportAll(rules: RuleSet, policy: Policy, rows: Rows, best: Option<Best>, batch: seq<Header>)
    : (r: Result<(Rows, Option<Best>)>)
  {
    Run(ImportStep(rules, policy), (rows, best), batch)
  }

  /** The best work never falls, and the tip changes only for strictly more work. */
  ghost predicate BestAdvances(best: Option<Best>, best': Option<Best>) {
    best.Some? ==> best'.Some? && (best' == best || best'.value.work > best.value.work)
  }

  /** One accepted header keeps the incremental fields equal to their recomputation. */
  lemma ImportOnePreserves(rules: RuleSet, policy: Policy, rows: Rows, best: Option<Best>, h: Header)
    requires BestOk(rows, best) && Consistent(rules, policy, rows)
    requires ImportOne(rules, policy, rows, best, h).Success?
    ensures var (rows', best') := ImportOne(rules, policy, rows, best, h).value;
            && BestOk(rows', best') && Consistent(rules, policy, rows') && Extends(rows, rows')
            && HashOf(h) in rows' && AnchorHash(policy).Success? && BestAdvances(best, best')
  {
    if HashOf(h) !in rows {
      ConsistentExtend(rules, policy, rows, h);
    }
  }

  /** Storing the row that a new header determines leaves every other row as it should be. */
  lemma ConsistentExtend(rules: RuleSet, policy: Policy, rows: Rows, h: Header)
    requires Consistent(rules, policy, rows) && HashOf(h) !in rows
    requires ExpectedRow(rules, rows, policy, h).Success?
    ensures Consistent(rules, policy, rows[HashOf(h) := ExpectedRow(rules, rows, policy, h).value])
  {
    var row := ExpectedRow(rules, rows, policy, h).value;
    var more := rows[HashOf(h) := row];
    assert Extends(rows, more);
    forall k | k in more ensures RowOk(rules, policy, more, k) {
      assert k != HashOf(h) ==> RowOk(rules, policy, rows, k);
      ExpectedRowStable(rules, rows, more, policy, more[k].header);
    }
  }

  ghost predicate Grows(s: (Rows, Option<Best>), t: (Rows, Option<Best>)) {
    Extends(s.0, t.0) && BestAdvances(s.1, t.1)
  }

  /**
   Every accepted batch leaves a state that the from-scratch check accepts; the
   store only grows and the best work never falls.
   */
  lemma ImportAllPreserves(rules: RuleSet, policy: Policy, rows: Rows, best: Option<Best>, batch: seq<Header>)
    requires StateOk(rules, Some(policy), rows, best)
    requires ImportAll(rules, policy, rows, best, batch).Success?
    ensures var (rows', best') := ImportAll(rules, policy, rows, best, batch).value;
            StateOk(rules, Some(policy), rows', best') && Grows((rows, best), (rows', best'))
  {
    var inv := (s: (Rows, Option<Best>)) => StateOk(rules, Some(policy), s.0, s.1);
    var rel := (s: (Rows, Option<Best>), t: (Rows, Option<Best>)) => Grows(s, t);
    var step := ImportStep(rules, policy);
    forall s, h | inv(s) && step(s, h).Success?
      ensures inv(step(s, h).value) && rel(s, step(s, h).value)
    {
      ImportOnePreserves(rules, policy, s.0, s.1, h);
    }
    RunRelation(step, inv, rel, (rows, best), batch);
  }

  /** Every header of an accepted batch is stored. */
  lemma ImportAllStores(rules: RuleSet, policy: Policy, rows: Rows, best: Option<Best>, batch: seq<Header>, i: nat)
    requires StateOk(rules, Some(policy), rows, best) && i < |batch|
    requires ImportAll(rules, policy, rows, best, batch).Success?
    ensures HashOf(batch[i]) in ImportAll(rules, policy, rows, best, batch).value.0
  {
    var upTo, rest := batch[..i + 1], batch[i + 1..];
    assert batch == upTo + rest && upTo[..i] == batch[..i];
    RunSplits(ImportStep(rules, policy), (rows, best), upTo, rest);
    var before := ImportAll(rules, policy, rows, best, batch[..i]).value;
    ImportAllPreserves(rules, policy, rows, best, batch[..i]);
    ImportOnePreserves(rules, policy, before.0, before.1, batch[i]);
    var after := ImportAll(rules, policy, rows, best, upTo).value;
    ImportAllPreserves(rules, policy, rows, best, upTo);
    ImportAllPreserves(rules, policy, after.0, after.1, rest);
  }

  /** One batch has the same outcome as its parts imported one after the other. */
  lemma ImportAllSplits(rules: RuleSet, policy: Policy, rows: Rows, best: Option<Best>,
                        a: seq<Header>, b: seq<Header>)
    ensures ImportAll(rules, policy, rows, best, a + b) ==
            (var (rows1, best1) :- ImportAll(rules, policy, rows, best, a);
             ImportAll(rules, policy, rows1, best1, b))
  {
    RunSplits(ImportStep(rules, policy), (rows, best), a, b);
  }

  // -------------------------------------------------------- recomputed check

  ghost predicate Stuck(rows: Rows, policy: Policy, unvalidated: set<BlockHash>) {
    forall k :: k in unvalidated ==>
      && k in rows
      && AnchorHash(policy) != Success(rows[k].header.previous)
      && (rows[k].header.previous in rows ==> rows[k].header.previous in unvalidated)
  }

  /** A consistent store has no rows that lean on one another in a cycle. */
  lemma {:induction false} StuckImpossible(rules: RuleSet, policy: Policy, rows: Rows,
                                           unvalidated: set<BlockHash>, k: BlockHash)
    requires Consistent(rules, policy, rows) && Stuck(rows, policy, unvalidated) && k in unvalidated
    ensures false
    decreases rows[k].height
  {
    ConsistentLinks(rules, policy, rows, k);
    StuckImpossible(rules, policy, rows, unvalidated, rows[k].header.previous);
  }

  /**
   The fixpoint of `check_state` over the rows, in any iteration order: it accepts
   exactly the consistent stores.
   */
  method ValidateRows(rules: RuleSet, policy: Policy, rows: Rows) returns (ok: bool)
    requires AnchorHash(policy).Success?
    requires forall k :: k in rows ==> rows[k].hash == k && HashOf(rows[k].header) == k
    ensures ok <==> Consistent(rules, policy, rows)
  {
    var anchor := AnchorHash(policy).value;
    var validated: set<BlockHash> := {};
    while validated != rows.Keys
      invariant validated <= rows.Keys
      invariant forall k :: k in validated ==> RowOk(rules, policy, rows, k)
      decreases rows.Keys - validated
    {
      var before := validated;
      var todo := rows.Keys;
      while todo != {}
        invariant todo <= rows.Keys && before <= validated <= rows.Keys
        invariant forall k :: k in validated ==> RowOk(rules, policy, rows, k)
        invariant forall k :: k in rows.Keys - todo - validated ==>
                    && rows[k].header.previous != anchor
                    && (rows[k].header.previous in rows ==> rows[k].header.previous !in before)
        decreases todo
      {
        var k :| k in todo;
        todo := todo - {k};
        if k !in validated {
          var stored := rows[k];
          var previous := stored.header.previous;
          if previous == anchor || (previous in rows && previous in validated) {
            var expected := ExpectedRow(rules, rows, policy, stored.header);
            if expected != Success(stored) {
              assert !RowOk(rules, policy, rows, k);
              return false;
            }
            validated := validated + {k};
          }
        }
      }
      if validated == before {
        assert rows.Keys - validated != {};
        var k :| k in rows.Keys - validated;
        if Consistent(rules, policy, rows) {
          StuckImpossible(rules, policy, rows, rows.Keys - validated, k);
        }
        return false;
      }
    }
    return true;
  }
}
