/**
 Provisional empty epochs, rewind and replay (crates/mutiny-node/src/blocksync.rs,
 Devnet path).

 A node may advance through empty epochs on its own before a late block arrives.
 The theorem: from height 1 on, the consensus state is always the one obtained by
 replaying the block list from Genesis and then advancing empty epochs to the tip
 epoch, whatever mix of local advances, announced blocks, extensions and reorgs
 led to it.

 What one epoch tick, one difficulty observation and one block do to the consensus
 fields are unknown deterministic functions (`Rules`).
 */
module ChainReplay {
  import opened Wrappers
  import opened Runs

  type Core(!new, ==)
  type Hash(!new, ==)
  type Body(!new, ==)
  type Root(!new, ==)

  /** A stored block (`BlockState`). */
  datatype Block = Block(hash: Hash, parent: Hash, epoch: nat, work: nat, body: Body)

  /** The consensus part of the node state; mempool, pending operations and side branches are not in it. */
  datatype Ledger = Ledger(core: Core, tipEpoch: nat, height: nat, tipHash: Hash, blocks: seq<Block>, root: Root)

  datatype Rules = Rules(
    genesis: Core, genesisHash: Hash,
    tick: (Core, nat) -> Result<Core>,            // apply_scheduled_license_transitions
    observeEmpty: (Core, nat, nat) -> Result<Core>, // append_difficulty_result(false) where enabled
    applyBody: (Core, Block, nat) -> Result<Core>,  // the checks and effects of a block at its epoch
    applyFirst: (Core, Block) -> Result<Core>,      // the bootstrap block on the Genesis state
    reload: Block -> Result<Block>,                 // encode_block_payload then decode_block_payload
    stateRoot: (Core, nat, nat) -> Root)            // compute_state_root

  /** Stored blocks that were accepted can be served and read back. */
  ghost predicate Reloads(r: Rules) {
    && (forall core, b, h :: r.applyBody(core, b, h).Success? ==> r.reload(b) == Success(b))
    && (forall core, b :: r.applyFirst(core, b).Success? ==> r.reload(b) == Success(b))
  }

  /** `reset_for_replay` */
  function Genesis(r: Rules): Ledger {
    Ledger(r.genesis, 0, 0, r.genesisHash, [], r.stateRoot(r.genesis, 0, 0))
  }

  // ------------------------------------------------------------ empty epochs

  /** One empty epoch. */
  function EmptyEpoch(r: Rules, core: Core, height: nat, epoch: nat): Result<Core> {
    var ticked :- r.tick(core, epoch);
    r.observeEmpty(ticked, height, epoch)
  }

  /** The consensus fields after the empty epochs `from + 1 ..= through`. */
  function EmptyEpochs(r: Rules, core: Core, height: nat, from: nat, through: nat): Result<Core>
    decreases through - from
  {
    if through <= from then Success(core)
    else
      var next :- EmptyEpoch(r, core, height, from + 1);
      EmptyEpochs(r, next, height, from + 1, through)
  }

  /** `advance_empty_epochs` */
  function Advance(r: Rules, l: Ledger, through: nat): Result<Ledger> {
    if through <= l.tipEpoch then Success(l)
    else
      var core :- EmptyEpochs(r, l.core, l.height, l.tipEpoch, through);
      Success(l.(core := core, tipEpoch := through, root := r.stateRoot(core, through, l.height)))
  }

  /** The empty epochs before `at` succeed from `start` and `at` fails, leaving `core`. */
  predicate StoppedAt(r: Rules, start: Core, height: nat, from: nat, at: nat, core: Core) {
    from < at
    && var before := EmptyEpochs(r, start, height, from, at - 1);
       before.Success?
       && match r.tick(before.value, at)
          case Failure => core == before.value
          case Success(ticked) => core == ticked && r.observeEmpty(ticked, height, at).Failure?
  }

  lemma {:induction false} EmptyEpochsSplit(r: Rules, core: Core, height: nat, from: nat, mid: nat, through: nat)
    requires from <= mid <= through
    ensures EmptyEpochs(r, core, height, from, through) ==
            (var half :- EmptyEpochs(r, core, height, from, mid); EmptyEpochs(r, half, height, mid, through))
    decreases mid - from
  {
    if from < mid {
      var next := EmptyEpoch(r, core, height, from + 1);
      if next.Success? {
        EmptyEpochsSplit(r, next.value, height, from + 1, mid, through);
      }
    }
  }

  /** Advancing in two goes is advancing once. */
  lemma AdvanceTwice(r: Rules, l: Ledger, a: nat, b: nat)
    requires a <= b
    ensures Advance(r, l, b) == (var half :- Advance(r, l, a); Advance(r, half, b))
  {
    if l.tipEpoch < a {
      EmptyEpochsSplit(r, l.core, l.height, l.tipEpoch, a, b);
    }
  }

  // ------------------------------------------------------------------ blocks

  /** `validate_and_apply_block`, as far as epochs go. */
  function ApplyBlock(r: Rules, l: Ledger, b: Block): Result<Ledger> {
    if l.height == 0 then
      var core :- r.applyFirst(l.core, b);
      Success(Ledger(core, b.epoch, 1, b.hash, l.blocks + [b], r.stateRoot(core, b.epoch, 1)))
    else if b.epoch <= l.tipEpoch || b.parent != l.tipHash then Failure
    else
      var before :- Advance(r, l, b.epoch - 1);
      var ticked :- r.tick(before.core, b.epoch);
      var core :- r.applyBody(ticked, b, l.height + 1);
      Success(Ledger(core, b.epoch, l.height + 1, b.hash, l.blocks + [b], r.stateRoot(core, b.epoch, l.height + 1)))
  }

  /** A block applies to a provisionally advanced ledger exactly as to the one it was advanced from. */
  lemma ApplyAfterAdvance(r: Rules, l: Ledger, e: nat, b: Block)
    requires l.height > 0 && Advance(r, l, e).Success? && l.tipEpoch <= e < b.epoch
    ensures ApplyBlock(r, Advance(r, l, e).value, b) == ApplyBlock(r, l, b)
  {
    AdvanceTwice(r, l, e, b.epoch - 1);
  }

  function ApplyStep(r: Rules): (Ledger, Block) -> Result<Ledger> {
    (l: Ledger, b: Block) => ApplyBlock(r, l, b)
  }

  /** Blocks applied one after the other, as they come off the wire. */
  function ApplyAll(r: Rules, l: Ledger, blocks: seq<Block>): Result<Ledger> {
    Run(ApplyStep(r), l, blocks)
  }

  /** A block is encoded, decoded and applied. */
  function ReplayBlock(r: Rules, l: Ledger, b: Block): Result<Ledger> {
    var wire :- r.reload(b);
    ApplyBlock(r, l, wire)
  }

  function ReplayStep(r: Rules): (Ledger, Block) -> Result<Ledger> {
    (l: Ledger, b: Block) => ReplayBlock(r, l, b)
  }

  /** `replay_canonical_blocks`: stored blocks are encoded and decoded again before they are applied. */
  function Replay(r: Rules, blocks: seq<Block>): Result<Ledger> {
    Run(ReplayStep(r), Genesis(r), blocks)
  }

  /** What applying blocks from Genesis builds besides the consensus fields. */
  lemma {:induction false} BuiltShape(r: Rules, blocks: seq<Block>)
    requires ApplyAll(r, Genesis(r), blocks).Success?
    ensures var l := ApplyAll(r, Genesis(r), blocks).value;
            && l.blocks == blocks && l.height == |blocks|
            && (blocks != [] ==> l.tipEpoch == blocks[|blocks| - 1].epoch && l.tipHash == blocks[|blocks| - 1].hash)
  {
    if blocks != [] {
      BuiltShape(r, blocks[..|blocks| - 1]);
      assert blocks == blocks[..|blocks| - 1] + [blocks[|blocks| - 1]];
    }
  }

  /** Replaying blocks that were once accepted never fails and rebuilds the same ledger. */
  lemma {:induction false} ReplayRebuilds(r: Rules, blocks: seq<Block>)
    requires Reloads(r) && ApplyAll(r, Genesis(r), blocks).Success?
    ensures Replay(r, blocks) == ApplyAll(r, Genesis(r), blocks)
  {
    if blocks != [] {
      ReplayRebuilds(r, blocks[..|blocks| - 1]);
    }
  }

  // --------------------------------------------------------------- the node

  datatype Event =
    | AdvanceTo(epoch: nat)              // provisional empty epochs
    | Announced(block: Block)            // validate_and_apply_announced_block
    | Extension(blocks: seq<Block>)      // the straight-extension branch of a sync
    | Fork(blocks: seq<Block>)           // a peer's whole branch, then reconcile_validated_remote

  function CanonicalEpoch(l: Ledger): nat {
    if l.blocks == [] then 0 else l.blocks[|l.blocks| - 1].epoch
  }

  /** `validate_and_apply_announced_block`: a late block rewinds the provisional epochs first. */
  function AnnouncedBlock(r: Rules, l: Ledger, b: Block): Result<Ledger> {
    if b.parent == l.tipHash && CanonicalEpoch(l) < b.epoch <= l.tipEpoch then
      var rewound :- Replay(r, l.blocks);
      ApplyBlock(r, rewound, b)
    else ApplyBlock(r, l, b)
  }

  /** The straight-extension branch of `sync_state_from_peer_persistent`. */
  function Extend(r: Rules, l: Ledger, blocks: seq<Block>): Result<Ledger> {
    var base :- if l.tipEpoch > CanonicalEpoch(l) then Replay(r, l.blocks) else Success(l);
    ApplyAll(r, base, blocks)
  }

  /** `chainwork` */
  function Chainwork(blocks: seq<Block>): nat {
    if blocks == [] then 0 else Chainwork(blocks[..|blocks| - 1]) + blocks[|blocks| - 1].work
  }

  /** The fork branch: rebuild the peer's branch from Genesis and adopt it only for more work. */
  function Reconcile(r: Rules, l: Ledger, blocks: seq<Block>): Result<Ledger> {
    var remote :- ApplyAll(r, Genesis(r), blocks);
    if Chainwork(remote.blocks) <= Chainwork(l.blocks) then Success(l) else Success(remote)
  }

  function Outcome(r: Rules, l: Ledger, e: Event): Result<Ledger> {
    match e
    case AdvanceTo(epoch) => Advance(r, l, epoch)
    case Announced(b) => AnnouncedBlock(r, l, b)
    case Extension(blocks) => Extend(r, l, blocks)
    case Fork(blocks) => Reconcile(r, l, blocks)
  }

  /**
   What one event leaves; a refused one changes nothing. For an advance this assumes that
   its caller discards the state it failed on, which the source's callers do by working on
   a copy or by stopping without saving.
   */
  function Step(r: Rules): (Ledger, Event) -> Result<Ledger> {
    (l: Ledger, e: Event) => Success(match Outcome(r, l, e) case Success(l') => l' case Failure => l)
  }

  /** The blocks applied from Genesis, then empty epochs up to the tip epoch. */
  function Canonical(r: Rules, blocks: seq<Block>, epoch: nat): Result<Ledger> {
    var built :- ApplyAll(r, Genesis(r), blocks);
    Advance(r, built, epoch)
  }

  ghost predicate Inv(r: Rules, l: Ledger) {
    l.blocks != [] && Canonical(r, l.blocks, l.tipEpoch) == Success(l)
  }

  /** What the invariant says of the ledger that the node would rewind to. */
  lemma InvRewind(r: Rules, l: Ledger)
    requires Inv(r, l)
    ensures var built := ApplyAll(r, Genesis(r), l.blocks);
            && built.Success? && built.value.height == l.height == |l.blocks| > 0
            && built.value.tipEpoch == CanonicalEpoch(l) <= l.tipEpoch && built.value.tipHash == l.tipHash
            && built.value.blocks == l.blocks && Advance(r, built.value, l.tipEpoch) == Success(l)
  {
    BuiltShape(r, l.blocks);
  }

  /** A ledger built by blocks alone is canonical. */
  lemma BuiltInv(r: Rules, blocks: seq<Block>)
    requires blocks != [] && ApplyAll(r, Genesis(r), blocks).Success?
    ensures Inv(r, ApplyAll(r, Genesis(r), blocks).value)
  {
    BuiltShape(r, blocks);
  }

  /**
   However far the node has advanced on its own, an announced child of its tip has
   the outcome it would have had without any provisional epoch.
   */
  lemma AnnouncedIgnoresProvisional(r: Rules, l: Ledger, b: Block)
    requires Reloads(r) && Inv(r, l)
    ensures b.parent == l.tipHash && b.epoch > CanonicalEpoch(l) ==>
              AnnouncedBlock(r, l, b) == ApplyAll(r, Genesis(r), l.blocks + [b])
    ensures !(b.parent == l.tipHash && b.epoch > CanonicalEpoch(l)) ==> AnnouncedBlock(r, l, b).Failure?
  {
    InvRewind(r, l);
    ReplayRebuilds(r, l.blocks);
    var built := ApplyAll(r, Genesis(r), l.blocks).value;
    assert (l.blocks + [b])[..|l.blocks|] == l.blocks;
    assert ApplyAll(r, Genesis(r), l.blocks + [b]) == ApplyBlock(r, built, b);
    if b.parent == l.tipHash && b.epoch > l.tipEpoch {
      ApplyAfterAdvance(r, built, l.tipEpoch, b);
    }
  }

  /** The same for a straight extension by any number of blocks. */
  lemma ExtensionIgnoresProvisional(r: Rules, l: Ledger, blocks: seq<Block>)
    requires Reloads(r) && Inv(r, l)
    ensures Extend(r, l, blocks) == ApplyAll(r, Genesis(r), l.blocks + blocks)
  {
    InvRewind(r, l);
    ReplayRebuilds(r, l.blocks);
    RunSplits(ApplyStep(r), Genesis(r), l.blocks, blocks);
  }

  lemma StepKeepsInv(r: Rules, l: Ledger, e: Event)
    requires Reloads(r) && Inv(r, l)
    ensures Inv(r, Step(r)(l, e).value)
  {
    match e
    case AdvanceTo(epoch) =>
      InvRewind(r, l);
      if epoch > l.tipEpoch {
        AdvanceTwice(r, ApplyAll(r, Genesis(r), l.blocks).value, l.tipEpoch, epoch);
      }
    case Announced(b) =>
      AnnouncedIgnoresProvisional(r, l, b);
      if AnnouncedBlock(r, l, b).Success? { BuiltInv(r, l.blocks + [b]); }
    case Extension(blocks) =>
      ExtensionIgnoresProvisional(r, l, blocks);
      if Extend(r, l, blocks).Success? { BuiltInv(r, l.blocks + blocks); }
    case Fork(blocks) =>
      if ApplyAll(r, Genesis(r), blocks).Success? {
        BuiltShape(r, blocks);
        if blocks != [] { BuiltInv(r, blocks); }
      }
  }

  /**
   From any accepted first block on, every run leaves the state that its own block
   list and tip epoch determine.
   */
  lemma RunsStayCanonical(r: Rules, first: Block, events: seq<Event>)
    requires Reloads(r) && ApplyBlock(r, Genesis(r), first).Success?
    ensures Run(Step(r), ApplyBlock(r, Genesis(r), first).value, events).Success?
    ensures Inv(r, Run(Step(r), ApplyBlock(r, Genesis(r), first).value, events).value)
  {
    var start := ApplyBlock(r, Genesis(r), first).value;
    RunOne(ApplyStep(r), Genesis(r), first);
    BuiltInv(r, [first]);
    RunsKeepInv(r, start, events);
  }

  lemma RunsKeepInv(r: Rules, l: Ledger, events: seq<Event>)
    requires Reloads(r) && Inv(r, l)
    ensures Run(Step(r), l, events).Success? && Inv(r, Run(Step(r), l, events).value)
  {
    RunsSucceed(r, l, events);
    var inv := (x: Ledger) => Inv(r, x);
    forall x, e | inv(x) && Step(r)(x, e).Success? ensures inv(Step(r)(x, e).value) {
      StepKeepsInv(r, x, e);
    }
    RunInvariant(Step(r), inv, l, events);
  }

  lemma {:induction false} RunsSucceed(r: Rules, l: Ledger, events: seq<Event>)
    ensures Run(Step(r), l, events).Success?
  {
    if events != [] {
      RunsSucceed(r, l, events[..|events| - 1]);
    }
  }

  /**
   Two nodes with the same blocks agree however far each had advanced: at equal tip
   epochs their states are equal, and otherwise the one behind reaches the other's.
   */
  lemma SameBlocksAgree(r: Rules, a: Ledger, b: Ledger)
    requires Inv(r, a) && Inv(r, b) && a.blocks == b.blocks && a.tipEpoch <= b.tipEpoch
    ensures Advance(r, a, b.tipEpoch) == Success(b)
  {
    InvRewind(r, a);
    InvRewind(r, b);
    AdvanceTwice(r, ApplyAll(r, Genesis(r), a.blocks).value, a.tipEpoch, b.tipEpoch);
  }

  /** `verify_full_replay`: rebuild the stored blocks, advance to the tip epoch and compare. */
  ghost predicate VerifyFullReplay(r: Rules, l: Ledger) {
    (var replay :- Replay(r, l.blocks); Advance(r, replay, l.tipEpoch)) == Success(l)
  }

  /** The startup replay check passes in every state a run can leave. */
  lemma FullReplayPasses(r: Rules, first: Block, events: seq<Event>)
    requires Reloads(r) && ApplyBlock(r, Genesis(r), first).Success?
    ensures Run(Step(r), ApplyBlock(r, Genesis(r), first).value, events).Success?
    ensures VerifyFullReplay(r, Run(Step(r), ApplyBlock(r, Genesis(r), first).value, events).value)
  {
    RunsStayCanonical(r, first, events);
    var l := Run(Step(r), ApplyBlock(r, Genesis(r), first).value, events).value;
    ReplayRebuilds(r, l.blocks);
  }

  lemma {:induction false} ChainworkGrows(a: seq<Block>, b: seq<Block>)
    ensures Chainwork(a + b) >= Chainwork(a)
  {
    if b == [] {
      assert a + b == a;
    } else {
      ChainworkGrows(a, b[..|b| - 1]);
      assert (a + b)[..|a + b| - 1] == a + b[..|b| - 1];
    }
  }

  lemma StepKeepsWork(r: Rules, l: Ledger, e: Event)
    requires Reloads(r) && Inv(r, l)
    ensures Chainwork(l.blocks) <= Chainwork(Step(r)(l, e).value.blocks)
  {
    match e
    case AdvanceTo(_) =>
    case Announced(b) =>
      AnnouncedIgnoresProvisional(r, l, b);
      if AnnouncedBlock(r, l, b).Success? {
        BuiltShape(r, l.blocks + [b]);
        ChainworkGrows(l.blocks, [b]);
      }
    case Extension(blocks) =>
      ExtensionIgnoresProvisional(r, l, blocks);
      if Extend(r, l, blocks).Success? {
        BuiltShape(r, l.blocks + blocks);
        ChainworkGrows(l.blocks, blocks);
      }
    case Fork(_) =>
  }

  /** In no run does the work of the adopted chain fall. */
  lemma WorkNeverFalls(r: Rules, l: Ledger, events: seq<Event>)
    requires Reloads(r) && Inv(r, l)
    ensures Run(Step(r), l, events).Success?
    ensures Chainwork(l.blocks) <= Chainwork(Run(Step(r), l, events).value.blocks)
  {
    RunsSucceed(r, l, events);
    var inv := (x: Ledger) => Inv(r, x);
    var rel := (x: Ledger, y: Ledger) => Chainwork(x.blocks) <= Chainwork(y.blocks);
    forall x, e | inv(x) && Step(r)(x, e).Success? ensures inv(Step(r)(x, e).value) && rel(x, Step(r)(x, e).value) {
      StepKeepsInv(r, x, e);
      StepKeepsWork(r, x, e);
    }
    RunRelation(Step(r), inv, rel, l, events);
  }

  // ------------------------------------------------------- the state in place

  /** The block loop of a sync, which stops at the first refused block. */
  method ApplyBlocks(r: Rules, start: Ledger, blocks: seq<Block>) returns (result: Result<Ledger>)
    ensures result == ApplyAll(r, start, blocks)
  {
    var l := start;
    var i := 0;
    while i < |blocks|
      invariant 0 <= i <= |blocks| && ApplyAll(r, start, blocks[..i]) == Success(l)
    {
      var next := ApplyBlock(r, l, blocks[i]);
      RunNext(ApplyStep(r), start, blocks, i);
      if next.Failure? {
        RunPrefixFails(ApplyStep(r), start, blocks, i + 1);
        return Failure;
      }
      l := next.value;
      i := i + 1;
    }
    assert blocks[..i] == blocks;
    return Success(l);
  }

  /** `replay_canonical_blocks`: every stored block is encoded and decoded before it is applied. */
  method ReplayCanonicalBlocks(r: Rules, blocks: seq<Block>) returns (result: Result<Ledger>)
    ensures result == Replay(r, blocks)
  {
    var l := Genesis(r);
    var i := 0;
    while i < |blocks|
      invariant 0 <= i <= |blocks| && Replay(r, blocks[..i]) == Success(l)
    {
      var wire := r.reload(blocks[i]);
      RunNext(ReplayStep(r), Genesis(r), blocks, i);
      assert ReplayStep(r)(l, blocks[i]) == ReplayBlock(r, l, blocks[i]);
      if wire.Failure? || ApplyBlock(r, l, wire.value).Failure? {
        RunPrefixFails(ReplayStep(r), Genesis(r), blocks, i + 1);
        return Failure;
      }
      l := ApplyBlock(r, l, wire.value).value;
      i := i + 1;
    }
    assert blocks[..i] == blocks;
    return Success(l);
  }

  lemma ChainworkStep(blocks: seq<Block>, i: nat)
    requires i < |blocks|
    ensures Chainwork(blocks[..i + 1]) == Chainwork(blocks[..i]) + blocks[i].work
  {
    assert blocks[..i + 1][..i] == blocks[..i];
  }

  /** `chainwork`: the work of all blocks, added up in a loop. */
  method SumChainwork(blocks: seq<Block>) returns (total: nat)
    ensures total == Chainwork(blocks)
  {
    total := 0;
    var i := 0;
    while i < |blocks|
      invariant 0 <= i <= |blocks| && total == Chainwork(blocks[..i])
    {
      ChainworkStep(blocks, i);
      total := total + blocks[i].work;
      i := i + 1;
    }
    assert blocks[..i] == blocks;
  }

  /** The consensus fields of the node state, updated in place as the source does. */
  class NodeState {
    const rules: Rules
    var core: Core
    var tipEpoch: nat
    var height: nat
    var tipHash: Hash
    var blocks: seq<Block>
    var root: Root

    constructor (rules: Rules, l: Ledger)
      ensures this.rules == rules && View() == l
    {
      this.rules := rules;
      core, tipEpoch, height, tipHash, blocks, root := l.core, l.tipEpoch, l.height, l.tipHash, l.blocks, l.root;
    }

    function View(): Ledger
      reads this
    {
      Ledger(core, tipEpoch, height, tipHash, blocks, root)
    }

    /**
     `advance_empty_epochs`: the loop, with the root recomputed once at the end. A failure
     leaves the epoch that failed as the tip, with the epochs before it applied.
     */
    method AdvanceEmptyEpochs(through: nat) returns (ok: bool)
      modifies this
      ensures ok <==> Advance(rules, old(View()), through).Success?
      ensures ok ==> Advance(rules, old(View()), through) == Success(View())
      ensures blocks == old(blocks) && height == old(height) && tipHash == old(tipHash)
      ensures !ok ==> root == old(root) && tipEpoch <= through
                      && StoppedAt(rules, old(core), height, old(tipEpoch), tipEpoch, core)
    {
      if through <= tipEpoch {
        return true;
      }
      while tipEpoch < through
        invariant old(tipEpoch) <= tipEpoch <= through
        invariant blocks == old(blocks) && height == old(height) && tipHash == old(tipHash) && root == old(root)
        invariant EmptyEpochs(rules, old(core), height, old(tipEpoch), tipEpoch) == Success(core)
      {
        EmptyEpochsSplit(rules, old(core), height, old(tipEpoch), tipEpoch, tipEpoch + 1);
        EmptyEpochsSplit(rules, old(core), height, old(tipEpoch), tipEpoch + 1, through);
        tipEpoch := tipEpoch + 1;
        var ticked := rules.tick(core, tipEpoch);
        if ticked.Failure? {
          return false;
        }
        core := ticked.value;
        var observed := rules.observeEmpty(core, height, tipEpoch);
        if observed.Failure? {
          return false;
        }
        core := observed.value;
      }
      root := rules.stateRoot(core, tipEpoch, height);
      return true;
    }

    /** Replaces every field, as `*state = next` does. */
    method Assign(l: Ledger)
      modifies this
      ensures View() == l
    {
      core, tipEpoch, height, tipHash, blocks, root := l.core, l.tipEpoch, l.height, l.tipHash, l.blocks, l.root;
    }

    /** `validate_and_apply_announced_block` on the Devnet path; a refused block changes nothing. */
    method ValidateAndApplyAnnouncedBlock(b: Block) returns (ok: bool)
      modifies this
      ensures View() == Step(rules)(old(View()), Announced(b)).value
      ensures ok <==> AnnouncedBlock(rules, old(View()), b).Success?
    {
      var before := View();
      if b.parent == tipHash && CanonicalEpoch(before) < b.epoch <= tipEpoch {
        var rewound := ReplayCanonicalBlocks(rules, blocks);
        if rewound.Failure? {
          return false;
        }
        var next := ApplyBlock(rules, rewound.value, b);
        if next.Failure? {
          return false;
        }
        Assign(next.value);
        return true;
      }
      var next := ApplyBlock(rules, before, b);
      if next.Failure? {
        return false;
      }
      Assign(next.value);
      return true;
    }

    /** The straight-extension branch of a sync; a refused block changes nothing. */
    method ExtendCanonicalChain(extension: seq<Block>) returns (ok: bool)
      modifies this
      ensures View() == Step(rules)(old(View()), Extension(extension)).value
      ensures ok <==> Extend(rules, old(View()), extension).Success?
    {
      var candidate := View();
      if tipEpoch > CanonicalEpoch(View()) {
        var replay := ReplayCanonicalBlocks(rules, blocks);
        if replay.Failure? {
          return false;
        }
        candidate := replay.value;
      }
      var applied := ApplyBlocks(rules, candidate, extension);
      if applied.Failure? {
        return false;
      }
      Assign(applied.value);
      return true;
    }

    /** The fork branch: rebuild the peer's branch, adopt it only for strictly more work. */
    method ReconcileValidatedRemote(remoteBlocks: seq<Block>) returns (ok: bool, adopted: bool)
      modifies this
      ensures View() == Step(rules)(old(View()), Fork(remoteBlocks)).value
      ensures ok <==> Reconcile(rules, old(View()), remoteBlocks).Success?
      ensures adopted <==>
              ApplyAll(rules, Genesis(rules), remoteBlocks).Success? && Chainwork(remoteBlocks) > Chainwork(old(blocks))
      ensures adopted ==> ok && blocks == remoteBlocks
      ensures !adopted ==> View() == old(View())
    {
      var remote := ApplyBlocks(rules, Genesis(rules), remoteBlocks);
      if remote.Failure? {
        return false, false;
      }
      BuiltShape(rules, remoteBlocks);
      var localWork := SumChainwork(blocks);
      var remoteWork := SumChainwork(remote.value.blocks);
      if remoteWork <= localWork {
        return true, false;
      }
      Assign(remote.value);
      return true, true;
    }
  }
}
