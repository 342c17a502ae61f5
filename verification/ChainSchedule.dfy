/**
 What the canonical state is made of, epoch by epoch.

 Independently of how a node got there, the consensus fields are those of the first
 block followed by a fixed schedule: every later epoch up to the tip ticks exactly
 once, in order, and then either its block is applied or it is observed as empty, at
 the height that the block list has there.
 */
module ChainSchedule {
  import opened Wrappers
  import opened Runs
  import opened ChainReplay

  datatype Action = Tick(epoch: nat) | Empty(height: nat, epoch: nat) | Apply(block: Block, height: nat)

  function Perform(r: Rules): (Core, Action) -> Result<Core> {
    (core: Core, a: Action) =>
      match a
      case Tick(epoch) => r.tick(core, epoch)
      case Empty(height, epoch) => r.observeEmpty(core, height, epoch)
      case Apply(b, height) => r.applyBody(core, b, height)
  }

  function BlockAt(blocks: seq<Block>, epoch: nat): Option<Block> {
    if blocks == [] then None
    else if blocks[|blocks| - 1].epoch == epoch then Some(blocks[|blocks| - 1])
    else BlockAt(blocks[..|blocks| - 1], epoch)
  }

  /** How many blocks there are up to an epoch. */
  function HeightAt(blocks: seq<Block>, epoch: nat): nat {
    if blocks == [] then 0
    else HeightAt(blocks[..|blocks| - 1], epoch) + if blocks[|blocks| - 1].epoch <= epoch then 1 else 0
  }

  function EpochActions(blocks: seq<Block>, epoch: nat): seq<Action> {
    [Tick(epoch)] +
    match BlockAt(blocks, epoch)
    case Some(b) => [Apply(b, HeightAt(blocks, epoch))]
    case None => [Empty(HeightAt(blocks, epoch), epoch)]
  }

  /** The actions of the epochs `from + 1 ..= through`. */
  function Schedule(blocks: seq<Block>, from: nat, through: nat): seq<Action>
    decreases through
  {
    if through <= from then [] else Schedule(blocks, from, through - 1) + EpochActions(blocks, through)
  }

  predicate Increasing(blocks: seq<Block>) {
    forall i, j :: 0 <= i < j < |blocks| ==> blocks[i].epoch < blocks[j].epoch
  }

  /** Accepted blocks have strictly increasing epochs. */
  lemma {:induction false} BuiltIncreasing(r: Rules, blocks: seq<Block>)
    requires ApplyAll(r, Genesis(r), blocks).Success?
    ensures Increasing(blocks)
  {
    if |blocks| > 1 {
      var front := blocks[..|blocks| - 1];
      BuiltIncreasing(r, front);
      BuiltShape(r, front);
      assert ApplyBlock(r, ApplyAll(r, Genesis(r), front).value, blocks[|blocks| - 1]).Success?;
      assert front[|front| - 1].epoch < blocks[|blocks| - 1].epoch;
      forall i, j | 0 <= i < j < |blocks| ensures blocks[i].epoch < blocks[j].epoch {
        assert blocks[i] == front[i];
        assert j < |front| ==> blocks[j] == front[j];
      }
    }
  }

  /** Above all blocks. */
  lemma {:induction false} AboveBlocks(blocks: seq<Block>, epoch: nat)
    requires forall i :: 0 <= i < |blocks| ==> blocks[i].epoch < epoch
    ensures BlockAt(blocks, epoch) == None && HeightAt(blocks, epoch) == |blocks|
  {
    if blocks != [] {
      AboveBlocks(blocks[..|blocks| - 1], epoch);
    }
  }

  /** A later block does not change the schedule before it. */
  lemma {:induction false} EarlierSchedule(blocks: seq<Block>, b: Block, from: nat, through: nat)
    requires through < b.epoch
    ensures Schedule(blocks + [b], from, through) == Schedule(blocks, from, through)
    decreases through
  {
    if from < through {
      EarlierSchedule(blocks, b, from, through - 1);
      assert (blocks + [b])[..|blocks + [b]| - 1] == blocks;
    }
  }

  lemma RunTwo(r: Rules, core: Core, a: Action, b: Action)
    ensures Run(Perform(r), core, [a] + [b]) == (var next :- Perform(r)(core, a); Perform(r)(next, b))
  {
    RunSplits(Perform(r), core, [a], [b]);
    RunOne(Perform(r), core, a);
    var next := Perform(r)(core, a);
    if next.Success? {
      RunOne(Perform(r), next.value, b);
    }
  }

  /** The schedule one epoch on. */
  lemma ScheduleStep(r: Rules, blocks: seq<Block>, core: Core, from: nat, through: nat)
    requires from < through
    ensures Run(Perform(r), core, Schedule(blocks, from, through))
            == (var before :- Run(Perform(r), core, Schedule(blocks, from, through - 1));
                Run(Perform(r), before, EpochActions(blocks, through)))
  {
    RunSplits(Perform(r), core, Schedule(blocks, from, through - 1), EpochActions(blocks, through));
  }

  lemma EmptyEpochActions(r: Rules, blocks: seq<Block>, core: Core, epoch: nat)
    requires forall i :: 0 <= i < |blocks| ==> blocks[i].epoch < epoch
    ensures Run(Perform(r), core, EpochActions(blocks, epoch)) == EmptyEpoch(r, core, |blocks|, epoch)
  {
    AboveBlocks(blocks, epoch);
    RunTwo(r, core, Tick(epoch), Empty(|blocks|, epoch));
  }

  lemma {:induction false} LastEmptyEpoch(r: Rules, core: Core, height: nat, from: nat, through: nat)
    requires from < through
    ensures EmptyEpochs(r, core, height, from, through)
            == (var before :- EmptyEpochs(r, core, height, from, through - 1); EmptyEpoch(r, before, height, through))
  {
    EmptyEpochsSplit(r, core, height, from, through - 1, through);
    var before := EmptyEpochs(r, core, height, from, through - 1);
    if before.Success? {
      var next := EmptyEpoch(r, before.value, height, through);
      assert EmptyEpochs(r, before.value, height, through - 1, through)
             == (var n :- EmptyEpoch(r, before.value, height, through); EmptyEpochs(r, n, height, through, through));
    }
  }

  /** Advancing from the last block follows the schedule. */
  lemma {:induction false} AdvanceFollows(
    r: Rules, blocks: seq<Block>, first: Core, core: Core, from: nat, last: nat, through: nat)
    requires from <= last <= through && forall i :: 0 <= i < |blocks| ==> blocks[i].epoch <= last
    requires Run(Perform(r), first, Schedule(blocks, from, last)) == Success(core)
    ensures Run(Perform(r), first, Schedule(blocks, from, through)) == EmptyEpochs(r, core, |blocks|, last, through)
    decreases through
  {
    if last < through {
      AdvanceFollows(r, blocks, first, core, from, last, through - 1);
      ScheduleStep(r, blocks, first, from, through);
      LastEmptyEpoch(r, core, |blocks|, last, through);
      var before := EmptyEpochs(r, core, |blocks|, last, through - 1);
      if before.Success? {
        EmptyEpochActions(r, blocks, before.value, through);
      }
    }
  }

  /** The epoch of a new block ticks and then applies it. */
  lemma BlockEpochActions(r: Rules, blocks: seq<Block>, b: Block, core: Core)
    requires forall i :: 0 <= i < |blocks| ==> blocks[i].epoch < b.epoch
    ensures Run(Perform(r), core, EpochActions(blocks + [b], b.epoch))
            == (var ticked :- r.tick(core, b.epoch); r.applyBody(ticked, b, |blocks| + 1))
  {
    AboveBlocks(blocks, b.epoch);
    assert (blocks + [b])[..|blocks + [b]| - 1] == blocks;
    RunTwo(r, core, Tick(b.epoch), Apply(b, |blocks| + 1));
  }

  /** The state right after the first block. */
  function FirstCore(r: Rules, b: Block): Result<Core> {
    r.applyFirst(r.genesis, b)
  }

  /** A block that fits the tip is accepted exactly when the schedule goes on up to its epoch. */
  lemma BlockFollows(r: Rules, l: Ledger, b: Block, first: Core, from: nat)
    requires l.height == |l.blocks| > 0 && from <= l.tipEpoch < b.epoch && b.parent == l.tipHash
    requires forall i :: 0 <= i < |l.blocks| ==> l.blocks[i].epoch <= l.tipEpoch
    requires Run(Perform(r), first, Schedule(l.blocks, from, l.tipEpoch)) == Success(l.core)
    ensures Run(Perform(r), first, Schedule(l.blocks + [b], from, b.epoch))
            == (var next :- ApplyBlock(r, l, b); Success(next.core))
  {
    AdvanceFollows(r, l.blocks, first, l.core, from, l.tipEpoch, b.epoch - 1);
    EarlierSchedule(l.blocks, b, from, b.epoch - 1);
    ScheduleStep(r, l.blocks + [b], first, from, b.epoch);
    var before := Advance(r, l, b.epoch - 1);
    if before.Success? {
      BlockEpochActions(r, l.blocks, b, before.value.core);
    }
  }

  lemma NextFollows(r: Rules, front: seq<Block>, l: Ledger, b: Block, first: Core)
    requires front != [] && l.blocks == front && l.height == |front| && Increasing(front)
    requires l.tipEpoch == front[|front| - 1].epoch && ApplyBlock(r, l, b).Success?
    requires Run(Perform(r), first, Schedule(front, front[0].epoch, l.tipEpoch)) == Success(l.core)
    ensures Run(Perform(r), first, Schedule(front + [b], front[0].epoch, b.epoch))
            == Success(ApplyBlock(r, l, b).value.core)
  {
    BlockFollows(r, l, b, first, front[0].epoch);
  }

  lemma {:induction false} BuiltFollows(r: Rules, blocks: seq<Block>)
    requires blocks != [] && ApplyAll(r, Genesis(r), blocks).Success?
    ensures FirstCore(r, blocks[0]).Success?
    ensures var l := ApplyAll(r, Genesis(r), blocks).value;
            Run(Perform(r), FirstCore(r, blocks[0]).value, Schedule(blocks, blocks[0].epoch, l.tipEpoch))
            == Success(l.core)
  {
    BuiltShape(r, blocks);
    if |blocks| == 1 {
      assert blocks == [blocks[0]];
      RunOne(ApplyStep(r), Genesis(r), blocks[0]);
      assert Schedule(blocks, blocks[0].epoch, blocks[0].epoch) == [];
    } else {
      var front, b := blocks[..|blocks| - 1], blocks[|blocks| - 1];
      BuiltFollows(r, front);
      BuiltShape(r, front);
      BuiltIncreasing(r, front);
      assert blocks == front + [b];
      NextFollows(r, front, ApplyAll(r, Genesis(r), front).value, b, FirstCore(r, front[0]).value);
    }
  }

  /** A built ledger, advanced. */
  lemma AdvancedFollows(r: Rules, blocks: seq<Block>, built: Ledger, first: Core, tip: nat)
    requires blocks != [] && Increasing(blocks)
    requires built.height == |blocks| && built.tipEpoch == blocks[|blocks| - 1].epoch
    requires Run(Perform(r), first, Schedule(blocks, blocks[0].epoch, built.tipEpoch)) == Success(built.core)
    requires built.tipEpoch <= tip && Advance(r, built, tip).Success?
    ensures Run(Perform(r), first, Schedule(blocks, blocks[0].epoch, tip)) == Success(Advance(r, built, tip).value.core)
  {
    assert forall i :: 0 <= i < |blocks| - 1 ==> blocks[i].epoch < blocks[|blocks| - 1].epoch;
    AdvanceFollows(r, blocks, first, built.core, blocks[0].epoch, built.tipEpoch, tip);
  }

  /**
   Every state a run can leave is the first block followed by the schedule of its block
   list, with height, tip hash and state root to match.
   */
  lemma CanonicalFollowsSchedule(r: Rules, l: Ledger)
    requires Inv(r, l)
    ensures FirstCore(r, l.blocks[0]).Success? && Increasing(l.blocks)
    ensures Run(Perform(r), FirstCore(r, l.blocks[0]).value, Schedule(l.blocks, l.blocks[0].epoch, l.tipEpoch))
            == Success(l.core)
    ensures l.height == |l.blocks| && l.tipHash == l.blocks[|l.blocks| - 1].hash
    ensures l.tipEpoch >= l.blocks[|l.blocks| - 1].epoch && l.root == r.stateRoot(l.core, l.tipEpoch, l.height)
  {
    InvRewind(r, l);
    BuiltFollows(r, l.blocks);
    BuiltIncreasing(r, l.blocks);
    var built := ApplyAll(r, Genesis(r), l.blocks).value;
    BuiltShape(r, l.blocks);
    BuiltRoot(r, l.blocks);
    AdvancedFollows(r, l.blocks, built, FirstCore(r, l.blocks[0]).value, l.tipEpoch);
  }

  lemma BuiltRoot(r: Rules, blocks: seq<Block>)
    requires ApplyAll(r, Genesis(r), blocks).Success?
    ensures var l := ApplyAll(r, Genesis(r), blocks).value; l.root == r.stateRoot(l.core, l.tipEpoch, l.height)
  {
  }

  // --------------------------------------------------------------- acceptance

  /** Every block names the one before it. */
  predicate Linked(blocks: seq<Block>) {
    forall i :: 0 < i < |blocks| ==> blocks[i].parent == blocks[i - 1].hash
  }

  /** The schedule of these blocks up to `tip` succeeds. */
  ghost predicate Performs(r: Rules, blocks: seq<Block>, tip: nat)
    requires blocks != []
  {
    && FirstCore(r, blocks[0]).Success?
    && Run(Perform(r), FirstCore(r, blocks[0]).value, Schedule(blocks, blocks[0].epoch, tip)).Success?
  }

  /** A branch is good: linked, in increasing epochs, and its schedule succeeds. */
  ghost predicate Good(r: Rules, blocks: seq<Block>) {
    blocks != [] && Linked(blocks) && Increasing(blocks) && Performs(r, blocks, blocks[|blocks| - 1].epoch)
  }

  lemma {:induction false} ScheduleSplits(blocks: seq<Block>, from: nat, mid: nat, through: nat)
    requires from <= mid <= through
    ensures Schedule(blocks, from, through) == Schedule(blocks, from, mid) + Schedule(blocks, mid, through)
    decreases through
  {
    if mid < through {
      ScheduleSplits(blocks, from, mid, through - 1);
    }
  }

  /** A good branch is good without its last block. */
  lemma GoodFront(r: Rules, front: seq<Block>, b: Block)
    requires front != [] && Good(r, front + [b])
    ensures Good(r, front) && b.parent == front[|front| - 1].hash && front[|front| - 1].epoch < b.epoch
  {
    var blocks, from, mid := front + [b], front[0].epoch, front[|front| - 1].epoch;
    assert blocks[|front|] == b && blocks[|front| - 1] == front[|front| - 1];
    forall i, j | 0 <= i < j < |front| ensures front[i].epoch < front[j].epoch {
      assert blocks[i].epoch < blocks[j].epoch;
    }
    forall i | 0 < i < |front| ensures front[i].parent == front[i - 1].hash {
      assert blocks[i].parent == blocks[i - 1].hash;
    }
    ScheduleSplits(blocks, from, mid, b.epoch);
    RunSplits(Perform(r), FirstCore(r, front[0]).value, Schedule(blocks, from, mid), Schedule(blocks, mid, b.epoch));
    EarlierSchedule(front, b, from, mid);
  }

  /** A branch is accepted from Genesis exactly when it is good. */
  lemma {:induction false} AcceptedIffGood(r: Rules, blocks: seq<Block>)
    requires blocks != []
    ensures ApplyAll(r, Genesis(r), blocks).Success? <==> Good(r, blocks)
  {
    if |blocks| == 1 {
      assert blocks == [blocks[0]];
      RunOne(ApplyStep(r), Genesis(r), blocks[0]);
      assert Schedule(blocks, blocks[0].epoch, blocks[0].epoch) == [];
    } else {
      var front, b := blocks[..|blocks| - 1], blocks[|blocks| - 1];
      assert blocks == front + [b];
      AcceptedIffGood(r, front);
      if Good(r, blocks) {
        GoodFront(r, front, b);
      }
      if ApplyAll(r, Genesis(r), front).Success? {
        AcceptedNext(r, front, b);
      }
    }
  }

  lemma AcceptedNext(r: Rules, front: seq<Block>, b: Block)
    requires front != [] && Good(r, front) && ApplyAll(r, Genesis(r), front).Success?
    ensures ApplyAll(r, Genesis(r), front + [b]).Success? <==> Good(r, front + [b])
  {
    var l, blocks := ApplyAll(r, Genesis(r), front).value, front + [b];
    BuiltShape(r, front);
    BuiltFollows(r, front);
    assert blocks[..|blocks| - 1] == front;
    assert ApplyAll(r, Genesis(r), blocks) == ApplyBlock(r, l, b);
    if b.parent == l.tipHash && b.epoch > l.tipEpoch {
      BlockFollows(r, l, b, FirstCore(r, front[0]).value, front[0].epoch);
      assert Linked(blocks) && Increasing(blocks);
    } else {
      assert blocks[|front|] == b && blocks[|front| - 1] == front[|front| - 1];
    }
  }

  /**
   What every event does to the block list and the tip epoch, in every state a run can
   leave; everything else follows from these two. A node advances as far as asked when
   the schedule allows it; it takes a block, or several, exactly when they make a good
   branch on its own; and it takes another branch exactly when that is good and heavier.
   */
  lemma EventEffects(r: Rules, l: Ledger, e: Event)
    requires Reloads(r) && Inv(r, l)
    ensures var l' := Step(r)(l, e).value;
            match e
            case AdvanceTo(epoch) =>
              l'.blocks == l.blocks
              && l'.tipEpoch == (if epoch > l.tipEpoch && Performs(r, l.blocks, epoch) then epoch else l.tipEpoch)
            case Announced(b) => Became(r, l, l', l.blocks + [b], true)
            case Extension(blocks) => blocks != [] ==> Became(r, l, l', l.blocks + blocks, true)
            case Fork(blocks) => Became(r, l, l', blocks, Chainwork(blocks) > Chainwork(l.blocks))
  {
    match e
    case AdvanceTo(epoch) => AdvanceEffect(r, l, epoch);
    case Announced(b) => AnnouncedEffect(r, l, b);
    case Extension(blocks) => if blocks != [] { ExtensionEffect(r, l, blocks); }
    case Fork(blocks) => ForkEffect(r, l, blocks);
  }

  /** `l'` has this branch when it is good and `wanted`, and is `l` otherwise. */
  ghost predicate Became(r: Rules, l: Ledger, l': Ledger, blocks: seq<Block>, wanted: bool) {
    if Good(r, blocks) && wanted then l'.blocks == blocks && l'.tipEpoch == blocks[|blocks| - 1].epoch else l' == l
  }

  /** Taking a branch when it is accepted is taking it when it is good. */
  lemma TakesGood(r: Rules, l: Ledger, l': Ledger, blocks: seq<Block>, wanted: bool)
    requires blocks != []
    requires var built := ApplyAll(r, Genesis(r), blocks); l' == if built.Success? && wanted then built.value else l
    ensures Became(r, l, l', blocks, wanted)
  {
    AcceptedIffGood(r, blocks);
    if ApplyAll(r, Genesis(r), blocks).Success? { BuiltShape(r, blocks); }
  }

  lemma AnnouncedEffect(r: Rules, l: Ledger, b: Block)
    requires Reloads(r) && Inv(r, l)
    ensures Became(r, l, Step(r)(l, Announced(b)).value, l.blocks + [b], true)
  {
    AnnouncedIgnoresProvisional(r, l, b);
    if b.parent == l.tipHash && b.epoch > CanonicalEpoch(l) {
      TakesGood(r, l, Step(r)(l, Announced(b)).value, l.blocks + [b], true);
    } else if Good(r, l.blocks + [b]) {
      AnnouncedFits(r, l, b);
    }
  }

  lemma ExtensionEffect(r: Rules, l: Ledger, blocks: seq<Block>)
    requires Reloads(r) && Inv(r, l) && blocks != []
    ensures Became(r, l, Step(r)(l, Extension(blocks)).value, l.blocks + blocks, true)
  {
    ExtensionIgnoresProvisional(r, l, blocks);
    TakesGood(r, l, Step(r)(l, Extension(blocks)).value, l.blocks + blocks, true);
  }

  lemma ForkEffect(r: Rules, l: Ledger, blocks: seq<Block>)
    ensures Became(r, l, Step(r)(l, Fork(blocks)).value, blocks, Chainwork(blocks) > Chainwork(l.blocks))
  {
    if ApplyAll(r, Genesis(r), blocks).Success? { BuiltShape(r, blocks); }
    if blocks != [] {
      TakesGood(r, l, Step(r)(l, Fork(blocks)).value, blocks, Chainwork(blocks) > Chainwork(l.blocks));
    }
  }

  lemma AnnouncedFits(r: Rules, l: Ledger, b: Block)
    requires Inv(r, l) && Good(r, l.blocks + [b])
    ensures b.parent == l.tipHash && b.epoch > CanonicalEpoch(l)
  {
    InvRewind(r, l);
    BuiltShape(r, l.blocks);
    GoodFront(r, l.blocks, b);
  }

  lemma AdvanceEffect(r: Rules, l: Ledger, epoch: nat)
    requires Inv(r, l)
    ensures var l' := Step(r)(l, AdvanceTo(epoch)).value;
            l'.blocks == l.blocks
            && l'.tipEpoch == if epoch > l.tipEpoch && Performs(r, l.blocks, epoch) then epoch else l.tipEpoch
  {
    if epoch > l.tipEpoch {
      CanonicalFollowsSchedule(r, l);
      assert forall i :: 0 <= i < |l.blocks| - 1 ==> l.blocks[i].epoch < l.blocks[|l.blocks| - 1].epoch;
      AdvanceFollows(r, l.blocks, FirstCore(r, l.blocks[0]).value, l.core, l.blocks[0].epoch, l.tipEpoch, epoch);
    }
  }

  /** After any run in which a good branch was offered, the node's chain has at least its work. */
  lemma HeaviestOfferedWins(r: Rules, l: Ledger, before: seq<Event>, blocks: seq<Block>, after: seq<Event>)
    requires Reloads(r) && Inv(r, l) && Good(r, blocks)
    ensures Run(Step(r), l, before + [Fork(blocks)] + after).Success?
    ensures Chainwork(blocks) <= Chainwork(Run(Step(r), l, before + [Fork(blocks)] + after).value.blocks)
  {
    var all := before + [Fork(blocks)];
    RunsSucceed(r, l, all + after);
    RunsSucceed(r, l, all);
    RunsSucceed(r, l, before);
    RunSplits(Step(r), l, all, after);
    var mid := Run(Step(r), l, before).value;
    RunsKeepInv(r, l, before);
    assert all[..|all| - 1] == before;
    var offered := Run(Step(r), l, all).value;
    assert offered == Step(r)(mid, Fork(blocks)).value;
    EventEffects(r, mid, Fork(blocks));
    StepKeepsInv(r, mid, Fork(blocks));
    WorkNeverFalls(r, offered, after);
  }
}
