/**
 Repairing the local queues after a reorganisation (`restore_reorg_mempool` in
 crates/mutiny-node/src/blocksync.rs).

 The candidates are the old mempool and pending operations together with what the
 disconnected blocks contained; the theorems hold for every candidate list. Whether a
 transaction is valid on the adopted branch given what is already queued, and whether
 an operation is still admissible there, are unknown functions.
 */
module ReorgQueues {
  import opened Wrappers

  type TxId(!new, ==)
  type OpId(!new, ==)
  type Body(!new, ==)

  datatype PendingTx = PendingTx(id: TxId, licencePayment: bool, protocolAuth: bool, body: Body)

  /** A queued operation; `required` is the transaction it names, if any. */
  datatype PendingOp = PendingOp(id: OpId, required: Option<TxId>, body: Body)

  datatype Branch = Branch(
    confirmed: set<TxId>,                         // transactions confirmed on the adopted branch
    valid: (seq<PendingTx>, PendingTx) -> bool,   // validate_pending_candidate
    admit: PendingOp -> Result<bool>)             // decoding and the per-type checks

  datatype Queues = Queues(mempool: seq<PendingTx>, pending: seq<PendingOp>)

  function Bound(ops: seq<PendingOp>): set<TxId> {
    set o | o in ops && o.required.Some? :: o.required.value
  }

  function TxIds(txs: seq<PendingTx>): set<TxId> {
    set t | t in txs :: t.id
  }

  function OpIds(ops: seq<PendingOp>): set<OpId> {
    set o | o in ops :: o.id
  }

  // ---------------------------------------------------------- transactions

  /** The candidate is queued after `earlier` candidates left `queue`. */
  predicate Accepts(b: Branch, bound: set<TxId>, earlier: seq<PendingTx>, queue: seq<PendingTx>, t: PendingTx) {
    && t.id !in b.confirmed && t.id !in TxIds(earlier)
    && (t.licencePayment ==> t.id in bound)
    && b.valid(queue, t)
  }

  function QueueTxs(b: Branch, bound: set<TxId>, start: seq<PendingTx>, candidates: seq<PendingTx>): seq<PendingTx> {
    if candidates == [] then start
    else
      var earlier := candidates[..|candidates| - 1];
      var queue := QueueTxs(b, bound, start, earlier);
      var t := candidates[|candidates| - 1];
      if Accepts(b, bound, earlier, queue, t) then queue + [t] else queue
  }

  // ------------------------------------------------------------ operations

  function QueueOps(
    b: Branch, txids: set<TxId>, start: seq<PendingOp>, candidates: seq<PendingOp>): Result<seq<PendingOp>>
  {
    if candidates == [] then Success(start)
    else
      var queue :- QueueOps(b, txids, start, candidates[..|candidates| - 1]);
      var o := candidates[|candidates| - 1];
      if o.required.Some? && o.required.value !in txids then Success(queue)
      else
        var admitted :- b.admit(o);
        Success(if admitted && o.id !in OpIds(queue) then queue + [o] else queue)
  }

  /** Protocol-authorised transactions stay only when a queued operation names them. */
  function DropUnbound(txs: seq<PendingTx>, bound: set<TxId>): seq<PendingTx> {
    if txs == [] then []
    else
      var t := txs[|txs| - 1];
      DropUnbound(txs[..|txs| - 1], bound) + if !t.protocolAuth || t.id in bound then [t] else []
  }

  /** `restore_reorg_mempool` */
  function Restore(b: Branch, start: Queues, txs: seq<PendingTx>, ops: seq<PendingOp>): Result<Queues> {
    var mempool := QueueTxs(b, Bound(ops), start.mempool, txs);
    var pending :- QueueOps(b, TxIds(mempool), start.pending, ops);
    Success(Queues(DropUnbound(mempool, Bound(pending)), pending))
  }

  // ------------------------------------------------------------- properties

  predicate DistinctTxs(txs: seq<PendingTx>) {
    forall i, j :: 0 <= i < j < |txs| ==> txs[i].id != txs[j].id
  }

  predicate DistinctOps(ops: seq<PendingOp>) {
    forall i, j :: 0 <= i < j < |ops| ==> ops[i].id != ops[j].id
  }

  /** What the queues promise to the next block template. */
  predicate Consistent(b: Branch, q: Queues) {
    && DistinctTxs(q.mempool)
    && (forall t :: t in q.mempool ==> t.id !in b.confirmed)
    && (forall o :: o in q.pending && o.required.Some? ==> o.required.value in TxIds(q.mempool))
    && (forall t :: t in q.mempool && t.protocolAuth ==> t.id in Bound(q.pending))
    && DistinctOps(q.pending)
  }

  lemma {:induction false} QueuedTxs(b: Branch, bound: set<TxId>, candidates: seq<PendingTx>)
    ensures var queue := QueueTxs(b, bound, [], candidates);
            && DistinctTxs(queue)
            && (forall t :: t in queue ==>
                  t in candidates && t.id !in b.confirmed && (t.licencePayment ==> t.id in bound))
  {
    if candidates != [] {
      var earlier := candidates[..|candidates| - 1];
      QueuedTxs(b, bound, earlier);
      var queue := QueueTxs(b, bound, [], earlier);
      var t := candidates[|candidates| - 1];
      if Accepts(b, bound, earlier, queue, t) {
        forall i | 0 <= i < |queue| ensures queue[i].id != t.id {
          assert queue[i] in earlier;
        }
      }
    }
  }

  lemma {:induction false} QueuedOps(b: Branch, txids: set<TxId>, candidates: seq<PendingOp>)
    requires QueueOps(b, txids, [], candidates).Success?
    ensures var queue := QueueOps(b, txids, [], candidates).value;
            && DistinctOps(queue)
            && (forall o :: o in queue ==>
                  o in candidates && b.admit(o) == Success(true) && (o.required.Some? ==> o.required.value in txids))
  {
    if candidates != [] {
      QueuedOps(b, txids, candidates[..|candidates| - 1]);
      var queue := QueueOps(b, txids, [], candidates[..|candidates| - 1]).value;
      var o := candidates[|candidates| - 1];
      forall i | 0 <= i < |queue| && o.id !in OpIds(queue) ensures queue[i].id != o.id {
        assert queue[i] in queue;
      }
    }
  }

  lemma {:induction false} Dropped(txs: seq<PendingTx>, bound: set<TxId>)
    requires DistinctTxs(txs)
    ensures var kept := DropUnbound(txs, bound);
            && DistinctTxs(kept)
            && (forall t :: t in kept <==> t in txs && (t.protocolAuth ==> t.id in bound))
  {
    if txs != [] {
      var front := txs[..|txs| - 1];
      Dropped(front, bound);
      var kept := DropUnbound(front, bound);
      var t := txs[|txs| - 1];
      assert txs == front + [t];
      forall i | 0 <= i < |kept| ensures kept[i].id != t.id {
        assert kept[i] in front;
      }
    }
  }

  /** A bound transaction is still there after the last sweep. */
  lemma BoundStays(txs: seq<PendingTx>, bound: set<TxId>, id: TxId)
    requires DistinctTxs(txs) && id in TxIds(txs) && id in bound
    ensures id in TxIds(DropUnbound(txs, bound))
  {
    Dropped(txs, bound);
    var t :| t in txs && t.id == id;
    assert t in DropUnbound(txs, bound);
  }

  /** The transaction queued at `i` is valid after those queued before it. */
  predicate ValidAt(b: Branch, queue: seq<PendingTx>, i: nat)
    requires i < |queue|
  {
    b.valid(queue[..i], queue[i])
  }

  lemma {:induction false} QueuedAreValid(b: Branch, bound: set<TxId>, candidates: seq<PendingTx>, i: nat)
    requires i < |QueueTxs(b, bound, [], candidates)|
    ensures ValidAt(b, QueueTxs(b, bound, [], candidates), i)
  {
    var earlier, t := candidates[..|candidates| - 1], candidates[|candidates| - 1];
    var before, queue := QueueTxs(b, bound, [], earlier), QueueTxs(b, bound, [], candidates);
    if i < |before| {
      QueuedAreValid(b, bound, earlier, i);
      assert queue[..i] == before[..i] && queue[i] == before[i];
    } else {
      assert Accepts(b, bound, earlier, before, t) && queue == before + [t];
      assert queue[..i] == before && queue[i] == t;
    }
  }

  /** From empty queues, every repair leaves consistent queues. */
  lemma RepairIsConsistent(b: Branch, txs: seq<PendingTx>, ops: seq<PendingOp>)
    requires Restore(b, Queues([], []), txs, ops).Success?
    ensures Consistent(b, Restore(b, Queues([], []), txs, ops).value)
  {
    var mempool := QueueTxs(b, Bound(ops), [], txs);
    var pending := QueueOps(b, TxIds(mempool), [], ops).value;
    QueuedTxs(b, Bound(ops), txs);
    QueuedOps(b, TxIds(mempool), ops);
    Dropped(mempool, Bound(pending));
    forall o | o in pending && o.required.Some?
      ensures o.required.value in TxIds(DropUnbound(mempool, Bound(pending)))
    {
      BoundStays(mempool, Bound(pending), o.required.value);
    }
  }

  // ------------------------------------------------------- nothing is lost

  /** Once queued, a transaction stays queued while later candidates are looked at. */
  lemma {:induction false} QueueGrows(b: Branch, bound: set<TxId>, start: seq<PendingTx>, txs: seq<PendingTx>, n: nat)
    requires n <= |txs|
    ensures QueueTxs(b, bound, start, txs[..n]) <= QueueTxs(b, bound, start, txs)
    decreases |txs|
  {
    if n == |txs| {
      assert txs[..n] == txs;
    } else {
      QueueGrows(b, bound, start, txs[..|txs| - 1], n);
      assert txs[..|txs| - 1][..n] == txs[..n];
    }
  }

  /**
   A candidate that is not confirmed, is the first of its id, is named by some operation if
   it pays for a licence, and is valid after what is queued before it, is queued, unless it
   is a protocol payment without its operation.
   */
  lemma CandidateFate(b: Branch, txs: seq<PendingTx>, ops: seq<PendingOp>, n: nat)
    requires Restore(b, Queues([], []), txs, ops).Success? && n < |txs|
    requires txs[n].id !in b.confirmed && forall k :: 0 <= k < n ==> txs[k].id != txs[n].id
    requires txs[n].licencePayment ==> txs[n].id in Bound(ops)
    requires b.valid(QueueTxs(b, Bound(ops), [], txs[..n]), txs[n])
    ensures var q := Restore(b, Queues([], []), txs, ops).value;
            txs[n] in q.mempool <==> (txs[n].protocolAuth ==> txs[n].id in Bound(q.pending))
  {
    var mempool := QueueTxs(b, Bound(ops), [], txs);
    QueueGrows(b, Bound(ops), [], txs, n + 1);
    assert txs[..n + 1][..n] == txs[..n];
    assert txs[n] in QueueTxs(b, Bound(ops), [], txs[..n + 1]);
    assert txs[n] in mempool;
    QueuedTxs(b, Bound(ops), txs);
    Dropped(mempool, Bound(QueueOps(b, TxIds(mempool), [], ops).value));
  }

  /** The operation names no transaction, or one that is queued. */
  predicate Bindable(o: PendingOp, txids: set<TxId>) {
    o.required.Some? ==> o.required.value in txids
  }

  /** An operation candidate is admissible, and the first of its id that is. */
  predicate FirstAdmitted(b: Branch, txids: set<TxId>, ops: seq<PendingOp>, n: nat)
    requires n < |ops|
  {
    && Bindable(ops[n], txids) && b.admit(ops[n]) == Success(true)
    && forall k :: 0 <= k < n && ops[k].id == ops[n].id ==>
         !(Bindable(ops[k], txids) && b.admit(ops[k]) == Success(true))
  }

  /** Queueing operations fails exactly when one that would be looked at cannot be judged. */
  lemma {:induction false} OpsFailIff(b: Branch, txids: set<TxId>, ops: seq<PendingOp>)
    ensures QueueOps(b, txids, [], ops).Success? <==>
            forall i :: 0 <= i < |ops| && Bindable(ops[i], txids) ==> b.admit(ops[i]).Success?
  {
    if ops != [] {
      OpsFailIff(b, txids, ops[..|ops| - 1]);
    }
  }

  /** What is queued are exactly the first admissible operation of each id. */
  lemma {:induction false} OpsQueuedIff(b: Branch, txids: set<TxId>, ops: seq<PendingOp>)
    requires QueueOps(b, txids, [], ops).Success?
    ensures forall o :: o in QueueOps(b, txids, [], ops).value <==>
              exists n :: 0 <= n < |ops| && ops[n] == o && FirstAdmitted(b, txids, ops, n)
  {
    if ops != [] {
      var front, last := ops[..|ops| - 1], ops[|ops| - 1];
      OpsQueuedIff(b, txids, front);
      var queue, all := QueueOps(b, txids, [], front).value, QueueOps(b, txids, [], ops).value;
      forall n: nat | n < |front| ensures FirstAdmitted(b, txids, front, n) <==> FirstAdmitted(b, txids, ops, n) {
        assert forall k :: 0 <= k <= n ==> front[k] == ops[k];
      }
      FirstOfItsId(b, txids, front, last.id);
      forall o ensures o in all <==> exists n :: 0 <= n < |ops| && ops[n] == o && FirstAdmitted(b, txids, ops, n) {
        if o in queue {
          var n :| 0 <= n < |front| && front[n] == o && FirstAdmitted(b, txids, front, n);
          assert ops[n] == o;
        }
        if n :| 0 <= n < |ops| && ops[n] == o && FirstAdmitted(b, txids, ops, n) {
          if n < |front| {
            assert front[n] == o;
          }
        }
        if o == last && o in all && o !in queue {
          assert ops[|front|] == o;
        }
      }
    }
  }

  /** An admissible operation of an id means that the first one of it is queued. */
  lemma FirstOfItsId(b: Branch, txids: set<TxId>, ops: seq<PendingOp>, id: OpId)
    requires QueueOps(b, txids, [], ops).Success?
    requires forall o :: o in QueueOps(b, txids, [], ops).value <==>
               exists n :: 0 <= n < |ops| && ops[n] == o && FirstAdmitted(b, txids, ops, n)
    ensures id in OpIds(QueueOps(b, txids, [], ops).value) <==>
            exists k :: 0 <= k < |ops| && ops[k].id == id && Bindable(ops[k], txids) && b.admit(ops[k]) == Success(true)
  {
    var queue := QueueOps(b, txids, [], ops).value;
    if id in OpIds(queue) {
      var o :| o in queue && o.id == id;
      var n :| 0 <= n < |ops| && ops[n] == o && FirstAdmitted(b, txids, ops, n);
    }
    if k :| 0 <= k < |ops| && ops[k].id == id && Bindable(ops[k], txids) && b.admit(ops[k]) == Success(true) {
      var n := Earliest(b, txids, ops, k);
      assert ops[n] in queue;
    }
  }

  lemma {:induction false} Earliest(b: Branch, txids: set<TxId>, ops: seq<PendingOp>, k: nat) returns (n: nat)
    requires k < |ops| && Bindable(ops[k], txids) && b.admit(ops[k]) == Success(true)
    ensures n <= k && ops[n].id == ops[k].id && FirstAdmitted(b, txids, ops, n)
  {
    if FirstAdmitted(b, txids, ops, k) {
      n := k;
    } else {
      var j :| 0 <= j < k && ops[j].id == ops[k].id && Bindable(ops[j], txids) && b.admit(ops[j]) == Success(true);
      n := Earliest(b, txids, ops, j);
    }
  }

  /** A repair fails exactly when an operation that would be looked at cannot be judged. */
  lemma RepairFailsIff(b: Branch, txs: seq<PendingTx>, ops: seq<PendingOp>)
    ensures var txids := TxIds(QueueTxs(b, Bound(ops), [], txs));
            Restore(b, Queues([], []), txs, ops).Success? <==>
            forall i :: 0 <= i < |ops| && Bindable(ops[i], txids) ==> b.admit(ops[i]).Success?
  {
    OpsFailIff(b, TxIds(QueueTxs(b, Bound(ops), [], txs)), ops);
  }

  // --------------------------------------------------------------- in place

  /** The ids looked at so far that were not already confirmed. */
  function Seen(b: Branch, txs: seq<PendingTx>): set<TxId> {
    TxIds(txs) - b.confirmed
  }

  lemma SeenStep(b: Branch, txs: seq<PendingTx>, n: nat)
    requires n < |txs|
    ensures Seen(b, txs[..n + 1]) == Seen(b, txs[..n]) + ({txs[n].id} - b.confirmed)
  {
    assert txs[..n + 1] == txs[..n] + [txs[n]];
  }

  /** The first `n` operation candidates have been looked at. */
  ghost predicate OpsRead(
    b: Branch, txids: set<TxId>, start: seq<PendingOp>, ops: seq<PendingOp>, n: nat, queue: seq<PendingOp>)
  {
    n <= |ops| && QueueOps(b, txids, start, ops[..n]) == Success(queue)
  }

  lemma {:induction false} OpsStop(b: Branch, txids: set<TxId>, start: seq<PendingOp>, ops: seq<PendingOp>, n: nat)
    requires n <= |ops| && QueueOps(b, txids, start, ops[..n]).Failure?
    ensures QueueOps(b, txids, start, ops).Failure?
    decreases |ops| - n
  {
    if n < |ops| {
      assert ops[..n + 1][..n] == ops[..n];
      OpsStop(b, txids, start, ops, n + 1);
    } else {
      assert ops[..n] == ops;
    }
  }

  class NodeQueues {
    var mempool: seq<PendingTx>
    var pending: seq<PendingOp>

    constructor ()
      ensures View() == Queues([], [])
    {
      mempool, pending := [], [];
    }

    function View(): Queues
      reads this
    {
      Queues(mempool, pending)
    }

    /** The transaction loop, with its set of ids already seen. */
    method RestoreTxs(b: Branch, bound: set<TxId>, candidates: seq<PendingTx>)
      modifies this`mempool
      ensures mempool == QueueTxs(b, bound, old(mempool), candidates)
    {
      var seen: set<TxId> := {};
      var n := 0;
      while n < |candidates|
        invariant 0 <= n <= |candidates|
        invariant seen == Seen(b, candidates[..n])
        invariant mempool == QueueTxs(b, bound, old(mempool), candidates[..n])
      {
        var t := candidates[n];
        SeenStep(b, candidates, n);
        assert candidates[..n + 1][..n] == candidates[..n];
        n := n + 1;
        if t.id in b.confirmed || t.id in seen {
          continue;
        }
        seen := seen + {t.id};
        if t.licencePayment && t.id !in bound {
          continue;
        }
        if b.valid(mempool, t) {
          mempool := mempool + [t];
        }
      }
      assert candidates[..n] == candidates;
    }

    /** The operation loop. */
    method RestoreOps(b: Branch, txids: set<TxId>, candidates: seq<PendingOp>) returns (ok: bool)
      modifies this`pending
      ensures ok <==> QueueOps(b, txids, old(pending), candidates).Success?
      ensures ok ==> QueueOps(b, txids, old(pending), candidates) == Success(pending)
    {
      var seenOps := OpIds(pending);
      var n := 0;
      while n < |candidates|
        invariant 0 <= n <= |candidates|
        invariant seenOps == OpIds(pending)
        invariant OpsRead(b, txids, old(pending), candidates, n, pending)
      {
        var o := candidates[n];
        assert candidates[..n + 1][..n] == candidates[..n];
        if o.required.Some? && o.required.value !in txids {
          n := n + 1;
          continue;
        }
        var admitted := b.admit(o);
        if admitted.Failure? {
          OpsStop(b, txids, old(pending), candidates, n + 1);
          return false;
        }
        if admitted.value && o.id !in seenOps {
          seenOps := seenOps + {o.id};
          pending := pending + [o];
        }
        n := n + 1;
      }
      assert candidates[..n] == candidates;
      return true;
    }

    /** The final `retain`. */
    method Sweep(bound: set<TxId>)
      modifies this`mempool
      ensures mempool == DropUnbound(old(mempool), bound)
    {
      var kept: seq<PendingTx> := [];
      var n := 0;
      while n < |mempool|
        invariant 0 <= n <= |mempool| && mempool == old(mempool)
        invariant kept == DropUnbound(mempool[..n], bound)
      {
        assert mempool[..n + 1][..n] == mempool[..n];
        if !mempool[n].protocolAuth || mempool[n].id in bound {
          kept := kept + [mempool[n]];
        }
        n := n + 1;
      }
      assert mempool[..n] == mempool;
      mempool := kept;
    }

    /** `restore_reorg_mempool` */
    method RestoreReorgMempool(b: Branch, txs: seq<PendingTx>, ops: seq<PendingOp>) returns (ok: bool)
      modifies this
      ensures ok <==> Restore(b, old(View()), txs, ops).Success?
      ensures ok ==> Restore(b, old(View()), txs, ops) == Success(View())
    {
      RestoreTxs(b, Bound(ops), txs);
      ok := RestoreOps(b, TxIds(mempool), ops);
      if ok {
        Sweep(Bound(pending));
      }
    }
  }
}
