/**
 The Merkle root of a block's protocol operations (crates/mutiny-protocol/src/lib.rs).

 Leaves are paired level by level and an odd last node is promoted unchanged. The
 root commits to the list: as long as no two of the byte strings hashed for two
 accepted lists collide, equal roots mean equal lists, whatever their lengths.
 */
module OperationsRoot {
  import opened Wrappers
  import opened Arithmetic
  import opened Bytes
  import opened Crypto
  import opened Codecs
  import VarUInt

  function Ascii(s: string): (b: seq<byte>)
    ensures |b| == |s|
  {
    seq(|s|, i requires 0 <= i < |s| => s[i] as int % 256)
  }

  const OP_ID := Ascii("MUTINY-PROTOCOL-OP-ID-V1")
  const OP_LEAF := Ascii("MUTINY-PROTOCOL-OP-LEAF-V1")
  const OP_NODE := Ascii("MUTINY-PROTOCOL-OP-NODE-V1")
  const OPS_EMPTY := Ascii("MUTINY-PROTOCOL-OPS-EMPTY-V1")

  // ------------------------------------------------------------- operations

  datatype Op = Op(kind: nat, version: nat, payload: seq<byte>)

  /** What the source's field types allow. */
  predicate OpOk(op: Op) {
    op.kind < 0x1_0000 && op.version < 0x1_0000 && |op.payload| < U64
  }

  /** `ProtocolOperationV1::encode` */
  function Encode(op: Op): seq<byte> {
    BeBytes(op.kind, 2) + BeBytes(op.version, 2) + (VarUInt.Encode(|op.payload|) + op.payload)
  }

  /** Type, version, length and payload can be read off the encoding in this order. */
  lemma OperationBytes(op: Op)
    requires OpOk(op)
    ensures var e := Encode(op);
            && |e| >= 4 && BeNat(e[..2]) == op.kind && BeNat(e[2..4]) == op.version
            && VarUInt.Decode(e[4..]) == Success(Read(|op.payload|, op.payload))
  {
    Pow256Values();
    var e := Encode(op);
    assert e[..2] == BeBytes(op.kind, 2) && e[2..4] == BeBytes(op.version, 2);
    BeNatOfBeBytes(op.kind, 2);
    BeNatOfBeBytes(op.version, 2);
    VarUInt.VarUIntLawful();
    var c := VarUInt.VarUIntCodec();
    assert e[4..] == c.write(|op.payload|) + op.payload;
    assert c.read(c.write(|op.payload|) + op.payload) == Success(Read(|op.payload|, op.payload));
  }

  /** The encoding determines the operation. */
  lemma EncodeInjective(a: Op, b: Op)
    requires OpOk(a) && OpOk(b) && Encode(a) == Encode(b)
    ensures a == b
  {
    OperationBytes(a);
    OperationBytes(b);
  }

  /** `operation_id` */
  function OperationId(op: Op): (d: Digest)
    ensures |d| == 32
  {
    Sha256(OP_ID + Encode(op))
  }

  function LeafHash(id: Digest): (d: Digest)
    ensures |d| == 32
  {
    Sha256(OP_LEAF + id)
  }

  function NodeHash(l: Digest, r: Digest): (d: Digest)
    ensures |d| == 32
  {
    Sha256(OP_NODE + l + r)
  }

  // ------------------------------------------------------------ the level loop

  /** One level up: neighbours are joined, an odd last one is kept. */
  function NextLevel(level: seq<Digest>): (next: seq<Digest>)
    ensures |next| == (|level| + 1) / 2
  {
    if |level| == 0 then []
    else if |level| == 1 then [level[0]]
    else [NodeHash(level[0], level[1])] + NextLevel(level[2..])
  }

  function RootOf(level: seq<Digest>): Digest
    requires level != []
    decreases |level|
  {
    if |level| == 1 then level[0] else RootOf(NextLevel(level))
  }

  function Leaves(ops: seq<Op>): (leaves: seq<Digest>)
    ensures |leaves| == |ops|
  {
    seq(|ops|, i requires 0 <= i < |ops| => LeafHash(OperationId(ops[i])))
  }

  /** Strictly increasing in type and then in id. */
  predicate Below(a: Op, b: Op) {
    a.kind < b.kind
    || (a.kind == b.kind && LexLe(OperationId(a), OperationId(b)) && OperationId(a) != OperationId(b))
  }

  predicate InOrder(ops: seq<Op>) {
    forall i :: 0 < i < |ops| ==> Below(ops[i - 1], ops[i])
  }

  /** `protocol_operations_root` */
  function Root(ops: seq<Op>): Result<Digest> {
    if ops == [] then Success(Sha256(OPS_EMPTY))
    else if !InOrder(ops) then Failure
    else Success(RootOf(Leaves(ops)))
  }

  // ---------------------------------------------------------- the tree behind it

  datatype Tree = Leaf(id: Digest) | Node(left: Tree, right: Tree)

  function TreeHash(t: Tree): Digest {
    match t
    case Leaf(id) => LeafHash(id)
    case Node(l, r) => NodeHash(TreeHash(l), TreeHash(r))
  }

  function Fringe(t: Tree): seq<Digest> {
    match t
    case Leaf(id) => [id]
    case Node(l, r) => Fringe(l) + Fringe(r)
  }

  function NextTrees(ts: seq<Tree>): (next: seq<Tree>)
    ensures |next| == (|ts| + 1) / 2
  {
    if |ts| == 0 then []
    else if |ts| == 1 then [ts[0]]
    else [Node(ts[0], ts[1])] + NextTrees(ts[2..])
  }

  function Build(ts: seq<Tree>): Tree
    requires ts != []
    decreases |ts|
  {
    if |ts| == 1 then ts[0] else Build(NextTrees(ts))
  }

  function Hashes(ts: seq<Tree>): (hs: seq<Digest>)
    ensures |hs| == |ts|
  {
    seq(|ts|, i requires 0 <= i < |ts| => TreeHash(ts[i]))
  }

  function Fringes(ts: seq<Tree>): seq<Digest> {
    if ts == [] then [] else Fringe(ts[0]) + Fringes(ts[1..])
  }

  /** Joining hashes is hashing the joined trees. */
  lemma {:induction false} LevelHashes(ts: seq<Tree>)
    ensures NextLevel(Hashes(ts)) == Hashes(NextTrees(ts))
  {
    if |ts| > 1 {
      LevelHashes(ts[2..]);
      assert Hashes(ts)[2..] == Hashes(ts[2..]);
    }
  }

  lemma {:induction false} RootHashes(ts: seq<Tree>)
    requires ts != []
    ensures RootOf(Hashes(ts)) == TreeHash(Build(ts))
    decreases |ts|
  {
    if |ts| > 1 {
      LevelHashes(ts);
      RootHashes(NextTrees(ts));
    }
  }

  /** A level keeps its leaves in order, promotion included. */
  lemma {:induction false} LevelFringe(ts: seq<Tree>)
    ensures Fringes(NextTrees(ts)) == Fringes(ts)
  {
    if |ts| == 1 {
      assert NextTrees(ts) == ts;
    } else if |ts| > 1 {
      LevelFringe(ts[2..]);
      var next := NextTrees(ts);
      assert next[0] == Node(ts[0], ts[1]) && next[1..] == NextTrees(ts[2..]);
      assert ts[1..][1..] == ts[2..];
      assert Fringes(ts) == Fringe(ts[0]) + (Fringe(ts[1]) + Fringes(ts[2..]));
    }
  }

  lemma {:induction false} BuildFringe(ts: seq<Tree>)
    requires ts != []
    ensures Fringe(Build(ts)) == Fringes(ts)
    decreases |ts|
  {
    if |ts| == 1 {
      assert Fringes(ts[1..]) == [];
    } else {
      LevelFringe(ts);
      BuildFringe(NextTrees(ts));
    }
  }

  // ---------------------------------------------------------------- commitment

  /** The byte strings hashed for a tree. */
  function Preimages(t: Tree): set<seq<byte>> {
    match t
    case Leaf(id) => {OP_LEAF + id}
    case Node(l, r) => {OP_NODE + TreeHash(l) + TreeHash(r)} + Preimages(l) + Preimages(r)
  }

  predicate IdsOk(t: Tree) {
    match t
    case Leaf(id) => |id| == 32
    case Node(l, r) => IdsOk(l) && IdsOk(r)
  }

  lemma LeafSplits(a: Digest, b: Digest)
    requires OP_LEAF + a == OP_LEAF + b
    ensures a == b
  {
    assert (OP_LEAF + a)[|OP_LEAF|..] == a;
    assert (OP_LEAF + b)[|OP_LEAF|..] == b;
  }

  lemma NodeSplits(l: Digest, r: Digest, m: Digest, s: Digest)
    requires |l| == |r| == |m| == |s| == 32 && OP_NODE + l + r == OP_NODE + m + s
    ensures l == m && r == s
  {
    var n := |OP_NODE|;
    assert (OP_NODE + l + r)[n..n + 32] == l && (OP_NODE + l + r)[n + 32..] == r;
    assert (OP_NODE + m + s)[n..n + 32] == m && (OP_NODE + m + s)[n + 32..] == s;
  }

  /** Leaf and node inputs never have the same length. */
  lemma DomainsApart(id: Digest, l: Digest, r: Digest)
    requires |id| == |l| == |r| == 32
    ensures OP_LEAF + id != OP_NODE + l + r
    ensures OP_LEAF + id != OPS_EMPTY && OP_NODE + l + r != OPS_EMPTY
  {
    assert |OP_LEAF + id| == 58 && |OP_NODE + l + r| == 90 && |OPS_EMPTY| == 28;
  }

  /** Equal hashes, equal trees. */
  lemma {:induction false} TreeHashInjective(t: Tree, u: Tree, inputs: set<seq<byte>>)
    requires CollisionFreeOn(inputs) && Preimages(t) <= inputs && Preimages(u) <= inputs
    requires IdsOk(t) && IdsOk(u) && TreeHash(t) == TreeHash(u)
    ensures t == u
  {
    match (t, u)
    case (Leaf(a), Leaf(b)) =>
      assert OP_LEAF + a in inputs && OP_LEAF + b in inputs;
      LeafSplits(a, b);
    case (Node(l, r), Node(m, s)) =>
      assert OP_NODE + TreeHash(l) + TreeHash(r) in inputs && OP_NODE + TreeHash(m) + TreeHash(s) in inputs;
      NodeSplits(TreeHash(l), TreeHash(r), TreeHash(m), TreeHash(s));
      TreeHashInjective(l, m, inputs);
      TreeHashInjective(r, s, inputs);
    case (Leaf(a), Node(m, s)) =>
      DomainsApart(a, TreeHash(m), TreeHash(s));
    case (Node(l, r), Leaf(b)) =>
      DomainsApart(b, TreeHash(l), TreeHash(r));
  }

  function LeafTrees(ops: seq<Op>): (ts: seq<Tree>)
    ensures |ts| == |ops|
  {
    seq(|ops|, i requires 0 <= i < |ops| => Leaf(OperationId(ops[i])))
  }

  /** Every byte string that is hashed to compute the root of this list. */
  function Hashed(ops: seq<Op>): set<seq<byte>> {
    (set op | op in ops :: OP_ID + Encode(op))
    + if ops == [] then {OPS_EMPTY} else Preimages(Build(LeafTrees(ops)))
  }

  lemma {:induction false} LeafFringes(ops: seq<Op>)
    ensures |Fringes(LeafTrees(ops))| == |ops|
    ensures forall i :: 0 <= i < |ops| ==> Fringes(LeafTrees(ops))[i] == OperationId(ops[i])
  {
    if ops != [] {
      LeafFringes(ops[1..]);
      assert LeafTrees(ops)[1..] == LeafTrees(ops[1..]);
      assert Fringes(LeafTrees(ops)) == [OperationId(ops[0])] + Fringes(LeafTrees(ops[1..]));
    }
  }

  lemma {:induction false} NextIdsOk(ts: seq<Tree>)
    requires forall i :: 0 <= i < |ts| ==> IdsOk(ts[i])
    ensures forall i :: 0 <= i < |NextTrees(ts)| ==> IdsOk(NextTrees(ts)[i])
  {
    if |ts| > 1 {
      NextIdsOk(ts[2..]);
    }
  }

  lemma {:induction false} BuildIdsOk(ts: seq<Tree>)
    requires ts != [] && forall i :: 0 <= i < |ts| ==> IdsOk(ts[i])
    ensures IdsOk(Build(ts))
    decreases |ts|
  {
    if |ts| > 1 {
      NextIdsOk(ts);
      BuildIdsOk(NextTrees(ts));
    }
  }

  /** The root of a non-empty list is the hash of a tree whose fringe is its ids. */
  lemma RootIsTree(ops: seq<Op>)
    requires ops != []
    ensures RootOf(Leaves(ops)) == TreeHash(Build(LeafTrees(ops)))
    ensures IdsOk(Build(LeafTrees(ops)))
    ensures Fringe(Build(LeafTrees(ops))) == Fringes(LeafTrees(ops))
  {
    assert Leaves(ops) == Hashes(LeafTrees(ops));
    RootHashes(LeafTrees(ops));
    BuildFringe(LeafTrees(ops));
    BuildIdsOk(LeafTrees(ops));
  }

  lemma SameIdsSameOps(xs: seq<Op>, ys: seq<Op>, inputs: set<seq<byte>>)
    requires CollisionFreeOn(inputs) && Hashed(xs) <= inputs && Hashed(ys) <= inputs
    requires (forall op :: op in xs ==> OpOk(op)) && (forall op :: op in ys ==> OpOk(op))
    requires Fringes(LeafTrees(xs)) == Fringes(LeafTrees(ys))
    ensures xs == ys
  {
    LeafFringes(xs);
    LeafFringes(ys);
    forall i | 0 <= i < |xs| ensures xs[i] == ys[i] {
      assert xs[i] in xs && ys[i] in ys;
      assert OP_ID + Encode(xs[i]) in Hashed(xs) && OP_ID + Encode(ys[i]) in Hashed(ys);
      assert Fringes(LeafTrees(xs))[i] == Fringes(LeafTrees(ys))[i];
      assert (OP_ID + Encode(xs[i]))[|OP_ID|..] == Encode(xs[i]);
      assert (OP_ID + Encode(ys[i]))[|OP_ID|..] == Encode(ys[i]);
      EncodeInjective(xs[i], ys[i]);
    }
  }

  lemma EmptyRootApart(ops: seq<Op>, inputs: set<seq<byte>>)
    requires ops != [] && CollisionFreeOn(inputs) && Hashed(ops) <= inputs && OPS_EMPTY in inputs
    ensures RootOf(Leaves(ops)) != Sha256(OPS_EMPTY)
  {
    RootIsTree(ops);
    match Build(LeafTrees(ops))
    case Leaf(id) =>
      DomainsApart(id, id, id);
      assert OP_LEAF + id in inputs;
    case Node(l, r) =>
      DomainsApart(TreeHash(l), TreeHash(l), TreeHash(r));
      assert OP_NODE + TreeHash(l) + TreeHash(r) in inputs;
  }

  /** The root commits to the list. */
  lemma RootCommits(xs: seq<Op>, ys: seq<Op>)
    requires CollisionFreeOn(Hashed(xs) + Hashed(ys))
    requires (forall op :: op in xs ==> OpOk(op)) && (forall op :: op in ys ==> OpOk(op))
    requires Root(xs).Success? && Root(xs) == Root(ys)
    ensures xs == ys
  {
    var inputs := Hashed(xs) + Hashed(ys);
    if xs == [] && ys != [] {
      EmptyRootApart(ys, inputs);
    } else if xs != [] && ys == [] {
      EmptyRootApart(xs, inputs);
    } else if xs != [] {
      RootIsTree(xs);
      RootIsTree(ys);
      TreeHashInjective(Build(LeafTrees(xs)), Build(LeafTrees(ys)), inputs);
      SameIdsSameOps(xs, ys, inputs);
    }
  }

  // ------------------------------------------------- what is accepted, and its shape

  /** By type, and within a type by operation id. */
  ghost predicate Precedes(a: Op, b: Op) {
    a.kind < b.kind || (a.kind == b.kind && exists k: nat :: PartsAt(OperationId(a), OperationId(b), k))
  }

  lemma BelowIff(a: Op, b: Op)
    ensures Below(a, b) <==> Precedes(a, b)
  {
    LexBeforeIff(OperationId(a), OperationId(b));
  }

  lemma {:induction false} InOrderFar(ops: seq<Op>, i: nat, j: nat)
    requires InOrder(ops) && i < j < |ops|
    ensures Below(ops[i], ops[j])
  {
    assert Below(ops[j - 1], ops[j]);
    if i < j - 1 {
      InOrderFar(ops, i, j - 1);
      var a, b, c := OperationId(ops[i]), OperationId(ops[j - 1]), OperationId(ops[j]);
      if ops[i].kind == ops[j].kind {
        LexLeTransitive(a, b, c);
        if a == c {
          LexLeAntisymmetric(a, b);
        }
      }
    }
  }

  /** A list has a root exactly when each operation precedes every later one. */
  lemma RootIff(ops: seq<Op>)
    ensures Root(ops).Success? <==> forall i, j :: 0 <= i < j < |ops| ==> Precedes(ops[i], ops[j])
  {
    forall i, j | 0 <= i < j < |ops| ensures InOrder(ops) ==> Precedes(ops[i], ops[j]) {
      if InOrder(ops) {
        InOrderFar(ops, i, j);
      }
      BelowIff(ops[i], ops[j]);
    }
    forall i | 0 < i < |ops| ensures Below(ops[i - 1], ops[i]) <==> Precedes(ops[i - 1], ops[i]) {
      BelowIff(ops[i - 1], ops[i]);
    }
  }

  /** Levels can be built in two pieces when the first has an even length. */
  lemma {:induction false} LevelSplits(level: seq<Digest>, half: nat)
    requires 2 * half <= |level|
    ensures NextLevel(level) == NextLevel(level[..2 * half]) + NextLevel(level[2 * half..])
    ensures |NextLevel(level[..2 * half])| == half
  {
    if half == 0 {
      assert level[..0] == [] && level[0..] == level;
    } else {
      LevelSplits(level[2..], half - 1);
      assert level[..2 * half][2..] == level[2..][..2 * (half - 1)];
      assert level[2 * half..] == level[2..][2 * (half - 1)..];
    }
  }

  lemma RootOfNext(level: seq<Digest>)
    requires level != []
    ensures RootOf(level) == RootOf(NextLevel(level))
  {
  }

  /** The root joins the roots of two parts, the first with the largest power of two of leaves that is not all. */
  lemma {:induction false} RootSplits(level: seq<Digest>, k: nat)
    requires Pow2(k) < |level| <= 2 * Pow2(k)
    ensures RootOf(level) == NodeHash(RootOf(level[..Pow2(k)]), RootOf(level[Pow2(k)..]))
    decreases k
  {
    var p := Pow2(k);
    if k == 0 {
      assert NextLevel(level) == [NodeHash(level[0], level[1])] + NextLevel(level[2..]);
    } else {
      var half := Pow2(k - 1);
      LevelSplits(level, half);
      var next := NextLevel(level);
      RootSplits(next, k - 1);
      assert next[..half] == NextLevel(level[..p]) && next[half..] == NextLevel(level[p..]);
      RootOfNext(level);
      RootOfNext(level[..p]);
      RootOfNext(level[p..]);
    }
  }

  /** So the root of every list is determined by the roots of shorter ones, down to single leaves. */
  lemma RootRecursion(ops: seq<Op>, k: nat)
    requires Pow2(k) < |ops| <= 2 * Pow2(k) && Root(ops).Success?
    ensures var (l, r) := (Root(ops[..Pow2(k)]), Root(ops[Pow2(k)..]));
            && l.Success? && r.Success?
            && Root(ops) == Success(Sha256(Ascii("MUTINY-PROTOCOL-OP-NODE-V1") + l.value + r.value))
  {
    var p := Pow2(k);
    assert InOrder(ops[..p]);
    assert InOrder(ops[p..]) by {
      forall i | 0 < i < |ops[p..]| ensures Below(ops[p..][i - 1], ops[p..][i]) {
        assert Below(ops[p + i - 1], ops[p + i]);
      }
    }
    RootSplits(Leaves(ops), k);
    assert Leaves(ops)[..p] == Leaves(ops[..p]) && Leaves(ops)[p..] == Leaves(ops[p..]);
  }

  /** The root of one operation is its leaf. */
  lemma RootOfOne(op: Op)
    ensures Root([op]) == Success(Sha256(Ascii("MUTINY-PROTOCOL-OP-LEAF-V1") + OperationId(op)))
  {
  }

  // ------------------------------------------------------------- in place

  /** The inner loop: one level built from the one below. */
  method JoinLevel(level: seq<Digest>) returns (next: seq<Digest>)
    ensures next == NextLevel(level)
  {
    next := [];
    var i := 0;
    while i < |level|
      invariant 0 <= i && i % 2 == 0
      invariant i <= |level| ==> NextLevel(level) == next + NextLevel(level[i..])
      invariant i > |level| ==> next == NextLevel(level)
    {
      if i + 1 == |level| {
        next := next + [level[i]];
      } else {
        assert level[i..][2..] == level[i + 2..];
        next := next + [NodeHash(level[i], level[i + 1])];
      }
      i := i + 2;
    }
  }

  /** `protocol_operations_root` */
  method ProtocolOperationsRoot(operations: seq<Op>) returns (r: Result<Digest>)
    ensures r == Root(operations)
  {
    if operations == [] {
      return Success(Sha256(OPS_EMPTY));
    }
    var i := 1;
    while i < |operations|
      invariant 1 <= i <= |operations|
      invariant forall k :: 0 < k < i ==> Below(operations[k - 1], operations[k])
    {
      if !Below(operations[i - 1], operations[i]) {
        return Failure;
      }
      i := i + 1;
    }
    var level := Leaves(operations);
    while |level| > 1
      invariant level != [] && RootOf(level) == RootOf(Leaves(operations))
      decreases |level|
    {
      level := JoinLevel(level);
    }
    return Success(level[0]);
  }
}
