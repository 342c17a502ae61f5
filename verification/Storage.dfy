/**
 Durable snapshots (crates/mutiny-node/src/storage.rs): the journal, snapshot
 and meta commit protocol, and its recovery.

 The two directories are kept as the state that is on disk plus every state they
 went through since they were last synced. A crash leaves each name, independently
 of every other, with any of the contents it had at those points; a call may also
 fail, or the process be killed before it, and the files then stay as they are seen.
 `Step` makes one file system call of the running operation, so a run can be cut
 between any two calls.
 */
module Storage {
  import opened Arithmetic
  import opened Bytes
  import opened Wrappers

  datatype Identity = Identity(networkId: nat, genesisId: seq<byte>, height: nat,
                               tipHash: seq<byte>, stateRoot: seq<byte>, chainwork: seq<byte>)

  /** `StorageMetaV1` */
  datatype Meta = Meta(identity: Identity, generation: nat, snapshotHash: seq<byte>)

  /** `JournalV1` */
  datatype Journal = Journal(generation: nat, previous: nat, snapshotHash: seq<byte>)

  const GENERATION_LIMIT := U64

  /** The file formats and the file hash; the protocol is proved for any that round-trip. */
  datatype FileCodec = FileCodec(
    encodeMeta: Meta -> seq<byte>, decodeMeta: seq<byte> -> Result<Meta>,
    encodeJournal: Journal -> seq<byte>, decodeJournal: seq<byte> -> Result<Journal>,
    frame: (nat, seq<byte>) -> seq<byte>, unframe: (seq<byte>, nat) -> Result<seq<byte>>,
    hash: seq<byte> -> seq<byte>)

  predicate IdentityFits(id: Identity) {
    && id.networkId < 0x1_0000_0000 && id.height < GENERATION_LIMIT
    && |id.genesisId| == |id.tipHash| == |id.stateRoot| == |id.chainwork| == 32
  }

  ghost predicate RoundTrips(c: FileCodec) {
    && (forall bytes :: |c.hash(bytes)| == 32)
    && (forall m: Meta :: IdentityFits(m.identity) && m.generation < GENERATION_LIMIT && |m.snapshotHash| == 32 ==>
          c.decodeMeta(c.encodeMeta(m)) == Success(m))
    && (forall j: Journal ::
          j.generation < GENERATION_LIMIT && j.previous < GENERATION_LIMIT && |j.snapshotHash| == 32 ==>
          c.decodeJournal(c.encodeJournal(j)) == Success(j))
    && (forall g: nat, payload :: g < GENERATION_LIMIT && |payload| < GENERATION_LIMIT ==>
          c.unframe(c.frame(g, payload), g) == Success(payload))
  }

  // --------------------------------------------------------------------- disk

  /** A directory: what is on disk, and its states since then; the last one is what programs see. */
  datatype Dir<T(==)> = Dir(durable: T, later: seq<T>) {
    function Visible(): T {
      if later == [] then durable else later[|later| - 1]
    }

    function Write(t: T): Dir<T> {
      Dir(durable, later + [t])
    }

    function Sync(): Dir<T> {
      Dir(Visible(), [])
    }
  }

  /** `storage/`: the journal, the meta file and their temporaries. */
  datatype Files = Files(journal: Option<seq<byte>>, meta: Option<seq<byte>>,
                         journalTmp: Option<seq<byte>>, metaTmp: Option<seq<byte>>)

  /** `storage/state/`: snapshot files by generation, and their temporaries. */
  datatype Shots = Shots(snapshots: map<nat, seq<byte>>, tmps: map<nat, seq<byte>>)

  // What the names of a directory may hold after a crash: any contents since the last sync.

  function Journals(d: Dir<Files>): set<Option<seq<byte>>> {
    {d.durable.journal} + set t | t in d.later :: t.journal
  }

  function Metas(d: Dir<Files>): set<Option<seq<byte>>> {
    {d.durable.meta} + set t | t in d.later :: t.meta
  }

  function JournalTmps(d: Dir<Files>): set<Option<seq<byte>>> {
    {d.durable.journalTmp} + set t | t in d.later :: t.journalTmp
  }

  function MetaTmps(d: Dir<Files>): set<Option<seq<byte>>> {
    {d.durable.metaTmp} + set t | t in d.later :: t.metaTmp
  }

  function At(files: map<nat, seq<byte>>, k: nat): Option<seq<byte>> {
    if k in files then Some(files[k]) else None
  }

  function Snapshots(d: Dir<Shots>, k: nat): set<Option<seq<byte>>> {
    {At(d.durable.snapshots, k)} + set u | u in d.later :: At(u.snapshots, k)
  }

  function SnapshotTmps(d: Dir<Shots>, k: nat): set<Option<seq<byte>>> {
    {At(d.durable.tmps, k)} + set u | u in d.later :: At(u.tmps, k)
  }

  /** A crash may leave `storage/` like this. */
  predicate MayFiles(d: Dir<Files>, t: Files) {
    t.journal in Journals(d) && t.meta in Metas(d) && t.journalTmp in JournalTmps(d) && t.metaTmp in MetaTmps(d)
  }

  /** A crash may leave `storage/state/` like this. */
  ghost predicate MayShots(d: Dir<Shots>, u: Shots) {
    forall k: nat :: At(u.snapshots, k) in Snapshots(d, k) && At(u.tmps, k) in SnapshotTmps(d, k)
  }

  datatype Entry = Entry(payload: seq<byte>, identity: Identity)

  datatype Task = Load | Commit(entry: Entry)

  /** What `commit_snapshot` works out before it writes. */
  datatype Plan = Plan(entry: Entry, generation: nat, framed: seq<byte>)

  datatype Phase =
    | JournalTmp | JournalRename | JournalSync
    | SnapshotTmp | SnapshotRename | SnapshotSync
    | MetaTmp | MetaRename | MetaSync
    | JournalDrop | JournalDropSync
    | Prune | PruneSync

  datatype Pc =
    | Idle
    | Recover(task: Task)
    | RemoveStaged(task: Task, generation: nat)
    | SyncStaged(task: Task)
    | RemoveJournal(task: Task)
    | SyncJournal(task: Task)
    | Recovered(task: Task)
    | Writing(phase: Phase, plan: Plan)

  datatype Outcome = Nothing | Error | Loaded(entry: Option<Entry>) | Committed(generation: nat)

  /**
   `chain` and `floor` are history variables: the entries whose meta rename is in
   effect, oldest first, and how many of them no crash can take away.
   */
  datatype Disk = Disk(storage: Dir<Files>, state: Dir<Shots>, pc: Pc, outcome: Outcome,
                       chain: seq<Entry>, floor: nat)

  datatype Event =
    | BeginLoad
    | BeginCommit(entry: Entry)
    | Go                                // the next call of the running operation succeeds
    | Drop(generation: nat)             // the next call of pruning: remove this snapshot
    | Fail                              // the next call fails and the operation returns an error
    | Kill                              // the process ends before the next call; what it wrote stays visible
    | Torn(bytes: seq<byte>)            // a write to a temporary fails, or the process ends, half-way
    | Crash(files: Files, shots: Shots) // every name falls back to what it holds here

  const Empty := Disk(Dir(Files(None, None, None, None), []), Dir(Shots(map[], map[]), []), Idle, Nothing, [], 0)

  function End(s: Disk, outcome: Outcome): Disk {
    s.(pc := Idle, outcome := outcome)
  }

  /** Generation of the meta file, 0 when there is none. */
  function Generation(c: FileCodec, meta: Option<seq<byte>>): (g: nat) {
    if meta.Some? && c.decodeMeta(meta.value).Success? then c.decodeMeta(meta.value).value.generation else 0
  }

  /** `verify_snapshot_for_meta` */
  function VerifySnapshot(c: FileCodec, u: Shots, m: Meta): (r: Result<seq<byte>>) {
    if m.generation !in u.snapshots then Failure
    else
      var framed := u.snapshots[m.generation];
      if c.hash(framed) != m.snapshotHash then Failure else c.unframe(framed, m.generation)
  }

  /** `read_meta_if_present` */
  function ReadMeta(c: FileCodec, t: Files): (r: Result<Option<Meta>>) {
    if t.meta.None? then Success(None)
    else
      var m :- c.decodeMeta(t.meta.value);
      Success(Some(m))
  }

  /** `recover` up to its first change: the call it makes next, or an error. */
  function Decide(c: FileCodec, t: Files, u: Shots, task: Task): (r: Result<Pc>) {
    if t.journal.None? then Success(Recovered(task))
    else
      var j :- c.decodeJournal(t.journal.value);
      var meta :- ReadMeta(c, t);
      if meta.Some? && meta.value.generation == j.generation then
        if meta.value.snapshotHash != j.snapshotHash then Failure
        else
          var _ :- VerifySnapshot(c, u, meta.value);
          Success(RemoveJournal(task))
      else if (meta.Some? && meta.value.generation == j.previous) || (meta.None? && j.previous == 0) then
        if j.generation !in u.snapshots then Success(RemoveJournal(task))
        else if c.hash(u.snapshots[j.generation]) != j.snapshotHash then Failure
        else Success(RemoveStaged(task, j.generation))
      else Failure
  }

  /** `load_snapshot` after recovery. */
  function ReadBack(c: FileCodec, t: Files, u: Shots): (r: Result<Option<Entry>>) {
    var meta :- ReadMeta(c, t);
    if meta.None? then Success(None)
    else
      var payload :- VerifySnapshot(c, u, meta.value);
      Success(Some(Entry(payload, meta.value.identity)))
  }

  /** `commit_snapshot` after recovery: the plan, or an error when generations run out. */
  function MakePlan(c: FileCodec, t: Files, entry: Entry): (r: Result<Plan>) {
    var meta :- ReadMeta(c, t);
    var generation := (if meta.Some? then meta.value.generation else 0) + 1;
    if generation >= GENERATION_LIMIT then Failure
    else Success(Plan(entry, generation, c.frame(generation, entry.payload)))
  }

  function PlanJournal(c: FileCodec, p: Plan): Journal
    requires p.generation >= 1
  {
    Journal(p.generation, p.generation - 1, c.hash(p.framed))
  }

  function PlanMeta(c: FileCodec, p: Plan): Meta {
    Meta(p.entry.identity, p.generation, c.hash(p.framed))
  }

  /** A snapshot that `prune_old_snapshots` removes: two others are newer, and it is not current. */
  ghost predicate Doomed(snapshots: map<nat, seq<byte>>, current: nat, k: nat) {
    k in snapshots && k != current && exists a, b :: a in snapshots && b in snapshots && k < a < b
  }

  // -------------------------------------------------------------------- steps

  /** The phases of `commit_snapshot` after the plan is made. */
  ghost function WriteStep(c: FileCodec, s: Disk, phase: Phase, p: Plan): (r: Disk)
    requires p.generation >= 1
  {
    var t, u := s.storage.Visible(), s.state.Visible();
    match phase
    case JournalTmp =>
      s.(storage := s.storage.Write(t.(journalTmp := Some(c.encodeJournal(PlanJournal(c, p))))),
         pc := Writing(JournalRename, p))
    case JournalRename =>
      s.(storage := s.storage.Write(t.(journal := t.journalTmp, journalTmp := None)), pc := Writing(JournalSync, p))
    case JournalSync => SyncStorage(s).(pc := Writing(SnapshotTmp, p))
    case SnapshotTmp =>
      s.(state := s.state.Write(u.(tmps := u.tmps[p.generation := p.framed])), pc := Writing(SnapshotRename, p))
    case SnapshotRename =>
      if p.generation !in u.tmps then End(s, Error)
      else
        s.(state := s.state.Write(Shots(u.snapshots[p.generation := u.tmps[p.generation]], u.tmps - {p.generation})),
           pc := Writing(SnapshotSync, p))
    case SnapshotSync => s.(state := s.state.Sync(), pc := Writing(MetaTmp, p))
    case MetaTmp =>
      s.(storage := s.storage.Write(t.(metaTmp := Some(c.encodeMeta(PlanMeta(c, p))))), pc := Writing(MetaRename, p))
    case MetaRename =>
      s.(storage := s.storage.Write(t.(meta := t.metaTmp, metaTmp := None)),
         pc := Writing(MetaSync, p), chain := s.chain + [p.entry])
    case MetaSync => SyncStorage(s).(pc := Writing(JournalDrop, p))
    case JournalDrop =>
      (if t.journal.Some? then s.(storage := s.storage.Write(t.(journal := None))) else s)
      .(pc := Writing(JournalDropSync, p))
    case JournalDropSync => SyncStorage(s).(pc := Writing(Prune, p))
    case Prune =>
      if exists k :: Doomed(u.snapshots, p.generation, k) then s
      else End(s, Committed(p.generation))
    case PruneSync => s.(state := s.state.Sync(), pc := Writing(Prune, p))
  }

  /** Syncing `storage/` makes the visible chain permanent. */
  function SyncStorage(s: Disk): Disk {
    s.(storage := s.storage.Sync(), floor := |s.chain|)
  }

  /** One successful call of the running operation. */
  ghost function GoStep(c: FileCodec, s: Disk): (r: Disk) {
    var t, u := s.storage.Visible(), s.state.Visible();
    match s.pc
    case Idle => s
    case Recover(task) =>
      (match Decide(c, t, u, task)
       case Success(pc) => s.(pc := pc)
       case Failure => End(s, Error))
    case RemoveStaged(task, g) =>
      s.(state := s.state.Write(u.(snapshots := u.snapshots - {g})), pc := SyncStaged(task))
    case SyncStaged(task) => s.(state := s.state.Sync(), pc := RemoveJournal(task))
    case RemoveJournal(task) =>
      (if t.journal.Some? then s.(storage := s.storage.Write(t.(journal := None))) else s).(pc := SyncJournal(task))
    case SyncJournal(task) => SyncStorage(s).(pc := Recovered(task))
    case Recovered(Load) =>
      (match ReadBack(c, t, u)
       case Success(entry) => End(s, Loaded(entry))
       case Failure => End(s, Error))
    case Recovered(Commit(entry)) =>
      (match MakePlan(c, t, entry)
       case Success(plan) => s.(pc := Writing(JournalTmp, plan))
       case Failure => End(s, Error))
    case Writing(phase, plan) => if plan.generation >= 1 then WriteStep(c, s, phase, plan) else s
  }

  /** One event; `Failure` when it cannot happen in this state. */
  ghost function Step(c: FileCodec, s: Disk, e: Event): (r: Result<Disk>) {
    match e
    case BeginLoad => if s.pc.Idle? then Success(s.(pc := Recover(Load))) else Failure
    case BeginCommit(entry) =>
      if s.pc.Idle? && IdentityFits(entry.identity) && |entry.payload| < GENERATION_LIMIT
      then Success(s.(pc := Recover(Commit(entry)))) else Failure
    case Go => if s.pc.Idle? then Failure else Success(GoStep(c, s))
    case Drop(k) =>
      var u := s.state.Visible();
      if s.pc.Writing? && s.pc.phase.Prune? && Doomed(u.snapshots, s.pc.plan.generation, k)
      then Success(s.(state := s.state.Write(u.(snapshots := u.snapshots - {k})), pc := Writing(PruneSync, s.pc.plan)))
      else Failure
    case Fail => if s.pc.Idle? then Failure else Success(End(s, Error))
    case Kill => Success(End(s, Nothing))
    case Torn(bytes) => TornStep(s, bytes)
    case Crash(files, shots) =>
      if MayFiles(s.storage, files) && MayShots(s.state, shots) then
        var g := Generation(c, files.meta);
        var survivors := if g <= |s.chain| then s.chain[..g] else s.chain;
        Success(Disk(Dir(files, []), Dir(shots, []), Idle, Nothing, survivors, |survivors|))
      else Failure
  }

  function TornStep(s: Disk, bytes: seq<byte>): (r: Result<Disk>) {
    var t, u := s.storage.Visible(), s.state.Visible();
    if !s.pc.Writing? then Failure
    else
      match s.pc.phase
      case JournalTmp => Success(End(s.(storage := s.storage.Write(t.(journalTmp := Some(bytes)))), Error))
      case MetaTmp => Success(End(s.(storage := s.storage.Write(t.(metaTmp := Some(bytes)))), Error))
      case SnapshotTmp =>
        Success(End(s.(state := s.state.Write(u.(tmps := u.tmps[s.pc.plan.generation := bytes]))), Error))
      case _ => Failure
  }
}
