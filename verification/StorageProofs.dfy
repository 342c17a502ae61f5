/**
 What every run of the storage protocol keeps (crates/mutiny-node/src/storage.rs).

 `Inv` holds after every run, whatever fails. It gives safety: a load that
 completes returns the last entry of the chain, and no permanent entry is lost.
 `LoadSucceedsIff` says exactly in which of these states a load completes.
 */
module StorageProofs {
  import opened Bytes
  import opened Wrappers
  import opened Runs
  import opened Storage

  ghost predicate EntryFits(e: Entry) {
    IdentityFits(e.identity) && |e.payload| < GENERATION_LIMIT
  }

  predicate Only<T(==)>(s: set<T>, x: T) {
    forall y :: y in s ==> y == x
  }

  // ------------------------------------------------------------ what files say

  /** Meta `m` is the one that the commit of `e` as generation `g` writes. */
  ghost predicate Names(c: FileCodec, e: Entry, g: nat, m: Meta) {
    && m.identity == e.identity && m.generation == g < GENERATION_LIMIT
    && m.snapshotHash == c.hash(c.frame(g, e.payload))
  }

  /** The meta file names a surviving entry of the chain. */
  ghost predicate MetaOk(c: FileCodec, chain: seq<Entry>, floor: nat, meta: Option<seq<byte>>) {
    var g := Generation(c, meta);
    && floor <= g <= |chain|
    && if meta.None? then g == 0
       else
         && g >= 1 && c.decodeMeta(meta.value).Success?
         && Names(c, chain[g - 1], g, c.decodeMeta(meta.value).value)
  }

  function ReadJournal(c: FileCodec, journal: Option<seq<byte>>): Result<Journal> {
    if journal.None? then Failure else c.decodeJournal(journal.value)
  }

  /** The journal announces the generation `ahead` after that of the meta file. */
  ghost predicate Announces(c: FileCodec, journal: Option<seq<byte>>, meta: Option<seq<byte>>, ahead: nat)
    requires ahead >= 1
  {
    && ReadJournal(c, journal).Success?
    && var j := ReadJournal(c, journal).value;
    j.generation == Generation(c, meta) + ahead && j.previous == Generation(c, meta) + ahead - 1
  }

  /** The journal of the commit that wrote the meta file. */
  ghost predicate Finished(c: FileCodec, journal: Option<seq<byte>>, meta: Option<seq<byte>>) {
    && ReadJournal(c, journal).Success?
    && meta.Some? && c.decodeMeta(meta.value).Success?
    && var j, m := ReadJournal(c, journal).value, c.decodeMeta(meta.value).value;
    j.generation == m.generation >= 1 && j.snapshotHash == m.snapshotHash
  }

  /** Recovery understands the journal, or it is two generations ahead. */
  ghost predicate JournalOk(c: FileCodec, journal: Option<seq<byte>>, meta: Option<seq<byte>>) {
    journal.Some? ==> Announces(c, journal, meta, 1) || Finished(c, journal, meta) || Announces(c, journal, meta, 2)
  }

  /** The snapshot of generation `g` is there, whatever a crash does. */
  ghost predicate Kept(c: FileCodec, chain: seq<Entry>, d: Dir<Shots>, g: nat)
    requires g <= |chain|
  {
    g >= 1 ==> Only(Snapshots(d, g), Some(c.frame(g, chain[g - 1].payload)))
  }

  /** Snapshots are numbered from 1 to `top`, whatever a crash does. */
  ghost predicate Numbered(d: Dir<Shots>, top: nat) {
    forall k: nat :: k == 0 || k > top ==> Only(Snapshots(d, k), None)
  }

  ghost predicate MetasOk(c: FileCodec, s: Disk) {
    forall m :: m in Metas(s.storage) ==>
      && MetaOk(c, s.chain, s.floor, m)
      && Kept(c, s.chain, s.state, Generation(c, m)) && Numbered(s.state, Generation(c, m) + 1)
  }

  ghost predicate JournalsOk(c: FileCodec, d: Dir<Files>) {
    forall j, m :: j in Journals(d) && m in Metas(d) ==> JournalOk(c, j, m)
  }

  // --------------------------------------------------------------- invariant

  ghost predicate TaskFits(task: Task) {
    task.Commit? ==> EntryFits(task.entry)
  }

  ghost predicate PlanFits(c: FileCodec, p: Plan) {
    && EntryFits(p.entry) && 1 <= p.generation < GENERATION_LIMIT
    && p.framed == c.frame(p.generation, p.entry.payload)
  }

  ghost predicate MetaEverywhere(c: FileCodec, d: Dir<Files>, g: nat) {
    forall m :: m in Metas(d) ==> Generation(c, m) == g
  }

  /** The plan's journal is on disk, next to the meta file of the generation before. */
  ghost predicate Staging(c: FileCodec, s: Disk, p: Plan)
    requires p.generation >= 1
  {
    && p.generation == |s.chain| + 1 && s.floor == |s.chain|
    && Only(Journals(s.storage), Some(c.encodeJournal(PlanJournal(c, p))))
    && MetaEverywhere(c, s.storage, p.generation - 1)
  }

  ghost predicate SnapshotEverywhere(s: Disk, p: Plan) {
    Only(Snapshots(s.state, p.generation), Some(p.framed))
  }

  /** After the meta rename: nothing is newer than this generation and the one before is kept. */
  ghost predicate NewestTwo(s: Disk, p: Plan) {
    && Numbered(s.state, p.generation) && None !in Snapshots(s.state, p.generation)
    && (p.generation >= 2 ==> None !in Snapshots(s.state, p.generation - 1))
  }

  ghost predicate IsLast(s: Disk, p: Plan) {
    p.generation == |s.chain| >= 1 && s.chain[|s.chain| - 1] == p.entry
  }

  ghost predicate Published(c: FileCodec, s: Disk, p: Plan) {
    IsLast(s, p) && NewestTwo(s, p) && MetaEverywhere(c, s.storage, p.generation)
  }

  ghost predicate PhaseOk(c: FileCodec, s: Disk, phase: Phase, p: Plan)
    requires p.generation >= 1
  {
    var t, u := s.storage.Visible(), s.state.Visible();
    match phase
    case JournalTmp => p.generation == |s.chain| + 1
    case JournalRename =>
      p.generation == |s.chain| + 1 && t.journalTmp == Some(c.encodeJournal(PlanJournal(c, p)))
    case JournalSync =>
      p.generation == |s.chain| + 1 && t.journal == Some(c.encodeJournal(PlanJournal(c, p)))
    case SnapshotTmp => Staging(c, s, p)
    case SnapshotRename => Staging(c, s, p) && At(u.tmps, p.generation) == Some(p.framed)
    case SnapshotSync => Staging(c, s, p) && At(u.snapshots, p.generation) == Some(p.framed)
    case MetaTmp => Staging(c, s, p) && SnapshotEverywhere(s, p)
    case MetaRename =>
      Staging(c, s, p) && SnapshotEverywhere(s, p) && t.metaTmp == Some(c.encodeMeta(PlanMeta(c, p)))
    case MetaSync => IsLast(s, p) && NewestTwo(s, p)
    case JournalDrop => Published(c, s, p)
    case JournalDropSync => Published(c, s, p) && t.journal.None?
    case Prune => Published(c, s, p) && s.floor == |s.chain| && t.journal.None?
    case PruneSync => Published(c, s, p) && s.floor == |s.chain| && t.journal.None?
  }

  ghost predicate PcOk(c: FileCodec, s: Disk) {
    match s.pc
    case Idle => true
    case Recover(task) => TaskFits(task)
    case RemoveStaged(task, g) => TaskFits(task) && g == |s.chain| + 1
    case SyncStaged(task) => TaskFits(task)
    case RemoveJournal(task) => TaskFits(task)
    case SyncJournal(task) => TaskFits(task) && s.storage.Visible().journal.None?
    case Recovered(task) => TaskFits(task) && s.storage.Visible().journal.None?
    case Writing(phase, p) => PlanFits(c, p) && PhaseOk(c, s, phase, p)
  }

  /** What the files say, apart from the running operation. */
  ghost predicate FilesOk(c: FileCodec, s: Disk) {
    && MetasOk(c, s) && JournalsOk(c, s.storage)
    && Generation(c, s.storage.Visible().meta) == |s.chain| && s.floor <= |s.chain| <= s.floor + 1
    && (forall i :: 0 <= i < |s.chain| ==> EntryFits(s.chain[i]))
  }

  /** What every run keeps, whatever fails. */
  ghost predicate Inv(c: FileCodec, s: Disk) {
    FilesOk(c, s) && PcOk(c, s)
  }

  // -------------------------------------------------------------- directories

  lemma StorageVisible(d: Dir<Files>)
    ensures d.Visible().journal in Journals(d) && d.Visible().meta in Metas(d)
  {
  }

  lemma StorageWritten(d: Dir<Files>, t: Files)
    ensures Journals(d.Write(t)) == Journals(d) + {t.journal} && Metas(d.Write(t)) == Metas(d) + {t.meta}
    ensures d.Write(t).Visible() == t
  {
  }

  lemma StorageSynced(d: Dir<Files>)
    ensures Journals(d.Sync()) == {d.Visible().journal} && Metas(d.Sync()) == {d.Visible().meta}
    ensures d.Sync().Visible() == d.Visible()
  {
  }

  lemma StateVisible(d: Dir<Shots>)
    ensures forall k: nat :: At(d.Visible().snapshots, k) in Snapshots(d, k)
  {
  }

  lemma StateWritten(d: Dir<Shots>, u: Shots)
    ensures forall k: nat :: Snapshots(d.Write(u), k) == Snapshots(d, k) + {At(u.snapshots, k)}
    ensures d.Write(u).Visible() == u
  {
    forall k: nat ensures Snapshots(d.Write(u), k) == Snapshots(d, k) + {At(u.snapshots, k)} {
      SnapshotWritten(d, u, k);
    }
  }

  lemma SnapshotWritten(d: Dir<Shots>, u: Shots, k: nat)
    ensures Snapshots(d.Write(u), k) == Snapshots(d, k) + {At(u.snapshots, k)}
  {
  }

  lemma StateSynced(d: Dir<Shots>)
    ensures forall k: nat :: Snapshots(d.Sync(), k) == {At(d.Visible().snapshots, k)}
    ensures d.Sync().Visible() == d.Visible()
  {
  }

  /** Writing a name of `storage/` that recovery does not read changes nothing. */
  lemma StorageTmp(d: Dir<Files>, t: Files)
    requires t.meta == d.Visible().meta && t.journal == d.Visible().journal
    ensures Journals(d.Write(t)) == Journals(d) && Metas(d.Write(t)) == Metas(d) && d.Write(t).Visible() == t
  {
    StorageVisible(d);
    StorageWritten(d, t);
  }

  lemma StateTmp(d: Dir<Shots>, u: Shots)
    requires u.snapshots == d.Visible().snapshots
    ensures d.Write(u).Visible() == u
    ensures forall k: nat :: Snapshots(d.Write(u), k) == Snapshots(d, k)
  {
    StateVisible(d);
    StateWritten(d, u);
  }

  /** A directory whose snapshots are among these keeps what is said of all of them. */
  ghost predicate Fewer(d: Dir<Shots>, d': Dir<Shots>) {
    forall k: nat :: Snapshots(d', k) <= Snapshots(d, k)
  }

  lemma FewerKeeps(c: FileCodec, s: Disk, d: Dir<Shots>)
    requires FilesOk(c, s) && Fewer(s.state, d)
    ensures FilesOk(c, s.(state := d))
  {
    forall m | m in Metas(s.storage)
      ensures Kept(c, s.chain, d, Generation(c, m)) && Numbered(d, Generation(c, m) + 1)
    {
      assert MetaOk(c, s.chain, s.floor, m);
      assert Snapshots(d, Generation(c, m)) <= Snapshots(s.state, Generation(c, m));
      forall k: nat | k == 0 || k > Generation(c, m) + 1 ensures Only(Snapshots(d, k), None) {
        assert Snapshots(d, k) <= Snapshots(s.state, k);
      }
    }
  }

  lemma SyncedState(c: FileCodec, s: Disk)
    requires FilesOk(c, s)
    ensures FilesOk(c, s.(state := s.state.Sync()))
  {
    StateVisible(s.state);
    StateSynced(s.state);
    FewerKeeps(c, s, s.state.Sync());
  }

  lemma SyncedStorage(c: FileCodec, s: Disk)
    requires FilesOk(c, s)
    ensures FilesOk(c, SyncStorage(s)) && SyncStorage(s).storage.Visible() == s.storage.Visible()
    ensures Only(Journals(SyncStorage(s).storage), s.storage.Visible().journal)
    ensures MetaEverywhere(c, SyncStorage(s).storage, |s.chain|)
  {
    StorageVisible(s.storage);
    StorageSynced(s.storage);
  }

  /** Changing the snapshot of one generation, above every meta file. */
  lemma WrittenAbove(c: FileCodec, s: Disk, u: Shots, g: nat)
    requires FilesOk(c, s) && g == |s.chain| + 1
    requires forall k: nat :: k != g ==> At(u.snapshots, k) == At(s.state.Visible().snapshots, k)
    requires At(u.snapshots, g).None? || MetaEverywhere(c, s.storage, |s.chain|)
    ensures FilesOk(c, s.(state := s.state.Write(u))) && s.state.Write(u).Visible() == u
    ensures forall k: nat :: k != g ==> Snapshots(s.state.Write(u), k) == Snapshots(s.state, k)
  {
    var d := s.state.Write(u);
    StateVisible(s.state);
    StateWritten(s.state, u);
    forall m | m in Metas(s.storage)
      ensures Kept(c, s.chain, d, Generation(c, m)) && Numbered(d, Generation(c, m) + 1)
    {
      assert MetaOk(c, s.chain, s.floor, m);
      assert Numbered(s.state, Generation(c, m) + 1);
    }
  }

  // ------------------------------------------------------- steps of recovery

  /** The files do not depend on the operation that is running. */
  lemma SameFiles(c: FileCodec, s: Disk, s': Disk)
    requires FilesOk(c, s) && s' == s.(pc := s'.pc, outcome := s'.outcome)
    ensures FilesOk(c, s')
  {
  }

  /** What the visible files say. */
  lemma VisibleOk(c: FileCodec, s: Disk)
    requires FilesOk(c, s)
    ensures var t, u, g := s.storage.Visible(), s.state.Visible(), |s.chain|;
            && MetaOk(c, s.chain, s.floor, t.meta) && JournalOk(c, t.journal, t.meta)
            && (g >= 1 ==> At(u.snapshots, g) == Some(c.frame(g, s.chain[g - 1].payload)))
            && (forall k: nat :: k in u.snapshots ==> 1 <= k <= g + 1)
  {
    StorageVisible(s.storage);
    StateVisible(s.state);
    var t, u, g := s.storage.Visible(), s.state.Visible(), |s.chain|;
    assert JournalOk(c, t.journal, t.meta) && MetaOk(c, s.chain, s.floor, t.meta);
    assert Kept(c, s.chain, s.state, g) && Numbered(s.state, g + 1);
    forall k: nat | k in u.snapshots ensures 1 <= k <= g + 1 {
      assert At(u.snapshots, k) in Snapshots(s.state, k);
    }
  }

  lemma GoRecover(c: FileCodec, s: Disk)
    requires Inv(c, s) && s.pc.Recover?
    ensures Inv(c, GoStep(c, s))
  {
    VisibleOk(c, s);
    SameFiles(c, s, GoStep(c, s));
  }

  lemma GoRemoveStaged(c: FileCodec, s: Disk)
    requires Inv(c, s) && s.pc.RemoveStaged?
    ensures Inv(c, GoStep(c, s))
  {
    var u := s.state.Visible();
    var u' := u.(snapshots := u.snapshots - {s.pc.generation});
    WrittenAbove(c, s, u', s.pc.generation);
    SameFiles(c, s.(state := s.state.Write(u')), GoStep(c, s));
  }

  lemma GoSyncStaged(c: FileCodec, s: Disk)
    requires Inv(c, s) && s.pc.SyncStaged?
    ensures Inv(c, GoStep(c, s))
  {
    SyncedState(c, s);
    SameFiles(c, s.(state := s.state.Sync()), GoStep(c, s));
  }

  /** The visible journal is removed, or there was none. */
  function WithoutJournal(d: Dir<Files>): Dir<Files> {
    if d.Visible().journal.Some? then d.Write(d.Visible().(journal := None)) else d
  }

  lemma DropsJournal(c: FileCodec, s: Disk)
    requires FilesOk(c, s)
    ensures FilesOk(c, s.(storage := WithoutJournal(s.storage)))
    ensures Metas(WithoutJournal(s.storage)) == Metas(s.storage)
    ensures Journals(WithoutJournal(s.storage)) <= Journals(s.storage) + {None}
    ensures WithoutJournal(s.storage).Visible().journal.None?
  {
    var t := s.storage.Visible().(journal := None);
    StorageVisible(s.storage);
    StorageWritten(s.storage, t);
  }

  lemma GoRemoveJournal(c: FileCodec, s: Disk)
    requires Inv(c, s) && s.pc.RemoveJournal?
    ensures Inv(c, GoStep(c, s))
  {
    DropsJournal(c, s);
    SameFiles(c, s.(storage := WithoutJournal(s.storage)), GoStep(c, s));
  }

  lemma GoSyncJournal(c: FileCodec, s: Disk)
    requires Inv(c, s) && s.pc.SyncJournal?
    ensures Inv(c, GoStep(c, s))
  {
    SyncedStorage(c, s);
    SameFiles(c, SyncStorage(s), GoStep(c, s));
  }

  lemma PlanMade(c: FileCodec, t: Files, entry: Entry)
    requires EntryFits(entry) && MakePlan(c, t, entry).Success?
    ensures PlanFits(c, MakePlan(c, t, entry).value)
    ensures MakePlan(c, t, entry).value.generation == Generation(c, t.meta) + 1
  {
  }

  lemma GoRecovered(c: FileCodec, s: Disk)
    requires Inv(c, s) && s.pc.Recovered?
    ensures Inv(c, GoStep(c, s))
  {
    var t := s.storage.Visible();
    SameFiles(c, s, GoStep(c, s));
    if s.pc.task.Commit? && MakePlan(c, t, s.pc.task.entry).Success? {
      PlanMade(c, t, s.pc.task.entry);
    }
  }

  // --------------------------------------------------------- steps of a commit

  lemma WritesTmp(c: FileCodec, s: Disk, t: Files)
    requires FilesOk(c, s) && t.meta == s.storage.Visible().meta && t.journal == s.storage.Visible().journal
    ensures FilesOk(c, s.(storage := s.storage.Write(t)))
    ensures Journals(s.storage.Write(t)) == Journals(s.storage) && Metas(s.storage.Write(t)) == Metas(s.storage)
  {
    StorageTmp(s.storage, t);
  }

  lemma GoJournalTmp(c: FileCodec, s: Disk)
    requires Inv(c, s) && s.pc.Writing? && s.pc.phase.JournalTmp?
    ensures Inv(c, GoStep(c, s))
  {
    var t := s.storage.Visible().(journalTmp := Some(c.encodeJournal(PlanJournal(c, s.pc.plan))));
    WritesTmp(c, s, t);
    SameFiles(c, s.(storage := s.storage.Write(t)), GoStep(c, s));
  }

  /** The new journal is one ahead of the visible meta file, and two ahead of one that a crash may bring back. */
  lemma GoJournalRename(c: FileCodec, s: Disk)
    requires RoundTrips(c) && Inv(c, s) && s.pc.Writing? && s.pc.phase.JournalRename?
    ensures Inv(c, GoStep(c, s))
  {
    var t, p := s.storage.Visible(), s.pc.plan;
    var t' := t.(journal := t.journalTmp, journalTmp := None);
    assert ReadJournal(c, t'.journal) == Success(PlanJournal(c, p));
    WritesJournal(c, s, t', PlanJournal(c, p));
    SameFiles(c, s.(storage := s.storage.Write(t')), GoStep(c, s));
  }

  lemma WritesJournal(c: FileCodec, s: Disk, t: Files, j: Journal)
    requires FilesOk(c, s) && t.meta == s.storage.Visible().meta && ReadJournal(c, t.journal) == Success(j)
    requires j.generation == |s.chain| + 1 && j.previous == |s.chain|
    ensures FilesOk(c, s.(storage := s.storage.Write(t)))
  {
    StorageVisible(s.storage);
    StorageWritten(s.storage, t);
    forall m | m in Metas(s.storage) ensures JournalOk(c, t.journal, m) {
      assert MetaOk(c, s.chain, s.floor, m);
      assert Announces(c, t.journal, m, 1) || Announces(c, t.journal, m, 2);
    }
  }

  lemma GoJournalSync(c: FileCodec, s: Disk)
    requires Inv(c, s) && s.pc.Writing? && s.pc.phase.JournalSync?
    ensures Inv(c, GoStep(c, s))
  {
    SyncedStorage(c, s);
    SameFiles(c, SyncStorage(s), GoStep(c, s));
  }

  lemma WritesSnapshotTmp(c: FileCodec, s: Disk, g: nat, bytes: seq<byte>)
    requires FilesOk(c, s)
    ensures var u := s.state.Visible();
            FilesOk(c, s.(state := s.state.Write(u.(tmps := u.tmps[g := bytes]))))
  {
    var u := s.state.Visible();
    StateTmp(s.state, u.(tmps := u.tmps[g := bytes]));
    FewerKeeps(c, s, s.state.Write(u.(tmps := u.tmps[g := bytes])));
  }

  lemma GoSnapshotTmp(c: FileCodec, s: Disk)
    requires Inv(c, s) && s.pc.Writing? && s.pc.phase.SnapshotTmp?
    ensures Inv(c, GoStep(c, s))
  {
    var u, p := s.state.Visible(), s.pc.plan;
    WritesSnapshotTmp(c, s, p.generation, p.framed);
    SameFiles(c, s.(state := s.state.Write(u.(tmps := u.tmps[p.generation := p.framed]))), GoStep(c, s));
  }

  lemma GoSnapshotRename(c: FileCodec, s: Disk)
    requires Inv(c, s) && s.pc.Writing? && s.pc.phase.SnapshotRename?
    ensures Inv(c, GoStep(c, s))
  {
    var u, p := s.state.Visible(), s.pc.plan;
    var u' := Shots(u.snapshots[p.generation := u.tmps[p.generation]], u.tmps - {p.generation});
    WrittenAbove(c, s, u', p.generation);
    SameFiles(c, s.(state := s.state.Write(u')), GoStep(c, s));
  }

  lemma GoSnapshotSync(c: FileCodec, s: Disk)
    requires Inv(c, s) && s.pc.Writing? && s.pc.phase.SnapshotSync?
    ensures Inv(c, GoStep(c, s))
  {
    SyncedState(c, s);
    StateSynced(s.state);
    SameFiles(c, s.(state := s.state.Sync()), GoStep(c, s));
  }

  lemma GoMetaTmp(c: FileCodec, s: Disk)
    requires Inv(c, s) && s.pc.Writing? && s.pc.phase.MetaTmp?
    ensures Inv(c, GoStep(c, s))
  {
    var t := s.storage.Visible().(metaTmp := Some(c.encodeMeta(PlanMeta(c, s.pc.plan))));
    WritesTmp(c, s, t);
    SameFiles(c, s.(storage := s.storage.Write(t)), GoStep(c, s));
  }

  /** The chain grows by the planned entry, whose snapshot is everywhere. */
  lemma ChainGrows(c: FileCodec, s: Disk, p: Plan)
    requires FilesOk(c, s) && PlanFits(c, p) && Staging(c, s, p) && SnapshotEverywhere(s, p)
    ensures var chain := s.chain + [p.entry];
            && MetasOk(c, s.(chain := chain)) && Kept(c, chain, s.state, p.generation)
            && Numbered(s.state, p.generation + 1) && NewestTwo(s, p)
  {
    var chain := s.chain + [p.entry];
    StorageVisible(s.storage);
    StateVisible(s.state);
    var m := s.storage.Visible().meta;
    assert Kept(c, s.chain, s.state, |s.chain|) && Numbered(s.state, |s.chain| + 1);
    assert p.generation >= 2 ==> chain[p.generation - 2] == s.chain[p.generation - 2];
    forall m | m in Metas(s.storage)
      ensures MetaOk(c, chain, s.floor, m) && Kept(c, chain, s.state, Generation(c, m))
    {
      assert MetaOk(c, s.chain, s.floor, m);
    }
  }

  /** The rename of the meta file: the point at which a commit takes effect. */
  lemma GoMetaRename(c: FileCodec, s: Disk)
    requires RoundTrips(c) && Inv(c, s) && s.pc.Writing? && s.pc.phase.MetaRename?
    ensures Inv(c, GoStep(c, s))
  {
    var t, p := s.storage.Visible(), s.pc.plan;
    var chain := s.chain + [p.entry];
    var t' := t.(meta := t.metaTmp, metaTmp := None);
    assert c.decodeMeta(c.encodeMeta(PlanMeta(c, p))) == Success(PlanMeta(c, p));
    assert c.decodeJournal(c.encodeJournal(PlanJournal(c, p))) == Success(PlanJournal(c, p));
    ChainGrows(c, s, p);
    WritesMeta(c, s, t', p);
    SameFiles(c, s.(storage := s.storage.Write(t'), chain := chain), GoStep(c, s));
  }

  lemma WritesMeta(c: FileCodec, s: Disk, t: Files, p: Plan)
    requires FilesOk(c, s) && PlanFits(c, p) && Staging(c, s, p) && SnapshotEverywhere(s, p)
    requires t.journal == s.storage.Visible().journal && t.meta.Some?
    requires c.decodeMeta(t.meta.value) == Success(PlanMeta(c, p))
    requires c.decodeJournal(c.encodeJournal(PlanJournal(c, p))) == Success(PlanJournal(c, p))
    ensures FilesOk(c, s.(storage := s.storage.Write(t), chain := s.chain + [p.entry]))
  {
    var chain := s.chain + [p.entry];
    ChainGrows(c, s, p);
    StorageVisible(s.storage);
    StorageWritten(s.storage, t);
    assert MetaOk(c, chain, s.floor, t.meta);
    assert Finished(c, Some(c.encodeJournal(PlanJournal(c, p))), t.meta);
  }

  lemma GoMetaSync(c: FileCodec, s: Disk)
    requires Inv(c, s) && s.pc.Writing? && s.pc.phase.MetaSync?
    ensures Inv(c, GoStep(c, s))
  {
    SyncedStorage(c, s);
    SameFiles(c, SyncStorage(s), GoStep(c, s));
  }

  lemma GoJournalDrop(c: FileCodec, s: Disk)
    requires Inv(c, s) && s.pc.Writing? && s.pc.phase.JournalDrop?
    ensures Inv(c, GoStep(c, s))
  {
    DropsJournal(c, s);
    SameFiles(c, s.(storage := WithoutJournal(s.storage)), GoStep(c, s));
  }

  lemma GoJournalDropSync(c: FileCodec, s: Disk)
    requires Inv(c, s) && s.pc.Writing? && s.pc.phase.JournalDropSync?
    ensures Inv(c, GoStep(c, s))
  {
    SyncedStorage(c, s);
    SameFiles(c, SyncStorage(s), GoStep(c, s));
  }

  lemma GoPruneSync(c: FileCodec, s: Disk)
    requires Inv(c, s) && s.pc.Writing? && s.pc.phase.PruneSync?
    ensures Inv(c, GoStep(c, s))
  {
    SyncedState(c, s);
    PublishedSynced(c, s, s.pc.plan, GoStep(c, s));
    SameFiles(c, s.(state := s.state.Sync()), GoStep(c, s));
  }

  lemma PublishedSynced(c: FileCodec, s: Disk, p: Plan, s': Disk)
    requires Published(c, s, p) && s'.state == s.state.Sync() && s'.storage == s.storage && s'.chain == s.chain
    ensures Published(c, s', p)
  {
    StateVisible(s.state);
    StateSynced(s.state);
  }

  lemma GoKeepsInv(c: FileCodec, s: Disk)
    requires RoundTrips(c) && Inv(c, s) && !s.pc.Idle?
    ensures Inv(c, GoStep(c, s))
  {
    match s.pc
    case Recover(_) => GoRecover(c, s);
    case RemoveStaged(_, _) => GoRemoveStaged(c, s);
    case SyncStaged(_) => GoSyncStaged(c, s);
    case RemoveJournal(_) => GoRemoveJournal(c, s);
    case SyncJournal(_) => GoSyncJournal(c, s);
    case Recovered(_) => GoRecovered(c, s);
    case Writing(phase, plan) =>
      match phase
      case JournalTmp => GoJournalTmp(c, s);
      case JournalRename => GoJournalRename(c, s);
      case JournalSync => GoJournalSync(c, s);
      case SnapshotTmp => GoSnapshotTmp(c, s);
      case SnapshotRename => GoSnapshotRename(c, s);
      case SnapshotSync => GoSnapshotSync(c, s);
      case MetaTmp => GoMetaTmp(c, s);
      case MetaRename => GoMetaRename(c, s);
      case MetaSync => GoMetaSync(c, s);
      case JournalDrop => GoJournalDrop(c, s);
      case JournalDropSync => GoJournalDropSync(c, s);
      case Prune =>
      case PruneSync => GoPruneSync(c, s);
  }

  // ---------------------------------------------------------- the other events

  lemma DropKeepsInv(c: FileCodec, s: Disk, k: nat)
    requires Inv(c, s) && Step(c, s, Drop(k)).Success?
    ensures Inv(c, Step(c, s, Drop(k)).value)
  {
    DropStep(c, s, k);
    DropKeeps(c, s, s.pc.plan, k);
    SameFiles(c, WithoutSnapshot(s, k), Step(c, s, Drop(k)).value);
  }

  lemma DropKeeps(c: FileCodec, s: Disk, p: Plan, k: nat)
    requires FilesOk(c, s) && Published(c, s, p) && Doomed(s.state.Visible().snapshots, p.generation, k)
    ensures FilesOk(c, WithoutSnapshot(s, k)) && Published(c, WithoutSnapshot(s, k), p)
  {
    OldEnough(s, p, k);
    PublishedWithout(c, s, p, k);
    RemovedOld(c, s, k);
  }

  lemma DropStep(c: FileCodec, s: Disk, k: nat)
    requires Step(c, s, Drop(k)).Success?
    ensures s.pc.Writing? && s.pc.phase.Prune? && Doomed(s.state.Visible().snapshots, s.pc.plan.generation, k)
    ensures Step(c, s, Drop(k)).value == WithoutSnapshot(s, k).(pc := Writing(PruneSync, s.pc.plan))
  {
  }

  function WithoutSnapshot(s: Disk, k: nat): Disk {
    var u := s.state.Visible();
    s.(state := s.state.Write(u.(snapshots := u.snapshots - {k})))
  }

  lemma Removed(s: Disk, k: nat)
    ensures forall i: nat :: i != k ==> Snapshots(WithoutSnapshot(s, k).state, i) == Snapshots(s.state, i)
    ensures Snapshots(WithoutSnapshot(s, k).state, k) == Snapshots(s.state, k) + {None}
  {
    var u := s.state.Visible();
    StateVisible(s.state);
    StateWritten(s.state, u.(snapshots := u.snapshots - {k}));
  }

  lemma PublishedWithout(c: FileCodec, s: Disk, p: Plan, k: nat)
    requires Published(c, s, p) && k < p.generation - 1
    ensures Published(c, WithoutSnapshot(s, k), p)
  {
    Removed(s, k);
  }

  lemma RemovedOld(c: FileCodec, s: Disk, k: nat)
    requires FilesOk(c, s) && MetaEverywhere(c, s.storage, |s.chain|) && k < |s.chain|
    ensures FilesOk(c, WithoutSnapshot(s, k))
  {
    Removed(s, k);
    StorageVisible(s.storage);
    var d, g := WithoutSnapshot(s, k).state, |s.chain|;
    assert Kept(c, s.chain, s.state, g) && Numbered(s.state, g + 1);
    assert Kept(c, s.chain, d, g) && Numbered(d, g + 1);
  }

  /** A doomed snapshot is older than the newest two. */
  lemma OldEnough(s: Disk, p: Plan, k: nat)
    requires Numbered(s.state, p.generation) && Doomed(s.state.Visible().snapshots, p.generation, k)
    ensures k < p.generation - 1
  {
    var snapshots := s.state.Visible().snapshots;
    StateVisible(s.state);
    var a, b :| a in snapshots && b in snapshots && k < a < b;
    assert At(snapshots, b) in Snapshots(s.state, b);
  }

  lemma TornKeepsInv(c: FileCodec, s: Disk, bytes: seq<byte>)
    requires Inv(c, s) && Step(c, s, Torn(bytes)).Success?
    ensures Inv(c, Step(c, s, Torn(bytes)).value)
  {
    TornFiles(c, s, bytes);
  }

  lemma TornFiles(c: FileCodec, s: Disk, bytes: seq<byte>)
    requires FilesOk(c, s) && TornStep(s, bytes).Success?
    ensures FilesOk(c, TornStep(s, bytes).value)
  {
    var t, u, s' := s.storage.Visible(), s.state.Visible(), TornStep(s, bytes).value;
    match s.pc.phase
    case JournalTmp =>
      WritesTmp(c, s, t.(journalTmp := Some(bytes)));
      SameFiles(c, s.(storage := s'.storage), s');
    case MetaTmp =>
      WritesTmp(c, s, t.(metaTmp := Some(bytes)));
      SameFiles(c, s.(storage := s'.storage), s');
    case SnapshotTmp =>
      WritesSnapshotTmp(c, s, s.pc.plan.generation, bytes);
      SameFiles(c, s.(state := s'.state), s');
  }

  lemma CrashKeepsInv(c: FileCodec, s: Disk, files: Files, shots: Shots)
    requires Inv(c, s) && MayFiles(s.storage, files) && MayShots(s.state, shots)
    ensures Inv(c, Step(c, s, Crash(files, shots)).value)
  {
    var g := Generation(c, files.meta);
    assert MetaOk(c, s.chain, s.floor, files.meta) && JournalOk(c, files.journal, files.meta);
    assert Kept(c, s.chain, s.state, g) && Numbered(s.state, g + 1);
    SnapshotsSurvive(c, s, shots, g);
    CrashFiles(c, s.chain, s.floor, files, shots);
  }

  /** The disk after a crash that left these files, when the first entries of the chain survive. */
  ghost function Restarted(files: Files, shots: Shots, survivors: seq<Entry>): Disk {
    Disk(Dir(files, []), Dir(shots, []), Idle, Nothing, survivors, |survivors|)
  }

  lemma CrashFiles(c: FileCodec, chain: seq<Entry>, floor: nat, files: Files, shots: Shots)
    requires MetaOk(c, chain, floor, files.meta) && JournalOk(c, files.journal, files.meta)
    requires forall i :: 0 <= i < |chain| ==> EntryFits(chain[i])
    requires var g := Generation(c, files.meta);
             Kept(c, chain[..g], Dir(shots, []), g) && Numbered(Dir(shots, []), g + 1)
    ensures FilesOk(c, Restarted(files, shots, chain[..Generation(c, files.meta)]))
  {
    MetaSurvives(c, chain, floor, files.meta);
    var d := Dir(files, []);
    assert Journals(d) == {files.journal} && Metas(d) == {files.meta};
  }

  lemma MetaSurvives(c: FileCodec, chain: seq<Entry>, floor: nat, meta: Option<seq<byte>>)
    requires MetaOk(c, chain, floor, meta)
    ensures MetaOk(c, chain[..Generation(c, meta)], Generation(c, meta), meta)
  {
  }

  lemma SnapshotsSurvive(c: FileCodec, s: Disk, shots: Shots, g: nat)
    requires g <= |s.chain| && MayShots(s.state, shots) && Kept(c, s.chain, s.state, g) && Numbered(s.state, g + 1)
    ensures Kept(c, s.chain[..g], Dir(shots, []), g) && Numbered(Dir(shots, []), g + 1)
  {
    forall k: nat ensures Snapshots(Dir(shots, []), k) <= Snapshots(s.state, k) {
    }
  }

  lemma StepKeepsInv(c: FileCodec, s: Disk, e: Event)
    requires RoundTrips(c) && Inv(c, s) && Step(c, s, e).Success?
    ensures Inv(c, Step(c, s, e).value)
  {
    match e
    case BeginLoad =>
    case BeginCommit(_) =>
    case Go => GoKeepsInv(c, s);
    case Drop(k) => DropKeepsInv(c, s, k);
    case Fail =>
    case Kill =>
    case Torn(bytes) => TornKeepsInv(c, s, bytes);
    case Crash(files, shots) => CrashKeepsInv(c, s, files, shots);
  }

  // ----------------------------------------------------------------- all runs

  ghost function Machine(c: FileCodec): (Disk, Event) -> Result<Disk> {
    (s: Disk, e: Event) => Step(c, s, e)
  }

  lemma EmptyOk(c: FileCodec)
    ensures Inv(c, Empty)
  {
    assert Journals(Empty.storage) == {None} && Metas(Empty.storage) == {None};
  }

  /** Every run from an empty directory keeps the invariant, whatever fails or crashes. */
  lemma RunsKeepInv(c: FileCodec, events: seq<Event>)
    requires RoundTrips(c) && Run(Machine(c), Empty, events).Success?
    ensures Inv(c, Run(Machine(c), Empty, events).value)
  {
    var inv := (s: Disk) => Inv(c, s);
    forall s, e | inv(s) && Machine(c)(s, e).Success? ensures inv(Machine(c)(s, e).value) {
      StepKeepsInv(c, s, e);
    }
    EmptyOk(c);
    RunInvariant(Machine(c), inv, Empty, events);
  }

  function Last(chain: seq<Entry>): Option<Entry> {
    if chain == [] then None else Some(chain[|chain| - 1])
  }

  /** A load that completes returns exactly the last entry whose meta rename took effect. */
  lemma LoadReturnsLast(c: FileCodec, s: Disk)
    requires RoundTrips(c) && Inv(c, s) && s.pc == Recovered(Load)
    ensures GoStep(c, s) == End(s, Loaded(Last(s.chain)))
  {
    VisibleOk(c, s);
    if s.chain != [] {
      var e := s.chain[|s.chain| - 1];
      assert c.unframe(c.frame(|s.chain|, e.payload), |s.chain|) == Success(e.payload);
    }
  }

  /**
   A commit that completes: its entry is the last of the chain and permanent, the
   generation counts the chain, and only the newest two snapshots are left.
   */
  lemma CommitCompletes(c: FileCodec, s: Disk)
    requires PcOk(c, s) && s.pc.Writing? && GoStep(c, s).outcome.Committed? && GoStep(c, s).pc.Idle?
    ensures var s', g := GoStep(c, s), s.pc.plan.generation;
            && s'.outcome == Committed(g) && g == |s'.chain| == s'.floor
            && Last(s'.chain) == Some(s.pc.plan.entry)
            && s'.state.Visible().snapshots.Keys == (if g >= 2 then {g - 1, g} else {g})
  {
    CommitEnds(c, s);
    PruneSays(c, s);
    NewestTwoLeft(s, s.pc.plan);
  }

  lemma PruneSays(c: FileCodec, s: Disk)
    requires PcOk(c, s) && s.pc.Writing? && s.pc.phase.Prune?
    ensures IsLast(s, s.pc.plan) && NewestTwo(s, s.pc.plan) && s.floor == |s.chain|
  {
  }

  /** A commit reports its generation only when nothing is left to prune. */
  lemma CommitEnds(c: FileCodec, s: Disk)
    requires s.pc.Writing? && GoStep(c, s).outcome.Committed? && GoStep(c, s).pc.Idle?
    ensures s.pc.phase.Prune? && GoStep(c, s) == End(s, Committed(s.pc.plan.generation))
    ensures !exists k :: Doomed(s.state.Visible().snapshots, s.pc.plan.generation, k)
  {
  }

  lemma NewestTwoLeft(s: Disk, p: Plan)
    requires NewestTwo(s, p) && !exists k :: Doomed(s.state.Visible().snapshots, p.generation, k)
    ensures s.state.Visible().snapshots.Keys ==
            if p.generation >= 2 then {p.generation - 1, p.generation} else {p.generation}
  {
    var u, g := s.state.Visible(), p.generation;
    StateVisible(s.state);
    assert At(u.snapshots, g) in Snapshots(s.state, g);
    forall k | k in u.snapshots ensures 1 <= k && (k == g || k == g - 1) {
      assert At(u.snapshots, k) in Snapshots(s.state, k);
      OlderIsDoomed(u.snapshots, g, k);
    }
  }

  lemma OlderIsDoomed(snapshots: map<nat, seq<byte>>, g: nat, k: nat)
    requires g in snapshots && (g >= 2 ==> g - 1 in snapshots)
    ensures k in snapshots && 1 <= k < g - 1 ==> Doomed(snapshots, g, k)
  {
  }

  /** What is permanent stays: the first `floor` entries survive every later event. */
  ghost predicate Keeps(s: Disk, s': Disk) {
    && s.floor <= |s.chain| && s.floor <= s'.floor <= |s'.chain|
    && s'.chain[..s.floor] == s.chain[..s.floor]
  }

  lemma CrashKeepsFloor(c: FileCodec, s: Disk, files: Files, shots: Shots)
    requires FilesOk(c, s) && Step(c, s, Crash(files, shots)).Success?
    ensures Keeps(s, Step(c, s, Crash(files, shots)).value)
  {
    assert MetaOk(c, s.chain, s.floor, files.meta);
  }

  lemma GoKeepsFloor(c: FileCodec, s: Disk)
    requires s.floor <= |s.chain|
    ensures Keeps(s, GoStep(c, s))
  {
  }

  lemma StepKeepsFloor(c: FileCodec, s: Disk, e: Event)
    requires FilesOk(c, s) && Step(c, s, e).Success?
    ensures Keeps(s, Step(c, s, e).value)
  {
    match e
    case Go => GoKeepsFloor(c, s);
    case Crash(files, shots) => CrashKeepsFloor(c, s, files, shots);
    case _ =>
  }

  /** No run loses an entry that was permanent when it started, so no completed commit is ever lost. */
  lemma RunsKeepFloor(c: FileCodec, s: Disk, events: seq<Event>)
    requires RoundTrips(c) && Inv(c, s) && Run(Machine(c), s, events).Success?
    ensures Keeps(s, Run(Machine(c), s, events).value)
  {
    var inv := (x: Disk) => Inv(c, x);
    var rel := (x: Disk, y: Disk) => x == y || (x.floor <= |x.chain| ==> Keeps(x, y));
    forall x, e | inv(x) && Machine(c)(x, e).Success?
      ensures inv(Machine(c)(x, e).value) && rel(x, Machine(c)(x, e).value)
    {
      StepKeepsInv(c, x, e);
      StepKeepsFloor(c, x, e);
    }
    forall x, y, z | rel(x, y) && rel(y, z) ensures rel(x, z) {
      if x != y && y != z && x.floor <= |x.chain| {
        assert z.chain[..x.floor] == z.chain[..y.floor][..x.floor];
        assert y.chain[..x.floor] == y.chain[..y.floor][..x.floor];
      }
    }
    RunRelation(Machine(c), inv, rel, s, events);
  }

  // ------------------------------------------------------- when a load completes

  /** A load that makes up to `n` calls without faults; six are enough to finish it. */
  ghost function AfterLoad(c: FileCodec, s: Disk, n: nat): Disk {
    GoTimes(c, s.(pc := Recover(Load)), n)
  }

  ghost function GoTimes(c: FileCodec, s: Disk, n: nat): Disk
    decreases n
  {
    if n == 0 then s else GoTimes(c, GoStep(c, s), n - 1)
  }

  /** The journal announces a snapshot, and the file there is another one. */
  ghost predicate Stale(c: FileCodec, s: Disk) {
    var t, u := s.storage.Visible(), s.state.Visible();
    && Announces(c, t.journal, t.meta, 1) && |s.chain| + 1 in u.snapshots
    && c.hash(u.snapshots[|s.chain| + 1]) != ReadJournal(c, t.journal).value.snapshotHash
  }

  /** The journal was written for the meta file after the one that is there. */
  ghost predicate Ahead(c: FileCodec, s: Disk) {
    Announces(c, s.storage.Visible().journal, s.storage.Visible().meta, 2)
  }

  lemma LoadFromRecovered(c: FileCodec, s: Disk, n: nat)
    requires RoundTrips(c) && Inv(c, s) && s.pc == Recovered(Load) && n >= 1
    ensures GoTimes(c, s, n) == End(s, Loaded(Last(s.chain)))
  {
    LoadReturnsLast(c, s);
    GoTimesIdle(c, End(s, Loaded(Last(s.chain))), n - 1);
  }

  lemma {:induction false} GoTimesInvariant(c: FileCodec, inv: Disk -> bool, s: Disk, n: nat)
    requires inv(s) && forall x :: inv(x) ==> inv(GoStep(c, x))
    ensures inv(GoTimes(c, s, n))
    decreases n
  {
    if n > 0 {
      GoTimesInvariant(c, inv, GoStep(c, s), n - 1);
    }
  }

  lemma {:induction false} GoTimesIdle(c: FileCodec, s: Disk, n: nat)
    requires s.pc.Idle?
    ensures GoTimes(c, s, n) == s
  {
    if n > 0 {
      GoTimesIdle(c, s, n - 1);
    }
  }

  lemma LoadFromRemoveJournal(c: FileCodec, s: Disk, n: nat)
    requires RoundTrips(c) && Inv(c, s) && s.pc == RemoveJournal(Load) && n >= 3
    ensures LoadDone(s, GoTimes(c, s, n))
  {
    GoRemoveJournal(c, s);
    var s1 := GoStep(c, s);
    GoSyncJournal(c, s1);
    var s2 := GoStep(c, s1);
    StorageSynced(s1.storage);
    LoadFromRecovered(c, s2, n - 2);
    assert GoTimes(c, s, n) == GoTimes(c, s1, n - 1) == GoTimes(c, s2, n - 2);
  }

  /** A finished load: the last entry, no journal, the same chain. */
  ghost predicate LoadDone(s: Disk, s': Disk) {
    && s'.pc.Idle? && s'.outcome == Loaded(Last(s.chain)) && s'.chain == s.chain
    && s'.storage.Visible().journal.None?
  }

  /**
   In every reachable state, a load that is not disturbed succeeds exactly when the
   state is neither stale nor ahead, and then returns the last entry of the chain.
   */
  lemma LoadSucceedsIff(c: FileCodec, s: Disk, n: nat)
    requires RoundTrips(c) && Inv(c, s) && s.pc.Idle? && n >= 6
    ensures if Stale(c, s) || Ahead(c, s) then AfterLoad(c, s, n) == End(s, Error) else LoadDone(s, AfterLoad(c, s, n))
  {
    var s0 := s.(pc := Recover(Load));
    SameFiles(c, s, s0);
    GoRecover(c, s0);
    var s1 := GoStep(c, s0);
    DecideCases(c, s0);
    assert AfterLoad(c, s, n) == GoTimes(c, s1, n - 1);
    if Stale(c, s) || Ahead(c, s) {
      GoTimesIdle(c, s1, n - 1);
    } else {
      LoadFromDecision(c, s1, n - 1);
    }
  }

  lemma LoadFromDecision(c: FileCodec, s: Disk, n: nat)
    requires RoundTrips(c) && Inv(c, s) && n >= 5
    requires s.pc == RemoveStaged(Load, |s.chain| + 1) || s.pc == RemoveJournal(Load) || s.pc == Recovered(Load)
    ensures LoadDone(s, GoTimes(c, s, n))
  {
    match s.pc
    case RemoveStaged(_, _) => LoadFromRemoveStaged(c, s, n);
    case RemoveJournal(_) => LoadFromRemoveJournal(c, s, n);
    case Recovered(_) => LoadFromRecovered(c, s, n);
  }

  lemma LoadFromRemoveStaged(c: FileCodec, s: Disk, n: nat)
    requires RoundTrips(c) && Inv(c, s) && s.pc.RemoveStaged? && s.pc.task.Load? && n >= 5
    ensures LoadDone(s, GoTimes(c, s, n))
  {
    GoRemoveStaged(c, s);
    var s1 := GoStep(c, s);
    GoSyncStaged(c, s1);
    var s2 := GoStep(c, s1);
    LoadFromRemoveJournal(c, s2, n - 2);
    assert GoTimes(c, s, n) == GoTimes(c, s1, n - 1) == GoTimes(c, s2, n - 2);
  }

  /** What the first step of recovery finds. */
  lemma DecideCases(c: FileCodec, s: Disk)
    requires RoundTrips(c) && Inv(c, s) && s.pc == Recover(Load)
    ensures var s1 := GoStep(c, s);
            if Stale(c, s) || Ahead(c, s) then s1 == End(s, Error)
            else s1 == s.(pc := s1.pc) &&
                 (|| s1.pc == RemoveStaged(Load, |s.chain| + 1)
                  || s1.pc == RemoveJournal(Load) || s1.pc == Recovered(Load))
  {
    VisibleOk(c, s);
    if Finished(c, s.storage.Visible().journal, s.storage.Visible().meta) {
      var e := s.chain[|s.chain| - 1];
      assert c.unframe(c.frame(|s.chain|, e.payload), |s.chain|) == Success(e.payload);
    }
  }
}
