/**
 When recovery always succeeds (crates/mutiny-node/src/storage.rs:366-414).

 Recovery refuses to go on when a staged snapshot is not the one the journal
 announces, and when the journal belongs to a later meta file than the one that is
 there. Neither happens unless one of two directory syncs fails, or the process is
 killed before it: the one after recovery removed a staged snapshot, and the one after
 the meta rename. A retry goes on to other changes without first making up for the
 sync, so a crash can undo the removal, or the rename, and keep a later change.
 `StorageFailures` has such runs.
 */
module StorageRecovery {
  import opened Bytes
  import opened Wrappers
  import opened Runs
  import opened Storage
  import opened StorageProofs

  /** A snapshot above the generation of this meta file is the one this journal announces. */
  ghost predicate Announced(c: FileCodec, d: Dir<Shots>, j: Option<seq<byte>>, m: Option<seq<byte>>) {
    forall v :: v in Snapshots(d, Generation(c, m) + 1) && v.Some? ==>
      Announces(c, j, m, 1) && c.hash(v.value) == ReadJournal(c, j).value.snapshotHash
  }

  /** Whatever names a crash brings back, their contents fit each other. */
  ghost predicate Calm(c: FileCodec, s: Disk) {
    forall j, m :: j in Journals(s.storage) && m in Metas(s.storage) ==>
      Announced(c, s.state, j, m) && !Announces(c, j, m, 2)
  }

  /** No state that a crash may leave has a snapshot above the chain. */
  ghost predicate NoneAbove(s: Disk) {
    Only(Snapshots(s.state, |s.chain| + 1), None)
  }

  /** A staged snapshot that is not visible is gone for good. */
  ghost predicate Settled(s: Disk) {
    |s.chain| + 1 !in s.state.Visible().snapshots ==> NoneAbove(s)
  }

  predicate BeforeSnapshot(phase: Phase) {
    phase.JournalTmp? || phase.JournalRename? || phase.JournalSync? || phase.SnapshotTmp? || phase.SnapshotRename?
  }

  ghost predicate StagingOk(s: Disk) {
    match s.pc
    case SyncStaged(_) => |s.chain| + 1 !in s.state.Visible().snapshots
    case RemoveJournal(_) => NoneAbove(s)
    case SyncJournal(_) => NoneAbove(s)
    case Recovered(_) => NoneAbove(s)
    case Writing(phase, _) => Settled(s) && (BeforeSnapshot(phase) ==> NoneAbove(s))
    case _ => Settled(s)
  }

  /** Only between the meta rename and its sync may a crash choose the meta file. */
  ghost predicate OneMeta(c: FileCodec, s: Disk) {
    (s.pc.Writing? && s.pc.phase.MetaSync?) || MetaEverywhere(c, s.storage, |s.chain|)
  }

  ghost predicate Strong(c: FileCodec, s: Disk) {
    Inv(c, s) && Calm(c, s) && StagingOk(s) && OneMeta(c, s)
  }

  /** The two syncs: after recovery removed a staged snapshot, and after the meta rename. */
  datatype Sync = AfterRemoval | AfterRename

  predicate NextIs(s: Disk, sync: Sync) {
    match sync
    case AfterRemoval => s.pc.SyncStaged?
    case AfterRename => s.pc.Writing? && s.pc.phase.MetaSync?
  }

  /** The operation ends without its next call: the call fails, or the process is killed before it. */
  predicate Cuts(e: Event) {
    e.Fail? || e.Kill?
  }

  predicate Benign(s: Disk, e: Event) {
    Cuts(e) ==> !NextIs(s, AfterRemoval) && !NextIs(s, AfterRename)
  }

  // ------------------------------------------------------------- what is kept

  /** Nothing new on disk. */
  ghost predicate NoMore(s: Disk, s': Disk) {
    && Journals(s'.storage) <= Journals(s.storage) && Metas(s'.storage) <= Metas(s.storage)
    && Fewer(s.state, s'.state)
  }

  lemma CalmShrinks(c: FileCodec, s: Disk, s': Disk)
    requires Calm(c, s) && NoMore(s, s')
    ensures Calm(c, s')
  {
    forall j, m | j in Journals(s'.storage) && m in Metas(s'.storage)
      ensures Announced(c, s'.state, j, m) && !Announces(c, j, m, 2)
    {
      assert Announced(c, s.state, j, m) && !Announces(c, j, m, 2);
      assert Snapshots(s'.state, Generation(c, m) + 1) <= Snapshots(s.state, Generation(c, m) + 1);
    }
  }

  lemma SameCalm(c: FileCodec, s: Disk, s': Disk)
    requires Calm(c, s) && s'.storage == s.storage && s'.state == s.state
    ensures Calm(c, s')
  {
  }

  /** With one meta file and nothing above it, only the journals matter. */
  lemma CalmBelow(c: FileCodec, s: Disk)
    requires NoneAbove(s) && MetaEverywhere(c, s.storage, |s.chain|)
    requires forall j, m :: j in Journals(s.storage) && m in Metas(s.storage) ==> !Announces(c, j, m, 2)
    ensures Calm(c, s)
  {
  }

  lemma StorageSyncNoMore(s: Disk)
    ensures NoMore(s, SyncStorage(s))
  {
    StorageVisible(s.storage);
    StorageSynced(s.storage);
  }

  lemma StateSyncNoMore(s: Disk)
    ensures NoMore(s, s.(state := s.state.Sync()))
  {
    StateVisible(s.state);
    StateSynced(s.state);
  }

  // ------------------------------------------------------- steps of recovery

  lemma RecoverStages(c: FileCodec, s: Disk)
    requires FilesOk(c, s) && Calm(c, s) && Settled(s) && s.pc.Recover?
    ensures GoStep(c, s).pc.RemoveJournal? || GoStep(c, s).pc.Recovered? ==> NoneAbove(s)
  {
    VisibleOk(c, s);
    StorageVisible(s.storage);
    var t := s.storage.Visible();
    assert Announced(c, s.state, t.journal, t.meta);
  }

  lemma StrongRecover(c: FileCodec, s: Disk)
    requires Strong(c, s) && s.pc.Recover?
    ensures Strong(c, GoStep(c, s))
  {
    GoRecover(c, s);
    RecoverStages(c, s);
    SameCalm(c, s, GoStep(c, s));
  }

  /** Removing the snapshot above the chain adds only its absence. */
  lemma CalmWithout(c: FileCodec, s: Disk, k: nat)
    requires Calm(c, s)
    ensures Calm(c, WithoutSnapshot(s, k))
  {
    Removed(s, k);
    forall j, m | j in Journals(s.storage) && m in Metas(s.storage)
      ensures Announced(c, WithoutSnapshot(s, k).state, j, m)
    {
      assert Announced(c, s.state, j, m);
    }
  }

  lemma StrongRemoveStaged(c: FileCodec, s: Disk)
    requires Strong(c, s) && s.pc.RemoveStaged?
    ensures Strong(c, GoStep(c, s))
  {
    GoRemoveStaged(c, s);
    CalmWithout(c, s, s.pc.generation);
    SameCalm(c, WithoutSnapshot(s, s.pc.generation), GoStep(c, s));
  }

  lemma StrongSyncStaged(c: FileCodec, s: Disk)
    requires Strong(c, s) && s.pc.SyncStaged?
    ensures Strong(c, GoStep(c, s))
  {
    GoSyncStaged(c, s);
    StateSyncNoMore(s);
    CalmShrinks(c, s, GoStep(c, s));
    StateSynced(s.state);
  }

  lemma CalmWithoutJournal(c: FileCodec, s: Disk)
    requires FilesOk(c, s) && Calm(c, s) && NoneAbove(s) && MetaEverywhere(c, s.storage, |s.chain|)
    ensures Calm(c, s.(storage := WithoutJournal(s.storage)))
    ensures MetaEverywhere(c, WithoutJournal(s.storage), |s.chain|)
  {
    DropsJournal(c, s);
    CalmBelow(c, s.(storage := WithoutJournal(s.storage)));
  }

  lemma StrongRemoveJournal(c: FileCodec, s: Disk)
    requires Strong(c, s) && s.pc.RemoveJournal?
    ensures Strong(c, GoStep(c, s))
  {
    GoRemoveJournal(c, s);
    CalmWithoutJournal(c, s);
    SameCalm(c, s.(storage := WithoutJournal(s.storage)), GoStep(c, s));
  }

  lemma CalmSynced(c: FileCodec, s: Disk, s': Disk)
    requires FilesOk(c, s) && Calm(c, s) && s'.storage == s.storage.Sync() && s'.state == s.state && s'.chain == s.chain
    ensures Calm(c, s') && MetaEverywhere(c, s'.storage, |s'.chain|)
  {
    StorageSyncNoMore(s);
    CalmShrinks(c, s, s');
    SyncedStorage(c, s);
  }

  lemma StrongSyncJournal(c: FileCodec, s: Disk)
    requires Strong(c, s) && s.pc.SyncJournal?
    ensures Strong(c, GoStep(c, s))
  {
    GoSyncJournal(c, s);
    CalmSynced(c, s, GoStep(c, s));
  }

  lemma StrongRecovered(c: FileCodec, s: Disk)
    requires Strong(c, s) && s.pc.Recovered?
    ensures Strong(c, GoStep(c, s))
  {
    GoRecovered(c, s);
    SameCalm(c, s, GoStep(c, s));
  }

  // --------------------------------------------------------- steps of a commit

  lemma CalmTmp(c: FileCodec, s: Disk, t: Files, s': Disk)
    requires Calm(c, s) && t.meta == s.storage.Visible().meta && t.journal == s.storage.Visible().journal
    requires s'.storage == s.storage.Write(t) && s'.state == s.state
    ensures Calm(c, s') && Metas(s'.storage) == Metas(s.storage)
  {
    StorageTmp(s.storage, t);
    CalmShrinks(c, s, s');
  }

  lemma StrongJournalTmp(c: FileCodec, s: Disk)
    requires Strong(c, s) && s.pc.Writing? && s.pc.phase.JournalTmp?
    ensures Strong(c, GoStep(c, s))
  {
    GoJournalTmp(c, s);
    CalmTmp(c, s, s.storage.Visible().(journalTmp := Some(c.encodeJournal(PlanJournal(c, s.pc.plan)))), GoStep(c, s));
  }

  /** With one meta file, the new journal is one ahead of it. */
  lemma CalmJournal(c: FileCodec, s: Disk, t: Files, p: Plan)
    requires FilesOk(c, s) && Calm(c, s) && NoneAbove(s) && MetaEverywhere(c, s.storage, |s.chain|)
    requires p.generation == |s.chain| + 1 && ReadJournal(c, t.journal) == Success(PlanJournal(c, p))
    requires t.meta == s.storage.Visible().meta
    ensures Calm(c, s.(storage := s.storage.Write(t))) && Metas(s.storage.Write(t)) == Metas(s.storage)
  {
    var s' := s.(storage := s.storage.Write(t));
    StorageVisible(s.storage);
    StorageWritten(s.storage, t);
    forall j, m | j in Journals(s'.storage) && m in Metas(s'.storage) ensures !Announces(c, j, m, 2) {
      assert j in Journals(s.storage) || j == t.journal;
    }
    CalmBelow(c, s');
  }

  lemma StrongJournalRename(c: FileCodec, s: Disk)
    requires RoundTrips(c) && Strong(c, s) && s.pc.Writing? && s.pc.phase.JournalRename?
    ensures Strong(c, GoStep(c, s))
  {
    GoJournalRename(c, s);
    var t, p := s.storage.Visible(), s.pc.plan;
    var t' := t.(journal := t.journalTmp, journalTmp := None);
    assert c.decodeJournal(c.encodeJournal(PlanJournal(c, p))) == Success(PlanJournal(c, p));
    CalmJournal(c, s, t', p);
    SameCalm(c, s.(storage := s.storage.Write(t')), GoStep(c, s));
  }

  lemma StrongJournalSync(c: FileCodec, s: Disk)
    requires Strong(c, s) && s.pc.Writing? && s.pc.phase.JournalSync?
    ensures Strong(c, GoStep(c, s))
  {
    GoJournalSync(c, s);
    CalmSynced(c, s, GoStep(c, s));
  }

  lemma CalmSnapshotTmp(c: FileCodec, s: Disk, g: nat, bytes: seq<byte>, s': Disk)
    requires Calm(c, s) && s'.storage == s.storage && s'.chain == s.chain
    requires s'.state == s.state.Write(s.state.Visible().(tmps := s.state.Visible().tmps[g := bytes]))
    ensures Calm(c, s') && (NoneAbove(s) ==> NoneAbove(s')) && (Settled(s) ==> Settled(s'))
  {
    StateTmp(s.state, s.state.Visible().(tmps := s.state.Visible().tmps[g := bytes]));
    CalmShrinks(c, s, s');
  }

  lemma StrongSnapshotTmp(c: FileCodec, s: Disk)
    requires Strong(c, s) && s.pc.Writing? && s.pc.phase.SnapshotTmp?
    ensures Strong(c, GoStep(c, s))
  {
    GoSnapshotTmp(c, s);
    CalmSnapshotTmp(c, s, s.pc.plan.generation, s.pc.plan.framed, GoStep(c, s));
  }

  /** The snapshot put in place is the one that every journal announces. */
  lemma CalmStaged(c: FileCodec, s: Disk, p: Plan, u: Shots)
    requires Calm(c, s) && PlanFits(c, p) && Staging(c, s, p) && At(u.snapshots, p.generation) == Some(p.framed)
    requires c.decodeJournal(c.encodeJournal(PlanJournal(c, p))) == Success(PlanJournal(c, p))
    ensures Calm(c, s.(state := s.state.Write(u)))
  {
    SnapshotWritten(s.state, u, p.generation);
    forall j, m | j in Journals(s.storage) && m in Metas(s.storage)
      ensures Announced(c, s.state.Write(u), j, m)
    {
      assert Announced(c, s.state, j, m) && Generation(c, m) + 1 == p.generation;
    }
  }

  lemma StrongSnapshotRename(c: FileCodec, s: Disk)
    requires RoundTrips(c) && Strong(c, s) && s.pc.Writing? && s.pc.phase.SnapshotRename?
    ensures Strong(c, GoStep(c, s))
  {
    GoSnapshotRename(c, s);
    var u, p := s.state.Visible(), s.pc.plan;
    var u' := Shots(u.snapshots[p.generation := u.tmps[p.generation]], u.tmps - {p.generation});
    assert c.decodeJournal(c.encodeJournal(PlanJournal(c, p))) == Success(PlanJournal(c, p));
    CalmStaged(c, s, p, u');
    SameCalm(c, s.(state := s.state.Write(u')), GoStep(c, s));
  }

  lemma StrongSnapshotSync(c: FileCodec, s: Disk)
    requires Strong(c, s) && s.pc.Writing? && s.pc.phase.SnapshotSync?
    ensures Strong(c, GoStep(c, s))
  {
    GoSnapshotSync(c, s);
    StateSyncNoMore(s);
    CalmShrinks(c, s, GoStep(c, s));
    StateSynced(s.state);
  }

  lemma StrongMetaTmp(c: FileCodec, s: Disk)
    requires Strong(c, s) && s.pc.Writing? && s.pc.phase.MetaTmp?
    ensures Strong(c, GoStep(c, s))
  {
    GoMetaTmp(c, s);
    CalmTmp(c, s, s.storage.Visible().(metaTmp := Some(c.encodeMeta(PlanMeta(c, s.pc.plan)))), GoStep(c, s));
  }

  /** The new meta file has nothing above it, and its own journal. */
  lemma CalmMeta(c: FileCodec, s: Disk, p: Plan, t: Files, s': Disk)
    requires Calm(c, s) && PlanFits(c, p) && Staging(c, s, p) && Numbered(s.state, p.generation)
    requires t.journal in Journals(s.storage) && Generation(c, t.meta) == p.generation
    requires c.decodeJournal(c.encodeJournal(PlanJournal(c, p))) == Success(PlanJournal(c, p))
    requires s'.storage == s.storage.Write(t) && s'.state == s.state
    ensures Calm(c, s')
  {
    StorageWritten(s.storage, t);
    forall j, m | j in Journals(s'.storage) && m in Metas(s'.storage)
      ensures Announced(c, s.state, j, m) && !Announces(c, j, m, 2)
    {
      assert j in Journals(s.storage);
      assert m in Metas(s.storage) || Generation(c, m) == p.generation;
    }
  }

  lemma StrongMetaRename(c: FileCodec, s: Disk)
    requires RoundTrips(c) && Strong(c, s) && s.pc.Writing? && s.pc.phase.MetaRename?
    ensures Strong(c, GoStep(c, s))
  {
    GoMetaRename(c, s);
    var t, p := s.storage.Visible(), s.pc.plan;
    ChainGrows(c, s, p);
    StorageVisible(s.storage);
    assert c.decodeMeta(c.encodeMeta(PlanMeta(c, p))) == Success(PlanMeta(c, p));
    assert c.decodeJournal(c.encodeJournal(PlanJournal(c, p))) == Success(PlanJournal(c, p));
    CalmMeta(c, s, p, t.(meta := t.metaTmp, metaTmp := None), GoStep(c, s));
  }

  /** From the meta rename on, nothing is above the chain. */
  lemma NewestTwoNoneAbove(s: Disk, p: Plan)
    requires NewestTwo(s, p) && p.generation == |s.chain|
    ensures NoneAbove(s)
  {
  }

  lemma StrongMetaSync(c: FileCodec, s: Disk)
    requires Strong(c, s) && s.pc.Writing? && s.pc.phase.MetaSync?
    ensures Strong(c, GoStep(c, s))
  {
    GoMetaSync(c, s);
    CalmSynced(c, s, GoStep(c, s));
  }

  lemma StrongJournalDrop(c: FileCodec, s: Disk)
    requires Strong(c, s) && s.pc.Writing? && s.pc.phase.JournalDrop?
    ensures Strong(c, GoStep(c, s))
  {
    GoJournalDrop(c, s);
    NewestTwoNoneAbove(s, s.pc.plan);
    CalmWithoutJournal(c, s);
    SameCalm(c, s.(storage := WithoutJournal(s.storage)), GoStep(c, s));
  }

  lemma StrongJournalDropSync(c: FileCodec, s: Disk)
    requires Strong(c, s) && s.pc.Writing? && s.pc.phase.JournalDropSync?
    ensures Strong(c, GoStep(c, s))
  {
    GoJournalDropSync(c, s);
    CalmSynced(c, s, GoStep(c, s));
  }

  lemma StrongPruneSync(c: FileCodec, s: Disk)
    requires Strong(c, s) && s.pc.Writing? && s.pc.phase.PruneSync?
    ensures Strong(c, GoStep(c, s))
  {
    GoPruneSync(c, s);
    StateSyncNoMore(s);
    CalmShrinks(c, s, GoStep(c, s));
    NewestTwoNoneAbove(GoStep(c, s), s.pc.plan);
  }

  lemma StrongPrune(c: FileCodec, s: Disk)
    requires Strong(c, s) && s.pc.Writing? && s.pc.phase.Prune?
    ensures Strong(c, GoStep(c, s))
  {
    SameFiles(c, s, GoStep(c, s));
    SameCalm(c, s, GoStep(c, s));
  }

  lemma StrongGo(c: FileCodec, s: Disk)
    requires RoundTrips(c) && Strong(c, s) && !s.pc.Idle?
    ensures Strong(c, GoStep(c, s))
  {
    match s.pc
    case Recover(_) => StrongRecover(c, s);
    case RemoveStaged(_, _) => StrongRemoveStaged(c, s);
    case SyncStaged(_) => StrongSyncStaged(c, s);
    case RemoveJournal(_) => StrongRemoveJournal(c, s);
    case SyncJournal(_) => StrongSyncJournal(c, s);
    case Recovered(_) => StrongRecovered(c, s);
    case Writing(phase, plan) =>
      match phase
      case JournalTmp => StrongJournalTmp(c, s);
      case JournalRename => StrongJournalRename(c, s);
      case JournalSync => StrongJournalSync(c, s);
      case SnapshotTmp => StrongSnapshotTmp(c, s);
      case SnapshotRename => StrongSnapshotRename(c, s);
      case SnapshotSync => StrongSnapshotSync(c, s);
      case MetaTmp => StrongMetaTmp(c, s);
      case MetaRename => StrongMetaRename(c, s);
      case MetaSync => StrongMetaSync(c, s);
      case JournalDrop => StrongJournalDrop(c, s);
      case JournalDropSync => StrongJournalDropSync(c, s);
      case Prune => StrongPrune(c, s);
      case PruneSync => StrongPruneSync(c, s);
  }

  // ---------------------------------------------------------- the other events

  lemma PublishedSettles(c: FileCodec, s: Disk, p: Plan)
    requires Published(c, s, p)
    ensures NoneAbove(s) && MetaEverywhere(c, s.storage, |s.chain|)
  {
  }

  lemma StrongDrop(c: FileCodec, s: Disk, k: nat)
    requires Strong(c, s) && Step(c, s, Drop(k)).Success?
    ensures Strong(c, Step(c, s, Drop(k)).value)
  {
    DropKeepsInv(c, s, k);
    DropStep(c, s, k);
    DropKeeps(c, s, s.pc.plan, k);
    PublishedSettles(c, WithoutSnapshot(s, k), s.pc.plan);
    CalmWithout(c, s, k);
    SameCalm(c, WithoutSnapshot(s, k), Step(c, s, Drop(k)).value);
  }

  lemma StrongTorn(c: FileCodec, s: Disk, bytes: seq<byte>)
    requires Strong(c, s) && Step(c, s, Torn(bytes)).Success?
    ensures Strong(c, Step(c, s, Torn(bytes)).value)
  {
    TornKeepsInv(c, s, bytes);
    TornCalm(c, s, bytes);
  }

  lemma TornCalm(c: FileCodec, s: Disk, bytes: seq<byte>)
    requires Calm(c, s) && StagingOk(s) && OneMeta(c, s) && TornStep(s, bytes).Success?
    ensures var s' := TornStep(s, bytes).value; Calm(c, s') && StagingOk(s') && OneMeta(c, s')
  {
    var s' := TornStep(s, bytes).value;
    match s.pc.phase
    case JournalTmp => CalmTmp(c, s, s.storage.Visible().(journalTmp := Some(bytes)), s');
    case MetaTmp => CalmTmp(c, s, s.storage.Visible().(metaTmp := Some(bytes)), s');
    case SnapshotTmp => CalmSnapshotTmp(c, s, s.pc.plan.generation, bytes, s');
  }

  lemma CrashNoMore(s: Disk, files: Files, shots: Shots, survivors: seq<Entry>)
    requires MayFiles(s.storage, files) && MayShots(s.state, shots)
    ensures NoMore(s, Restarted(files, shots, survivors))
  {
    var s' := Restarted(files, shots, survivors);
    assert Journals(s'.storage) == {files.journal} && Metas(s'.storage) == {files.meta};
    forall k: nat ensures Snapshots(s'.state, k) <= Snapshots(s.state, k) {
      assert Snapshots(s'.state, k) == {At(shots.snapshots, k)};
    }
  }

  lemma StrongCrash(c: FileCodec, s: Disk, files: Files, shots: Shots)
    requires Strong(c, s) && MayFiles(s.storage, files) && MayShots(s.state, shots)
    ensures Strong(c, Step(c, s, Crash(files, shots)).value)
  {
    CrashKeepsInv(c, s, files, shots);
    var s' := Step(c, s, Crash(files, shots)).value;
    CrashNoMore(s, files, shots, s'.chain);
    CalmShrinks(c, s, s');
    CrashSettles(c, s');
  }

  /** After a crash every name is on disk as it is seen. */
  lemma CrashSettles(c: FileCodec, s: Disk)
    requires FilesOk(c, s) && s.storage.later == [] && s.state.later == []
    ensures Settled(s) && MetaEverywhere(c, s.storage, |s.chain|)
  {
    StorageSynced(s.storage);
    StateSynced(s.state);
  }

  lemma StepKeepsStrong(c: FileCodec, s: Disk, e: Event)
    requires RoundTrips(c) && Strong(c, s) && Benign(s, e) && Step(c, s, e).Success?
    ensures Strong(c, Step(c, s, e).value)
  {
    match e
    case Go => StrongGo(c, s);
    case Drop(k) => StrongDrop(c, s, k);
    case Torn(bytes) => StrongTorn(c, s, bytes);
    case Crash(files, shots) => StrongCrash(c, s, files, shots);
    case _ =>
      StepKeepsInv(c, s, e);
      SameCalm(c, s, Step(c, s, e).value);
  }

  // ----------------------------------------------------------------- all runs

  /** The machine in which no operation is cut before one of those two syncs. */
  ghost function BenignMachine(c: FileCodec): (Disk, Event) -> Result<Disk> {
    (s: Disk, e: Event) => if Benign(s, e) then Step(c, s, e) else Failure
  }

  lemma EmptyStrong(c: FileCodec)
    ensures Strong(c, Empty)
  {
    EmptyOk(c);
    CrashSettles(c, Empty);
    CalmBelow(c, Empty);
  }

  lemma BenignRunsKeepStrong(c: FileCodec, events: seq<Event>)
    requires RoundTrips(c) && Run(BenignMachine(c), Empty, events).Success?
    ensures Strong(c, Run(BenignMachine(c), Empty, events).value)
  {
    var inv := (s: Disk) => Strong(c, s);
    forall s, e | inv(s) && BenignMachine(c)(s, e).Success? ensures inv(BenignMachine(c)(s, e).value) {
      StepKeepsStrong(c, s, e);
    }
    EmptyStrong(c);
    RunInvariant(BenignMachine(c), inv, Empty, events);
  }

  lemma StrongNotStale(c: FileCodec, s: Disk)
    requires Strong(c, s)
    ensures !Stale(c, s) && !Ahead(c, s)
    ensures s.storage.Visible().journal.None? ==> |s.chain| + 1 !in s.state.Visible().snapshots
  {
    StorageVisible(s.storage);
    StateVisible(s.state);
    var t, u, g := s.storage.Visible(), s.state.Visible(), |s.chain|;
    assert Announced(c, s.state, t.journal, t.meta);
    assert At(u.snapshots, g + 1) in Snapshots(s.state, g + 1);
  }

  lemma StrongGoTimes(c: FileCodec, s: Disk, n: nat)
    requires RoundTrips(c) && Strong(c, s)
    ensures Strong(c, GoTimes(c, s, n))
  {
    var inv := (x: Disk) => Strong(c, x);
    forall x | inv(x) ensures inv(GoStep(c, x)) {
      if !x.pc.Idle? { StrongGo(c, x); }
    }
    GoTimesInvariant(c, inv, s, n);
  }

  /**
   In every run in which those two syncs never fail and the process is never killed
   before one of them, whatever else fails, is killed or crashes, the next undisturbed
   load succeeds, returns the last entry of the chain, and
   leaves no journal and no snapshot above it.
   */
  lemma LoadAlwaysSucceeds(c: FileCodec, events: seq<Event>, n: nat)
    requires RoundTrips(c) && Run(BenignMachine(c), Empty, events).Success?
    requires Run(BenignMachine(c), Empty, events).value.pc.Idle? && n >= 6
    ensures var s := Run(BenignMachine(c), Empty, events).value;
            var s' := AfterLoad(c, s, n);
            LoadDone(s, s') && forall k: nat :: k in s'.state.Visible().snapshots ==> 1 <= k <= |s.chain|
  {
    BenignRunsKeepStrong(c, events);
    StrongLoad(c, Run(BenignMachine(c), Empty, events).value, n);
  }

  lemma StrongLoad(c: FileCodec, s: Disk, n: nat)
    requires RoundTrips(c) && Strong(c, s) && s.pc.Idle? && n >= 6
    ensures LoadDone(s, AfterLoad(c, s, n))
    ensures forall k: nat :: k in AfterLoad(c, s, n).state.Visible().snapshots ==> 1 <= k <= |s.chain|
  {
    StrongNotStale(c, s);
    LoadSucceedsIff(c, s, n);
    StrongBegins(c, s);
    StrongGoTimes(c, s.(pc := Recover(Load)), n);
    StrongNumbered(c, AfterLoad(c, s, n));
  }

  lemma StrongBegins(c: FileCodec, s: Disk)
    requires Strong(c, s) && s.pc.Idle?
    ensures Strong(c, s.(pc := Recover(Load)))
  {
    SameFiles(c, s, s.(pc := Recover(Load)));
    SameCalm(c, s, s.(pc := Recover(Load)));
  }

  lemma StrongNumbered(c: FileCodec, s: Disk)
    requires Strong(c, s) && s.storage.Visible().journal.None?
    ensures forall k: nat :: k in s.state.Visible().snapshots ==> 1 <= k <= |s.chain|
  {
    StrongNotStale(c, s);
    VisibleOk(c, s);
  }
}
