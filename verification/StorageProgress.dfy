/**
 What the snapshot store does when nothing disturbs it
 (crates/mutiny-node/src/storage.rs): from every state in which a load succeeds, a commit
 succeeds too; and what recovery and loading verify on any files at all.
 */
module StorageProgress {
  import opened Bytes
  import opened Wrappers
  import opened Runs
  import opened Storage
  import opened StorageProofs

  // -------------------------------------------------------------- corruption

  /** A snapshot file is there, has the hash the meta file names, and frames this payload. */
  predicate Verified(c: FileCodec, u: Shots, m: Meta, payload: seq<byte>) {
    && m.generation in u.snapshots && c.hash(u.snapshots[m.generation]) == m.snapshotHash
    && c.unframe(u.snapshots[m.generation], m.generation) == Success(payload)
  }

  /** Whatever is on disk, loading returns an entry only when meta and snapshot agree on it. */
  lemma ReadBackIff(c: FileCodec, t: Files, u: Shots, entry: Option<Entry>)
    ensures ReadBack(c, t, u) == Success(entry) <==>
            if entry.None? then t.meta.None?
            else
              && t.meta.Some? && c.decodeMeta(t.meta.value).Success?
              && c.decodeMeta(t.meta.value).value.identity == entry.value.identity
              && Verified(c, u, c.decodeMeta(t.meta.value).value, entry.value.payload)
  {
  }

  /** The meta file decodes to this, or there is none. */
  predicate MetaIs(c: FileCodec, t: Files, meta: Option<Meta>) {
    if t.meta.None? then meta.None? else meta.Some? && c.decodeMeta(t.meta.value) == Success(meta.value)
  }

  /** The commit of this journal is complete: the meta file names its generation and hash, and verifies. */
  ghost predicate Complete(c: FileCodec, u: Shots, j: Journal, m: Meta) {
    m.generation == j.generation && m.snapshotHash == j.snapshotHash && exists payload :: Verified(c, u, m, payload)
  }

  /** The commit of this journal did not get to its meta file. */
  predicate Open(j: Journal, meta: Option<Meta>) {
    if meta.Some? then meta.value.generation == j.previous && meta.value.generation != j.generation else j.previous == 0
  }

  /** Nothing is left of this journal's commit but the journal. */
  ghost predicate Settled(c: FileCodec, u: Shots, j: Journal, meta: Option<Meta>) {
    || (meta.Some? && Complete(c, u, j, meta.value))
    || (Open(j, meta) && j.generation !in u.snapshots)
  }

  /** The open commit of this journal left the snapshot it announces. */
  predicate Staged(c: FileCodec, u: Shots, j: Journal, meta: Option<Meta>, g: nat) {
    Open(j, meta) && g == j.generation && g in u.snapshots && c.hash(u.snapshots[g]) == j.snapshotHash
  }

  /**
   Whatever is on disk, recovery goes on without a journal; drops the journal of a complete
   commit, or of an open one without a snapshot; removes the staged snapshot of an open
   commit when it has the announced hash; and refuses everything else.
   */
  lemma RecoveryIff(c: FileCodec, t: Files, u: Shots, task: Task)
    ensures Decide(c, t, u, task) == Success(Recovered(task)) <==> t.journal.None?
    ensures Decide(c, t, u, task) == Success(RemoveJournal(task)) <==>
            && t.journal.Some? && c.decodeJournal(t.journal.value).Success?
            && exists meta :: MetaIs(c, t, meta) && Settled(c, u, c.decodeJournal(t.journal.value).value, meta)
    ensures forall g :: Decide(c, t, u, task) == Success(RemoveStaged(task, g)) <==>
            && t.journal.Some? && c.decodeJournal(t.journal.value).Success?
            && exists meta :: MetaIs(c, t, meta) && Staged(c, u, c.decodeJournal(t.journal.value).value, meta, g)
    ensures Decide(c, t, u, task).Success? ==>
              var pc := Decide(c, t, u, task).value; pc.Recovered? || pc.RemoveJournal? || pc.RemoveStaged?
  {
    if ReadMeta(c, t).Success? {
      var meta := ReadMeta(c, t).value;
      assert MetaIs(c, t, meta);
      assert forall m :: MetaIs(c, t, m) ==> m == meta;
      if meta.Some? && VerifySnapshot(c, u, meta.value).Success? {
        assert Verified(c, u, meta.value, VerifySnapshot(c, u, meta.value).value);
      }
    }
  }

  // ------------------------------------------------------------- undisturbed

  /** The machine in which every call succeeds. */
  ghost function CalmMachine(c: FileCodec): (Disk, Event) -> Result<Disk> {
    (s: Disk, e: Event) => if e.Go? || e.Drop? then Step(c, s, e) else Failure
  }

  predicate BeforeRename(phase: Phase) {
    || phase.JournalTmp? || phase.JournalRename? || phase.JournalSync?
    || phase.SnapshotTmp? || phase.SnapshotRename? || phase.SnapshotSync? || phase.MetaTmp? || phase.MetaRename?
  }

  /** The commit of `entry` on top of `chain` is under way, or done. */
  ghost predicate Tracks(c: FileCodec, chain: seq<Entry>, entry: Entry, s: Disk) {
    match s.pc
    case Idle => s.outcome == Committed(|chain| + 1) && s.chain == chain + [entry]
    case Recover(task) => task == Commit(entry) && s.chain == chain && !Stale(c, s) && !Ahead(c, s)
    case Writing(phase, p) =>
      p.entry == entry && p.generation == |chain| + 1
      && s.chain == if BeforeRename(phase) then chain else chain + [entry]
    case pc => pc.task == Commit(entry) && s.chain == chain
  }

  ghost predicate OnTrack(c: FileCodec, chain: seq<Entry>, entry: Entry, s: Disk) {
    Inv(c, s) && Tracks(c, chain, entry, s)
  }

  lemma RecoverOnTrack(c: FileCodec, chain: seq<Entry>, entry: Entry, s: Disk)
    requires RoundTrips(c) && OnTrack(c, chain, entry, s) && s.pc.Recover?
    ensures OnTrack(c, chain, entry, GoStep(c, s))
    ensures GoStep(c, s).pc.RemoveStaged? || GoStep(c, s).pc.RemoveJournal? || GoStep(c, s).pc.Recovered?
  {
    GoRecover(c, s);
    RecoverTracks(c, chain, entry, s);
  }

  lemma RecoverTracks(c: FileCodec, chain: seq<Entry>, entry: Entry, s: Disk)
    requires RoundTrips(c) && FilesOk(c, s) && Tracks(c, chain, entry, s) && s.pc.Recover?
    ensures Tracks(c, chain, entry, GoStep(c, s))
    ensures GoStep(c, s).pc.RemoveStaged? || GoStep(c, s).pc.RemoveJournal? || GoStep(c, s).pc.Recovered?
  {
    VisibleOk(c, s);
    if Finished(c, s.storage.Visible().journal, s.storage.Visible().meta) {
      var e := s.chain[|s.chain| - 1];
      assert c.unframe(c.frame(|s.chain|, e.payload), |s.chain|) == Success(e.payload);
    }
  }

  lemma PlanOnTrack(c: FileCodec, chain: seq<Entry>, entry: Entry, s: Disk)
    requires RoundTrips(c) && OnTrack(c, chain, entry, s) && s.pc.Recovered? && |chain| + 1 < GENERATION_LIMIT
    ensures OnTrack(c, chain, entry, GoStep(c, s)) && GoStep(c, s).pc.Writing? && GoStep(c, s).pc.phase.JournalTmp?
  {
    GoKeepsInv(c, s);
    PlanTracks(c, chain, entry, s);
  }

  lemma PlanTracks(c: FileCodec, chain: seq<Entry>, entry: Entry, s: Disk)
    requires FilesOk(c, s) && Tracks(c, chain, entry, s) && s.pc.Recovered? && |chain| + 1 < GENERATION_LIMIT
    ensures Tracks(c, chain, entry, GoStep(c, s)) && GoStep(c, s).pc.Writing? && GoStep(c, s).pc.phase.JournalTmp?
  {
    VisibleOk(c, s);
    PlanFor(c, s.storage.Visible(), entry);
  }

  lemma PlanFor(c: FileCodec, t: Files, entry: Entry)
    requires t.meta.Some? ==> c.decodeMeta(t.meta.value).Success?
    requires Generation(c, t.meta) + 1 < GENERATION_LIMIT
    ensures MakePlan(c, t, entry).Success?
    ensures MakePlan(c, t, entry).value.entry == entry
    ensures MakePlan(c, t, entry).value.generation == Generation(c, t.meta) + 1
  {
  }

  function NextPhase(phase: Phase): Phase {
    match phase
    case JournalTmp => JournalRename
    case JournalRename => JournalSync
    case JournalSync => SnapshotTmp
    case SnapshotTmp => SnapshotRename
    case SnapshotRename => SnapshotSync
    case SnapshotSync => MetaTmp
    case MetaTmp => MetaRename
    case MetaRename => MetaSync
    case MetaSync => JournalDrop
    case JournalDrop => JournalDropSync
    case _ => Prune
  }

  lemma WriteOnTrack(c: FileCodec, chain: seq<Entry>, entry: Entry, s: Disk)
    requires RoundTrips(c) && OnTrack(c, chain, entry, s) && s.pc.Writing? && !s.pc.phase.Prune?
    ensures OnTrack(c, chain, entry, GoStep(c, s)) && GoStep(c, s).pc == Writing(NextPhase(s.pc.phase), s.pc.plan)
  {
    GoKeepsInv(c, s);
    TmpIsThere(c, s);
    WriteTracks(c, chain, entry, s);
  }

  lemma WriteTracks(c: FileCodec, chain: seq<Entry>, entry: Entry, s: Disk)
    requires CanWrite(s) && Tracks(c, chain, entry, s)
    ensures Tracks(c, chain, entry, GoStep(c, s)) && GoStep(c, s).pc == Writing(NextPhase(s.pc.phase), s.pc.plan)
  {
    WriteMoves(c, s);
  }

  /** A commit can go on: its temporary snapshot is there when it is to be renamed. */
  predicate CanWrite(s: Disk) {
    && s.pc.Writing? && !s.pc.phase.Prune? && s.pc.plan.generation >= 1
    && (s.pc.phase.SnapshotRename? ==> s.pc.plan.generation in s.state.Visible().tmps)
  }

  lemma TmpIsThere(c: FileCodec, s: Disk)
    requires PcOk(c, s) && s.pc.Writing? && !s.pc.phase.Prune?
    ensures CanWrite(s)
  {
  }

  lemma WriteMoves(c: FileCodec, s: Disk)
    requires CanWrite(s)
    ensures var s' := GoStep(c, s);
            && s'.pc == Writing(NextPhase(s.pc.phase), s.pc.plan)
            && s'.chain == if s.pc.phase.MetaRename? then s.chain + [s.pc.plan.entry] else s.chain
  {
  }

  lemma WriteSnapshots(c: FileCodec, s: Disk)
    requires CanWrite(s)
    ensures var u, p := s.state.Visible(), s.pc.plan;
            GoStep(c, s).state.Visible().snapshots ==
            if s.pc.phase.SnapshotRename? then u.snapshots[p.generation := u.tmps[p.generation]] else u.snapshots
  {
  }

  lemma GoOnTrack(c: FileCodec, chain: seq<Entry>, entry: Entry, s: Disk)
    requires RoundTrips(c) && OnTrack(c, chain, entry, s) && |chain| + 1 < GENERATION_LIMIT && !s.pc.Idle?
    ensures OnTrack(c, chain, entry, GoStep(c, s))
  {
    match s.pc
    case Recover(_) => RecoverOnTrack(c, chain, entry, s);
    case Recovered(_) => PlanOnTrack(c, chain, entry, s);
    case Writing(phase, p) =>
      if phase.Prune? {
        GoKeepsInv(c, s);
        PruneGo(c, s);
      } else {
        WriteOnTrack(c, chain, entry, s);
      }
    case _ => GoKeepsInv(c, s);
  }

  lemma PruneGo(c: FileCodec, s: Disk)
    requires s.pc.Writing? && s.pc.phase.Prune? && s.pc.plan.generation >= 1
    ensures GoStep(c, s) == s || GoStep(c, s) == End(s, Committed(s.pc.plan.generation))
  {
  }

  lemma DropOnTrack(c: FileCodec, chain: seq<Entry>, entry: Entry, s: Disk, k: nat)
    requires RoundTrips(c) && OnTrack(c, chain, entry, s) && Step(c, s, Drop(k)).Success?
    ensures OnTrack(c, chain, entry, Step(c, s, Drop(k)).value)
  {
    DropStep(c, s, k);
    DropKeepsInv(c, s, k);
  }

  /** Where a commit starts. */
  function Begun(s: Disk, entry: Entry): Disk {
    s.(pc := Recover(Commit(entry)))
  }

  lemma BegunOnTrack(c: FileCodec, s: Disk, entry: Entry)
    requires Inv(c, s) && s.pc.Idle? && !Stale(c, s) && !Ahead(c, s) && EntryFits(entry)
    ensures Step(c, s, BeginCommit(entry)) == Success(Begun(s, entry)) && OnTrack(c, s.chain, entry, Begun(s, entry))
  {
    SameFiles(c, s, Begun(s, entry));
  }

  lemma StepOnTrack(c: FileCodec, chain: seq<Entry>, entry: Entry, s: Disk, e: Event)
    requires RoundTrips(c) && OnTrack(c, chain, entry, s) && |chain| + 1 < GENERATION_LIMIT
    requires CalmMachine(c)(s, e).Success?
    ensures OnTrack(c, chain, entry, CalmMachine(c)(s, e).value)
  {
    if e.Go? {
      GoOnTrack(c, chain, entry, s);
    } else {
      DropOnTrack(c, chain, entry, s, e.generation);
    }
  }

  /**
   However an undisturbed commit goes, when it has returned it has committed: the entry is
   the last of the chain, under the next generation.
   */
  lemma CommitOnlySucceeds(c: FileCodec, s: Disk, entry: Entry, events: seq<Event>)
    requires RoundTrips(c) && Inv(c, s) && s.pc.Idle? && !Stale(c, s) && !Ahead(c, s)
    requires EntryFits(entry) && |s.chain| + 1 < GENERATION_LIMIT
    requires Run(CalmMachine(c), Begun(s, entry), events).Success?
    ensures var t := Run(CalmMachine(c), Begun(s, entry), events).value;
            t.pc.Idle? ==> t.outcome == Committed(|s.chain| + 1) && t.chain == s.chain + [entry]
  {
    BegunOnTrack(c, s, entry);
    StaysOnTrack(c, s.chain, entry, Begun(s, entry), events);
  }

  lemma StaysOnTrack(c: FileCodec, chain: seq<Entry>, entry: Entry, s: Disk, events: seq<Event>)
    requires RoundTrips(c) && OnTrack(c, chain, entry, s) && |chain| + 1 < GENERATION_LIMIT
    ensures Run(CalmMachine(c), s, events).Success? ==>
              OnTrack(c, chain, entry, Run(CalmMachine(c), s, events).value)
  {
    var step, inv := CalmMachine(c), (x: Disk) => OnTrack(c, chain, entry, x);
    forall x, e | inv(x) && step(x, e).Success? ensures inv(step(x, e).value) {
      StepOnTrack(c, chain, entry, x, e);
    }
    RunInvariant(step, inv, s, events);
  }

  // -------------------------------------------------------------- and it ends

  function PhaseRank(phase: Phase): nat {
    match phase
    case JournalTmp => 11
    case JournalRename => 10
    case JournalSync => 9
    case SnapshotTmp => 8
    case SnapshotRename => 7
    case SnapshotSync => 6
    case MetaTmp => 5
    case MetaRename => 4
    case MetaSync => 3
    case JournalDrop => 2
    case JournalDropSync => 1
    case _ => 0
  }

  function PcRank(pc: Pc): nat {
    match pc
    case Idle => 0
    case Recover(_) => 17
    case RemoveStaged(_, _) => 16
    case SyncStaged(_) => 15
    case RemoveJournal(_) => 14
    case SyncJournal(_) => 13
    case Recovered(_) => 12
    case Writing(phase, _) => PhaseRank(phase)
  }

  /** What is left to do: the phases, and a snapshot less with every round of pruning. */
  function Left(s: Disk): nat {
    if s.pc.Idle? then 0
    else 1 + 2 * |s.state.Visible().snapshots| + 4 * PcRank(s.pc)
         + if s.pc.Writing? && s.pc.phase.PruneSync? then 1 else 0
  }

  lemma SnapshotCounts(snapshots: map<nat, seq<byte>>, k: nat, bytes: seq<byte>)
    ensures |snapshots - {k}| <= |snapshots| && |snapshots[k := bytes]| <= |snapshots| + 1
    ensures k in snapshots ==> |snapshots - {k}| < |snapshots|
  {
    assert (snapshots - {k}).Keys == snapshots.Keys - {k};
    assert snapshots[k := bytes].Keys == snapshots.Keys + {k};
    assert |snapshots.Keys + {k}| <= |snapshots.Keys| + 1;
    assert k in snapshots.Keys ==> |snapshots.Keys - {k}| < |snapshots.Keys|;
  }

  lemma WriteLess(c: FileCodec, s: Disk)
    requires CanWrite(s)
    ensures Left(GoStep(c, s)) < Left(s)
  {
    WriteMoves(c, s);
    WriteSnapshots(c, s);
    var u, p := s.state.Visible(), s.pc.plan;
    if s.pc.phase.SnapshotRename? {
      SnapshotCounts(u.snapshots, p.generation, u.tmps[p.generation]);
    }
    RankDrops(s.pc.phase);
  }

  lemma RankDrops(phase: Phase)
    ensures phase.Prune? || phase.PruneSync? || PhaseRank(NextPhase(phase)) < PhaseRank(phase)
  {
  }

  lemma RecoveryMoves(c: FileCodec, s: Disk)
    requires s.pc.RemoveStaged? || s.pc.SyncStaged? || s.pc.RemoveJournal? || s.pc.SyncJournal?
    ensures PcRank(GoStep(c, s).pc) + 1 == PcRank(s.pc) && !GoStep(c, s).pc.Writing?
    ensures var u := s.state.Visible().snapshots;
            GoStep(c, s).state.Visible().snapshots == if s.pc.RemoveStaged? then u - {s.pc.generation} else u
  {
  }

  lemma RecoveryLess(c: FileCodec, s: Disk)
    requires s.pc.RemoveStaged? || s.pc.SyncStaged? || s.pc.RemoveJournal? || s.pc.SyncJournal?
    ensures Left(GoStep(c, s)) < Left(s)
  {
    RecoveryMoves(c, s);
    if s.pc.RemoveStaged? {
      SnapshotCounts(s.state.Visible().snapshots, s.pc.generation, []);
    }
  }

  lemma RecoverLess(c: FileCodec, chain: seq<Entry>, entry: Entry, s: Disk)
    requires RoundTrips(c) && OnTrack(c, chain, entry, s) && s.pc.Recover?
    ensures Left(GoStep(c, s)) < Left(s)
  {
    RecoverTracks(c, chain, entry, s);
    assert GoStep(c, s).state == s.state;
  }

  lemma PlanLess(c: FileCodec, chain: seq<Entry>, entry: Entry, s: Disk)
    requires RoundTrips(c) && OnTrack(c, chain, entry, s) && s.pc.Recovered? && |chain| + 1 < GENERATION_LIMIT
    ensures Left(GoStep(c, s)) < Left(s)
  {
    PlanTracks(c, chain, entry, s);
    assert GoStep(c, s).state == s.state;
  }

  /** The next step of a commit that is not done. */
  lemma NextEvent(c: FileCodec, chain: seq<Entry>, entry: Entry, s: Disk) returns (e: Event)
    requires RoundTrips(c) && OnTrack(c, chain, entry, s) && |chain| + 1 < GENERATION_LIMIT && !s.pc.Idle?
    ensures CalmMachine(c)(s, e).Success? && Left(CalmMachine(c)(s, e).value) < Left(s)
  {
    e := Go;
    match s.pc
    case Recover(_) => RecoverLess(c, chain, entry, s);
    case Recovered(_) => PlanLess(c, chain, entry, s);
    case Writing(phase, p) =>
      if phase.Prune? {
        e := PruneEvent(c, s);
      } else {
        TmpIsThere(c, s);
        WriteLess(c, s);
      }
    case _ => RecoveryLess(c, s);
  }

  lemma PruneEvent(c: FileCodec, s: Disk) returns (e: Event)
    requires s.pc.Writing? && s.pc.phase.Prune? && s.pc.plan.generation >= 1
    ensures CalmMachine(c)(s, e).Success? && Left(CalmMachine(c)(s, e).value) < Left(s)
  {
    var u, g := s.state.Visible(), s.pc.plan.generation;
    if k :| Doomed(u.snapshots, g, k) {
      e := Drop(k);
      DropLess(c, s, k);
    } else {
      e := Go;
    }
  }

  lemma DropLess(c: FileCodec, s: Disk, k: nat)
    requires s.pc.Writing? && s.pc.phase.Prune? && Doomed(s.state.Visible().snapshots, s.pc.plan.generation, k)
    ensures Step(c, s, Drop(k)).Success? && Left(Step(c, s, Drop(k)).value) < Left(s)
  {
    DropStep(c, s, k);
    SnapshotCounts(s.state.Visible().snapshots, k, []);
  }

  /** From every state in which a load succeeds, some undisturbed run commits the entry. */
  lemma CommitSucceeds(c: FileCodec, s: Disk, entry: Entry) returns (t: Disk)
    requires RoundTrips(c) && Inv(c, s) && s.pc.Idle? && !Stale(c, s) && !Ahead(c, s)
    requires EntryFits(entry) && |s.chain| + 1 < GENERATION_LIMIT
    ensures Step(c, s, BeginCommit(entry)) == Success(Begun(s, entry)) && Ends(CalmMachine(c), Begun(s, entry), t)
    ensures t.pc.Idle? && t.outcome == Committed(|s.chain| + 1) && t.chain == s.chain + [entry]
  {
    BegunOnTrack(c, s, entry);
    t := RunsToCommit(c, s.chain, entry, Begun(s, entry));
  }

  lemma RunsToCommit(c: FileCodec, chain: seq<Entry>, entry: Entry, s: Disk) returns (t: Disk)
    requires RoundTrips(c) && OnTrack(c, chain, entry, s) && |chain| + 1 < GENERATION_LIMIT
    ensures Ends(CalmMachine(c), s, t) && OnTrack(c, chain, entry, t) && t.pc.Idle?
  {
    var step, inv := CalmMachine(c), (x: Disk) => OnTrack(c, chain, entry, x);
    var done, rank := (x: Disk) => x.pc.Idle?, (x: Disk) => Left(x);
    forall x | inv(x) && !done(x) ensures exists e :: Advances(step, inv, rank, x, e) {
      var e := NextEvent(c, chain, entry, x);
      StepOnTrack(c, chain, entry, x, e);
      assert Advances(step, inv, rank, x, e);
    }
    t := RunToEnd(step, inv, done, rank, s);
  }
}
