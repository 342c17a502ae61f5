/**
 The runs in which recovery is stuck (crates/mutiny-node/src/storage.rs:366-414).

 Each of the two directory syncs of `StorageRecovery` is shown to matter: runs that
 are never cut before the other one reach states in which no load succeeds any more.
 A cut is a call that fails or a process that is killed; one kind of cut is enough, so
 there are such runs in which no call ever fails.
 */
module StorageFailures {
  import opened Bytes
  import opened Wrappers
  import opened Runs
  import opened Storage
  import opened StorageProofs
  import opened StorageRecovery

  /** How operations are cut, and the sync before which none is. */
  datatype Faults = Faults(cut: Event, spared: Sync)

  predicate Allows(f: Faults, s: Disk, e: Event) {
    !e.Torn? && (Cuts(e) ==> e == f.cut && !NextIs(s, f.spared))
  }

  /** What an operation that is cut returns. */
  function CutOutcome(f: Faults): Outcome {
    if f.cut.Fail? then Error else Nothing
  }

  ghost function FaultyMachine(c: FileCodec, f: Faults): (Disk, Event) -> Result<Disk> {
    (s: Disk, e: Event) => if Allows(f, s, e) then Step(c, s, e) else Failure
  }

  /** Some run with no other faults than these and crashes leads from `s` to `s'`. */
  ghost predicate Reaches(c: FileCodec, f: Faults, s: Disk, s': Disk) {
    exists events: seq<Event> :: Run(FaultyMachine(c, f), s, events) == Success(s')
  }

  /** Every undisturbed load fails. */
  ghost predicate Stuck(c: FileCodec, s: Disk) {
    s.pc.Idle? && forall n: nat :: n >= 6 ==> AfterLoad(c, s, n) == End(s, Error)
  }

  lemma ReachedOk(c: FileCodec, f: Faults, s: Disk)
    requires RoundTrips(c) && Reaches(c, f, Empty, s)
    ensures Inv(c, s)
  {
    var machine, inv := FaultyMachine(c, f), (x: Disk) => Inv(c, x);
    var events :| Run(machine, Empty, events) == Success(s);
    forall x, e | inv(x) && machine(x, e).Success? ensures inv(machine(x, e).value) {
      StepKeepsInv(c, x, e);
    }
    EmptyOk(c);
    RunInvariant(machine, inv, Empty, events);
  }

  lemma ReachedStuck(c: FileCodec, f: Faults, s: Disk)
    requires RoundTrips(c) && Reaches(c, f, Empty, s) && s.pc.Idle? && (Stale(c, s) || Ahead(c, s))
    ensures Stuck(c, s)
  {
    ReachedOk(c, f, s);
    forall n: nat | n >= 6 ensures AfterLoad(c, s, n) == End(s, Error) {
      LoadSucceedsIff(c, s, n);
    }
  }

  lemma ReachesStep(c: FileCodec, f: Faults, s: Disk, e: Event, s': Disk)
    requires Allows(f, s, e) && Step(c, s, e) == Success(s')
    ensures Reaches(c, f, s, s')
  {
    assert [e][..0] == [];
    assert Run(FaultyMachine(c, f), s, [e]) == FaultyMachine(c, f)(s, e);
  }

  lemma ReachesTrans(c: FileCodec, f: Faults, a: Disk, b: Disk, d: Disk)
    requires Reaches(c, f, a, b) && Reaches(c, f, b, d)
    ensures Reaches(c, f, a, d)
  {
    var x :| Run(FaultyMachine(c, f), a, x) == Success(b);
    var y :| Run(FaultyMachine(c, f), b, y) == Success(d);
    RunSplits(FaultyMachine(c, f), a, x, y);
  }

  lemma ReachesGo(c: FileCodec, f: Faults, a: Disk, b: Disk, d: Disk)
    requires Reaches(c, f, a, b) && !b.pc.Idle? && GoStep(c, b) == d
    ensures Reaches(c, f, a, d)
  {
    ReachesStep(c, f, b, Go, d);
    ReachesTrans(c, f, a, b, d);
  }

  const NoFiles := Files(None, None, None, None)

  function AnnouncingFirst(c: FileCodec, e: Entry): Files {
    Files(Some(c.encodeJournal(Journal(1, 0, c.hash(c.frame(1, e.payload))))), None, None, None)
  }

  function FirstPlan(c: FileCodec, e: Entry): Plan {
    Plan(e, 1, c.frame(1, e.payload))
  }

  /** A store without commits, at rest. */
  ghost function AtRest(files: Files, shots: Shots, pc: Pc, outcome: Outcome): Disk {
    Disk(Dir(files, []), Dir(shots, []), pc, outcome, [], 0)
  }

  /** A first commit gets as far as its journal. */
  lemma JournalReached(c: FileCodec, f: Faults, e: Entry, shots: Shots, outcome: Outcome)
    requires EntryFits(e)
    ensures Reaches(c, f, AtRest(NoFiles, shots, Idle, outcome),
                    AtRest(AnnouncingFirst(c, e), shots, Writing(SnapshotTmp, FirstPlan(c, e)), outcome))
  {
    var a := AtRest(NoFiles, shots, Idle, outcome);
    var s1 := a.(pc := Recover(Commit(e)));
    ReachesStep(c, f, a, BeginCommit(e), s1);
    var s2 := a.(pc := Recovered(Commit(e)));
    ReachesGo(c, f, a, s1, s2);
    var s3 := a.(pc := Writing(JournalTmp, FirstPlan(c, e)));
    ReachesGo(c, f, a, s2, s3);
    var journal := AnnouncingFirst(c, e).journal;
    var s4 := a.(storage := a.storage.Write(NoFiles.(journalTmp := journal)),
                 pc := Writing(JournalRename, FirstPlan(c, e)));
    ReachesGo(c, f, a, s3, s4);
    var s5 := s4.(storage := s4.storage.Write(AnnouncingFirst(c, e)), pc := Writing(JournalSync, FirstPlan(c, e)));
    ReachesGo(c, f, a, s4, s5);
    ReachesGo(c, f, a, s5, AtRest(AnnouncingFirst(c, e), shots, Writing(SnapshotTmp, FirstPlan(c, e)), outcome));
  }

  /** From there, its snapshot is put on disk. */
  lemma SnapshotReached(c: FileCodec, f: Faults, e: Entry, outcome: Outcome)
    ensures Reaches(c, f,
                    AtRest(AnnouncingFirst(c, e), Shots(map[], map[]), Writing(SnapshotTmp, FirstPlan(c, e)), outcome),
                    AtRest(AnnouncingFirst(c, e), Shots(map[1 := c.frame(1, e.payload)], map[]),
                           Writing(MetaTmp, FirstPlan(c, e)), outcome))
  {
    var p := FirstPlan(c, e);
    var a := AtRest(AnnouncingFirst(c, e), Shots(map[], map[]), Writing(SnapshotTmp, p), outcome);
    var s1 := a.(state := a.state.Write(Shots(map[], map[1 := p.framed])), pc := Writing(SnapshotRename, p));
    ReachesStep(c, f, a, Go, s1);
    assert map[1 := p.framed] - {1} == map[];
    var s2 := s1.(state := s1.state.Write(Shots(map[1 := p.framed], map[])), pc := Writing(SnapshotSync, p));
    ReachesGo(c, f, a, s1, s2);
    var staged := Shots(map[1 := p.framed], map[]);
    ReachesGo(c, f, a, s2, AtRest(AnnouncingFirst(c, e), staged, Writing(MetaTmp, p), outcome));
  }

  /** Recovery removes the staged snapshot and is cut before the sync that should follow. */
  lemma RemovalNotSynced(c: FileCodec, f: Faults, e: Entry)
    requires Cuts(f.cut) && f.spared == AfterRename
    requires RoundTrips(c)
    ensures var shots := Shots(map[1 := c.frame(1, e.payload)], map[]);
            Reaches(c, f, AtRest(AnnouncingFirst(c, e), shots, Idle, CutOutcome(f)),
                    AtRest(AnnouncingFirst(c, e), shots, Idle, CutOutcome(f))
                    .(state := Dir(shots, [Shots(map[], map[])])))
  {
    var shots := Shots(map[1 := c.frame(1, e.payload)], map[]);
    var a := AtRest(AnnouncingFirst(c, e), shots, Idle, CutOutcome(f));
    var j := Journal(1, 0, c.hash(c.frame(1, e.payload)));
    assert c.decodeJournal(c.encodeJournal(j)) == Success(j);
    var s1 := a.(pc := Recover(Load));
    ReachesStep(c, f, a, BeginLoad, s1);
    var s2 := a.(pc := RemoveStaged(Load, 1));
    ReachesGo(c, f, a, s1, s2);
    assert shots.snapshots - {1} == map[];
    var s3 := a.(state := Dir(shots, [Shots(map[], map[])]), pc := SyncStaged(Load));
    ReachesGo(c, f, a, s2, s3);
    ReachesStep(c, f, s3, f.cut, s3.(pc := Idle, outcome := CutOutcome(f)));
    ReachesTrans(c, f, a, s3, s3.(pc := Idle, outcome := CutOutcome(f)));
  }

  /** The retry does not see the file any more: it drops the journal and finishes. */
  lemma RetryDropsJournal(c: FileCodec, f: Faults, e: Entry)
    requires Cuts(f.cut) && f.spared == AfterRename
    requires RoundTrips(c)
    ensures var state := Dir(Shots(map[1 := c.frame(1, e.payload)], map[]), [Shots(map[], map[])]);
            Reaches(c, f, AtRest(AnnouncingFirst(c, e), Shots(map[], map[]), Idle, CutOutcome(f)).(state := state),
                    AtRest(NoFiles, Shots(map[], map[]), Idle, Loaded(None)).(state := state))
  {
    var state := Dir(Shots(map[1 := c.frame(1, e.payload)], map[]), [Shots(map[], map[])]);
    var a := AtRest(AnnouncingFirst(c, e), Shots(map[], map[]), Idle, CutOutcome(f)).(state := state);
    var j := Journal(1, 0, c.hash(c.frame(1, e.payload)));
    assert c.decodeJournal(c.encodeJournal(j)) == Success(j);
    var s1 := a.(pc := Recover(Load));
    ReachesStep(c, f, a, BeginLoad, s1);
    var s2 := a.(pc := RemoveJournal(Load));
    ReachesGo(c, f, a, s1, s2);
    var s3 := a.(storage := a.storage.Write(NoFiles), pc := SyncJournal(Load));
    ReachesGo(c, f, a, s2, s3);
    var s4 := a.(storage := Dir(NoFiles, []), pc := Recovered(Load));
    ReachesGo(c, f, a, s3, s4);
    ReachesGo(c, f, a, s4, s4.(pc := Idle, outcome := Loaded(None)));
  }

  ghost function Staged(c: FileCodec, e: Entry): Shots {
    Shots(map[1 := c.frame(1, e.payload)], map[])
  }

  /** A first attempt, its interrupted rollback and the retry leave a removal that is not on disk. */
  lemma UnsyncedRemovalReachable(c: FileCodec, f: Faults, e: Entry)
    requires Cuts(f.cut) && f.spared == AfterRename
    requires RoundTrips(c) && EntryFits(e)
    ensures Reaches(c, f, Empty, AtRest(NoFiles, Shots(map[], map[]), Idle, Loaded(None))
                              .(state := Dir(Staged(c, e), [Shots(map[], map[])])))
  {
    var none, staged := Shots(map[], map[]), Staged(c, e);
    AttemptCut(c, f, e);
    var a2 := AtRest(AnnouncingFirst(c, e), staged, Idle, CutOutcome(f));
    RemovalNotSynced(c, f, e);
    var a3 := a2.(state := Dir(staged, [none]));
    ReachesTrans(c, f, Empty, a2, a3);
    RetryDropsJournal(c, f, e);
    ReachesTrans(c, f, Empty, a3, AtRest(NoFiles, none, Idle, Loaded(None)).(state := Dir(staged, [none])));
  }

  /** The first commit gets its snapshot on disk. */
  lemma StagedReached(c: FileCodec, f: Faults, e: Entry)
    requires EntryFits(e)
    ensures Reaches(c, f, Empty,
                    AtRest(AnnouncingFirst(c, e), Staged(c, e), Writing(MetaTmp, FirstPlan(c, e)), Nothing))
  {
    JournalReached(c, f, e, Shots(map[], map[]), Nothing);
    SnapshotReached(c, f, e, Nothing);
    var a0 := AtRest(AnnouncingFirst(c, e), Shots(map[], map[]), Writing(SnapshotTmp, FirstPlan(c, e)), Nothing);
    var a1 := AtRest(AnnouncingFirst(c, e), Staged(c, e), Writing(MetaTmp, FirstPlan(c, e)), Nothing);
    ReachesTrans(c, f, Empty, a0, a1);
  }

  /** The first commit, cut there. */
  lemma AttemptCut(c: FileCodec, f: Faults, e: Entry)
    requires Cuts(f.cut)
    requires EntryFits(e)
    ensures Reaches(c, f, Empty, AtRest(AnnouncingFirst(c, e), Staged(c, e), Idle, CutOutcome(f)))
  {
    StagedReached(c, f, e);
    var a1 := AtRest(AnnouncingFirst(c, e), Staged(c, e), Writing(MetaTmp, FirstPlan(c, e)), Nothing);
    ReachesStep(c, f, a1, f.cut, AtRest(AnnouncingFirst(c, e), Staged(c, e), Idle, CutOutcome(f)));
    ReachesTrans(c, f, Empty, a1, AtRest(AnnouncingFirst(c, e), Staged(c, e), Idle, CutOutcome(f)));
  }

  /** After the crash, the next attempt announces its own snapshot beside the old file. */
  lemma NextAttemptCut(c: FileCodec, f: Faults, e1: Entry, e2: Entry)
    requires Cuts(f.cut)
    requires EntryFits(e2)
    ensures Reaches(c, f, AtRest(NoFiles, Staged(c, e1), Idle, Nothing),
                    AtRest(AnnouncingFirst(c, e2), Staged(c, e1), Idle, CutOutcome(f)))
  {
    JournalReached(c, f, e2, Staged(c, e1), Nothing);
    var a0 := AtRest(NoFiles, Staged(c, e1), Idle, Nothing);
    var a1 := AtRest(AnnouncingFirst(c, e2), Staged(c, e1), Writing(SnapshotTmp, FirstPlan(c, e2)), Nothing);
    var a2 := AtRest(AnnouncingFirst(c, e2), Staged(c, e1), Idle, CutOutcome(f));
    ReachesStep(c, f, a1, f.cut, a2);
    ReachesTrans(c, f, a0, a1, a2);
  }

  /**
   The failing run: two entries whose first snapshots hash differently are enough
   to reach a state in which every undisturbed load fails. No operation is cut before the
   sync after the meta rename.
   */
  lemma StaleIsReachable(c: FileCodec, f: Faults, e1: Entry, e2: Entry)
    requires Cuts(f.cut) && f.spared == AfterRename
    requires RoundTrips(c) && EntryFits(e1) && EntryFits(e2)
    requires c.hash(c.frame(1, e1.payload)) != c.hash(c.frame(1, e2.payload))
    ensures exists s :: Reaches(c, f, Empty, s) && Stale(c, s) && Stuck(c, s)
  {
    UnsyncedRemovalReachable(c, f, e1);
    var a4 := AtRest(NoFiles, Shots(map[], map[]), Idle, Loaded(None))
    .(state := Dir(Staged(c, e1), [Shots(map[], map[])]));
    var a5 := AtRest(NoFiles, Staged(c, e1), Idle, Nothing);
    ReachesStep(c, f, a4, Crash(NoFiles, Staged(c, e1)), a5);
    ReachesTrans(c, f, Empty, a4, a5);
    StaleNext(c, f, e1, e2);
  }

  /** A snapshot that no journal announces makes the next cut attempt stale. */
  lemma StaleNext(c: FileCodec, f: Faults, e1: Entry, e2: Entry)
    requires Cuts(f.cut)
    requires RoundTrips(c) && EntryFits(e2) && c.hash(c.frame(1, e1.payload)) != c.hash(c.frame(1, e2.payload))
    requires Reaches(c, f, Empty, AtRest(NoFiles, Staged(c, e1), Idle, Nothing))
    ensures exists s :: Reaches(c, f, Empty, s) && Stale(c, s) && Stuck(c, s)
  {
    NextAttemptCut(c, f, e1, e2);
    var s := AtRest(AnnouncingFirst(c, e2), Staged(c, e1), Idle, CutOutcome(f));
    ReachesTrans(c, f, Empty, AtRest(NoFiles, Staged(c, e1), Idle, Nothing), s);
    AnnouncesAnother(c, CutOutcome(f), e1, e2);
    ReachedStuck(c, f, s);
  }

  lemma AnnouncesAnother(c: FileCodec, outcome: Outcome, e1: Entry, e2: Entry)
    requires RoundTrips(c) && c.hash(c.frame(1, e1.payload)) != c.hash(c.frame(1, e2.payload))
    ensures Stale(c, AtRest(AnnouncingFirst(c, e2), Staged(c, e1), Idle, outcome))
  {
    var j := Journal(1, 0, c.hash(c.frame(1, e2.payload)));
    assert c.decodeJournal(c.encodeJournal(j)) == Success(j);
  }

  /** The meta file of a first commit. */
  function FirstMeta(c: FileCodec, e: Entry): Option<seq<byte>> {
    Some(c.encodeMeta(PlanMeta(c, FirstPlan(c, e))))
  }

  /** `storage/` after the meta rename of a first commit and the removal of its journal, none of it synced. */
  ghost function UnsyncedMeta(c: FileCodec, e: Entry): Dir<Files> {
    var t := AnnouncingFirst(c, e);
    Dir(t, [t.(metaTmp := FirstMeta(c, e)), t.(meta := FirstMeta(c, e)), NoFiles.(meta := FirstMeta(c, e))])
  }

  /** A first commit is cut before the sync after its meta rename. */
  lemma MetaNotSynced(c: FileCodec, f: Faults, e: Entry)
    requires Cuts(f.cut) && f.spared == AfterRemoval
    requires EntryFits(e)
    ensures var t := AnnouncingFirst(c, e);
            Reaches(c, f, Empty, Disk(Dir(t, [t.(metaTmp := FirstMeta(c, e)), t.(meta := FirstMeta(c, e))]),
                                   Dir(Staged(c, e), []), Idle, CutOutcome(f), [e], 0))
  {
    StagedReached(c, f, e);
    var t, p := AnnouncingFirst(c, e), FirstPlan(c, e);
    var a := AtRest(t, Staged(c, e), Writing(MetaTmp, p), Nothing);
    var s1 := a.(storage := Dir(t, [t.(metaTmp := FirstMeta(c, e))]), pc := Writing(MetaRename, p));
    ReachesGo(c, f, Empty, a, s1);
    var s2 := s1.(storage := Dir(t, [t.(metaTmp := FirstMeta(c, e)), t.(meta := FirstMeta(c, e))]),
                  pc := Writing(MetaSync, p), chain := [e]);
    ReachesGo(c, f, Empty, s1, s2);
    ReachesStep(c, f, s2, f.cut, End(s2, CutOutcome(f)));
    ReachesTrans(c, f, Empty, s2, End(s2, CutOutcome(f)));
  }

  /** The retry sees a finished commit and removes its journal. */
  lemma RetryRemovesJournal(c: FileCodec, f: Faults, e: Entry)
    requires Cuts(f.cut) && f.spared == AfterRemoval
    requires RoundTrips(c) && EntryFits(e)
    ensures Reaches(c, f, Empty,
                    Disk(UnsyncedMeta(c, e), Dir(Staged(c, e), []), SyncJournal(Load), CutOutcome(f), [e], 0))
  {
    MetaNotSynced(c, f, e);
    var t, p := AnnouncingFirst(c, e), FirstPlan(c, e);
    var a := Disk(Dir(t, [t.(metaTmp := FirstMeta(c, e)), t.(meta := FirstMeta(c, e))]),
                  Dir(Staged(c, e), []), Idle, CutOutcome(f), [e], 0);
    assert c.decodeJournal(c.encodeJournal(PlanJournal(c, p))) == Success(PlanJournal(c, p));
    assert c.decodeMeta(c.encodeMeta(PlanMeta(c, p))) == Success(PlanMeta(c, p));
    assert c.unframe(c.frame(1, e.payload), 1) == Success(e.payload);
    var s1 := a.(pc := Recover(Load));
    ReachesStep(c, f, a, BeginLoad, s1);
    ReachesTrans(c, f, Empty, a, s1);
    var s2 := a.(pc := RemoveJournal(Load));
    ReachesGo(c, f, Empty, s1, s2);
    ReachesGo(c, f, Empty, s2, a.(storage := UnsyncedMeta(c, e), pc := SyncJournal(Load)));
  }

  /** A crash may keep the removal of the journal and lose the meta rename before it. */
  lemma MetaLost(c: FileCodec, e: Entry)
    ensures MayFiles(UnsyncedMeta(c, e), NoFiles)
  {
    var d := UnsyncedMeta(c, e);
    assert d.later[0] in d.later && d.later[2] in d.later;
    assert d.later[2].journal in Journals(d) && d.durable.meta in Metas(d);
    assert d.durable.journalTmp in JournalTmps(d) && d.durable.metaTmp in MetaTmps(d);
  }

  /** The same end when no operation is cut before the sync after the removal of a staged snapshot. */
  lemma StaleAfterMetaSync(c: FileCodec, f: Faults, e1: Entry, e2: Entry)
    requires Cuts(f.cut) && f.spared == AfterRemoval
    requires RoundTrips(c) && EntryFits(e1) && EntryFits(e2)
    requires c.hash(c.frame(1, e1.payload)) != c.hash(c.frame(1, e2.payload))
    ensures exists s :: Reaches(c, f, Empty, s) && Stale(c, s) && Stuck(c, s)
  {
    RetryRemovesJournal(c, f, e1);
    var a := Disk(UnsyncedMeta(c, e1), Dir(Staged(c, e1), []), SyncJournal(Load), CutOutcome(f), [e1], 0);
    MetaLost(c, e1);
    ReachesStep(c, f, a, Crash(NoFiles, Staged(c, e1)), AtRest(NoFiles, Staged(c, e1), Idle, Nothing));
    ReachesTrans(c, f, Empty, a, AtRest(NoFiles, Staged(c, e1), Idle, Nothing));
    StaleNext(c, f, e1, e2);
  }

  function SecondPlan(c: FileCodec, e: Entry): Plan {
    Plan(e, 2, c.frame(2, e.payload))
  }

  function AnnouncingSecond(c: FileCodec, e: Entry): Files {
    NoFiles.(journal := Some(c.encodeJournal(PlanJournal(c, SecondPlan(c, e)))))
  }

  /** `storage/` when, after all that, a second commit has renamed its journal. */
  ghost function SecondJournal(c: FileCodec, e1: Entry, e2: Entry): Dir<Files> {
    var t, j := NoFiles.(meta := FirstMeta(c, e1)), AnnouncingSecond(c, e2).journal;
    UnsyncedMeta(c, e1).Write(t.(journalTmp := j)).Write(t.(journal := j))
  }

  /** That load is cut before it syncs, and the next commit starts on the meta file it sees. */
  lemma SecondPlanned(c: FileCodec, f: Faults, e1: Entry, e2: Entry)
    requires Cuts(f.cut) && f.spared == AfterRemoval
    requires RoundTrips(c) && EntryFits(e1) && EntryFits(e2)
    ensures Reaches(c, f, Empty, Disk(UnsyncedMeta(c, e1), Dir(Staged(c, e1), []),
                                                 Writing(JournalTmp, SecondPlan(c, e2)), CutOutcome(f), [e1], 0))
  {
    RetryRemovesJournal(c, f, e1);
    var a := Disk(UnsyncedMeta(c, e1), Dir(Staged(c, e1), []), SyncJournal(Load), CutOutcome(f), [e1], 0);
    var m := PlanMeta(c, FirstPlan(c, e1));
    assert c.decodeMeta(c.encodeMeta(m)) == Success(m);
    ReachesStep(c, f, a, f.cut, End(a, CutOutcome(f)));
    ReachesTrans(c, f, Empty, a, End(a, CutOutcome(f)));
    var s1 := a.(pc := Recover(Commit(e2)));
    ReachesStep(c, f, End(a, CutOutcome(f)), BeginCommit(e2), s1);
    ReachesTrans(c, f, Empty, End(a, CutOutcome(f)), s1);
    var s2 := a.(pc := Recovered(Commit(e2)));
    ReachesGo(c, f, Empty, s1, s2);
    ReachesGo(c, f, Empty, s2, a.(pc := Writing(JournalTmp, SecondPlan(c, e2))));
  }

  /** It renames its journal. */
  lemma SecondJournalReached(c: FileCodec, f: Faults, e1: Entry, e2: Entry)
    requires Cuts(f.cut) && f.spared == AfterRemoval
    requires RoundTrips(c) && EntryFits(e1) && EntryFits(e2)
    ensures Reaches(c, f, Empty, Disk(SecondJournal(c, e1, e2), Dir(Staged(c, e1), []),
                                                 Writing(JournalSync, SecondPlan(c, e2)), CutOutcome(f), [e1], 0))
  {
    SecondPlanned(c, f, e1, e2);
    var p := SecondPlan(c, e2);
    var a := Disk(UnsyncedMeta(c, e1), Dir(Staged(c, e1), []), Writing(JournalTmp, p), CutOutcome(f), [e1], 0);
    var t, j := NoFiles.(meta := FirstMeta(c, e1)), AnnouncingSecond(c, e2).journal;
    var s1 := a.(storage := a.storage.Write(t.(journalTmp := j)), pc := Writing(JournalRename, p));
    ReachesGo(c, f, Empty, a, s1);
    ReachesGo(c, f, Empty, s1, a.(storage := SecondJournal(c, e1, e2), pc := Writing(JournalSync, p)));
  }

  /**
   When the meta rename was not synced, a crash may also keep the journal of the next
   commit and lose the meta file it was written for; no load succeeds then.
   */
  lemma AheadIsReachable(c: FileCodec, f: Faults, e1: Entry, e2: Entry)
    requires Cuts(f.cut) && f.spared == AfterRemoval
    requires RoundTrips(c) && EntryFits(e1) && EntryFits(e2)
    ensures exists s :: Reaches(c, f, Empty, s) && Ahead(c, s) && Stuck(c, s)
  {
    SecondJournalReached(c, f, e1, e2);
    var a := Disk(SecondJournal(c, e1, e2), Dir(Staged(c, e1), []),
                  Writing(JournalSync, SecondPlan(c, e2)), CutOutcome(f), [e1], 0);
    var files := AnnouncingSecond(c, e2);
    KeepsSecondJournal(c, e1, e2);
    var s := AtRest(files, Staged(c, e1), Idle, Nothing);
    ReachesStep(c, f, a, Crash(files, Staged(c, e1)), s);
    ReachesTrans(c, f, Empty, a, s);
    AnnouncesTooMuch(c, s, e2);
    ReachedStuck(c, f, s);
  }

  lemma AnnouncesTooMuch(c: FileCodec, s: Disk, e: Entry)
    requires RoundTrips(c) && s.storage == Dir(AnnouncingSecond(c, e), [])
    ensures Ahead(c, s)
  {
    var j := PlanJournal(c, SecondPlan(c, e));
    assert c.decodeJournal(c.encodeJournal(j)) == Success(j);
  }

  lemma KeepsSecondJournal(c: FileCodec, e1: Entry, e2: Entry)
    ensures MayFiles(SecondJournal(c, e1, e2), AnnouncingSecond(c, e2))
  {
    var d := SecondJournal(c, e1, e2);
    assert d.later[4] in d.later;
    assert d.later[4].journal in Journals(d) && d.durable.meta in Metas(d);
    assert d.durable.journalTmp in JournalTmps(d) && d.durable.metaTmp in MetaTmps(d);
  }
}
