/**
 The anti-equivocation signer (crates/mutiny-node/src/mining_signer.rs).

 Before a block candidate is signed, an authorization record named after its
 scope is made durable: written to a pending file, synced, hard-linked to its
 final name, the directory synced, the pending name removed, the directory synced
 again. The directory is kept as what programs see, what is on disk, and the
 files whose content is not on disk yet. A crash keeps, for every name on its own,
 either the visible or the durable entry, with any content if it was not synced.
 */
module Signer {
  import opened Arithmetic
  import opened Bytes
  import opened Wrappers
  import opened Runs

  /** What the signer needs of its formats; the real ones are in `SignerFormat`. */
  datatype Format = Format(
    scope: (seq<byte>, seq<byte>) -> seq<byte>,
    record: (seq<byte>, nat, seq<byte>) -> seq<byte>,
    validate: (seq<byte>, seq<byte>) -> Result<seq<byte>>)

  datatype Name = Authority | Authorization(scope: seq<byte>)

  datatype File = Final(name: Name) | Pending(name: Name)

  type Dir = map<File, seq<byte>>

  /** An authorization: the core may be signed under this binding at this height. */
  datatype Grant = Grant(binding: seq<byte>, height: nat, core: seq<byte>)

  /** What the commit in progress is for. */
  datatype Purpose = Opening(binding: seq<byte>) | Authorizing(grant: Grant)

  datatype Stage = Create | Write | SyncFile | Link | SyncLink | RemovePending | SyncRemove

  datatype Pc =
    | Idle
    | Checking(binding: seq<byte>)
    | Committing(stage: Stage, name: Name, bytes: seq<byte>, purpose: Purpose)
    | RetrySync(name: Name, retried: Grant)

  /** A live `MiningSigner`; `failed` is set by a durability error and never cleared. */
  datatype Live = Live(binding: seq<byte>, failed: bool)

  /** `granted` are authorized candidates whose signature may still be emitted, `signed` those emitted so far. */
  datatype System = System(visible: Dir, durable: Dir, dirty: set<File>, live: Option<Live>, pc: Pc,
                           granted: set<Grant>, signed: seq<Grant>)

  datatype Event =
    | Open(binding: seq<byte>, initialize: bool)
    | Close                       // also, after `Fail`, the end of a killed process
    | Authorize(height: nat, core: seq<byte>)
    | Go                          // the next call of the running operation succeeds
    | Fail                        // it fails
    | Torn(bytes: seq<byte>)      // writing the pending file fails half-way
    | Sign(grant: Grant)
    | Crash(left: Dir)

  const Start := System(map[], map[], {}, None, Idle, {}, [])

  /** The scan of `MiningSigner::open`: the authority matches and nothing but valid records is there. */
  ghost predicate Opens(f: Format, dir: Dir, binding: seq<byte>) {
    && Final(Authority) in dir && dir[Final(Authority)] == binding
    && forall file :: file in dir && file != Final(Authority) ==>
         && file.Final? && file.name.Authorization?
         && f.validate(dir[file], binding) == Success(file.name.scope)
  }

  /** The name of every file may keep its visible or its durable entry; synced content is intact. */
  ghost predicate MayBeLeft(s: System, left: Dir) {
    && (forall file :: file in left ==>
          || (file in s.visible && (file in s.dirty || left[file] == s.visible[file]))
          || (file in s.durable && (file in s.dirty || left[file] == s.durable[file])))
    && forall file :: file in s.visible && file in s.durable ==> file in left
  }

  function Abort(s: System): System {
    match s.pc
    case Committing(_, _, _, Opening(_)) => s.(pc := Idle, live := None)
    case Checking(_) => s.(pc := Idle, live := None)
    case _ => s.(pc := Idle, live := if s.live.Some? then Some(s.live.value.(failed := true)) else None)
  }

  /** The stages of `commit` and `durable_publish`. */
  function CommitStep(s: System, stage: Stage, name: Name, bytes: seq<byte>, purpose: Purpose): System {
    match stage
    case Create =>
      if Pending(name) in s.visible then Abort(s)
      else s.(visible := s.visible[Pending(name) := []], dirty := s.dirty + {Pending(name)},
              pc := Committing(Write, name, bytes, purpose))
    case Write =>
      s.(visible := s.visible[Pending(name) := bytes], dirty := s.dirty + {Pending(name)},
         pc := Committing(SyncFile, name, bytes, purpose))
    case SyncFile => s.(dirty := s.dirty - {Pending(name)}, pc := Committing(Link, name, bytes, purpose))
    case Link =>
      if Final(name) in s.visible || Pending(name) !in s.visible then Abort(s)
      else s.(visible := s.visible[Final(name) := s.visible[Pending(name)]],
              dirty := if Pending(name) in s.dirty then s.dirty + {Final(name)} else s.dirty - {Final(name)},
              pc := Committing(SyncLink, name, bytes, purpose))
    case SyncLink => s.(durable := s.visible, pc := Committing(RemovePending, name, bytes, purpose))
    case RemovePending =>
      s.(visible := s.visible - {Pending(name)}, pc := Committing(SyncRemove, name, bytes, purpose))
    case SyncRemove =>
      var s' := s.(durable := s.visible);
      match purpose
      case Opening(binding) => s'.(pc := Checking(binding))
      case Authorizing(grant) => s'.(pc := Idle, granted := s.granted + {grant})
  }

  ghost function GoStep(f: Format, s: System): System {
    match s.pc
    case Idle => s
    case Checking(binding) =>
      if Opens(f, s.visible, binding) then s.(pc := Idle, live := Some(Live(binding, false))) else Abort(s)
    case Committing(stage, name, bytes, purpose) => CommitStep(s, stage, name, bytes, purpose)
    case RetrySync(name, grant) =>
      s.(dirty := s.dirty - {Final(name)}, pc := Idle, granted := s.granted + {grant})
  }

  /** `authorize` up to its first change. */
  function AuthorizeStep(f: Format, s: System, height: nat, core: seq<byte>): System
    requires s.live.Some?
  {
    var live := s.live.value;
    var grant := Grant(live.binding, height, core);
    var expected := f.record(live.binding, height, core);
    var name := Authorization(f.scope(live.binding, core));
    if live.failed then s
    else if Final(name) in s.visible then
      if f.validate(s.visible[Final(name)], live.binding).Failure? || s.visible[Final(name)] != expected then s
      else s.(pc := RetrySync(name, grant))
    else s.(pc := Committing(Create, name, expected, Authorizing(grant)))
  }

  const CORE_LEN := 208
  const BINDING_LEN := 108

  ghost function Step(f: Format, s: System, e: Event): (r: Result<System>) {
    match e
    case Open(binding, initialize) =>
      if !s.pc.Idle? || s.live.Some? || |binding| != BINDING_LEN then Failure
      else if !initialize then Success(s.(pc := Checking(binding)))
      else if s.visible != map[] then Success(s)
      else Success(s.(pc := Committing(Create, Authority, binding, Opening(binding))))
    case Close => if s.pc.Idle? then Success(s.(live := None, granted := {})) else Failure
    case Authorize(height, core) =>
      if !s.pc.Idle? || s.live.None? || |core| != CORE_LEN || height >= U64 then Failure
      else Success(AuthorizeStep(f, s, height, core))
    case Go => if s.pc.Idle? then Failure else Success(GoStep(f, s))
    case Fail => if s.pc.Idle? then Failure else Success(Abort(s))
    case Torn(bytes) =>
      if s.pc.Committing? && s.pc.stage.Write? then
        Success(Abort(s.(visible := s.visible[Pending(s.pc.name) := bytes], dirty := s.dirty + {Pending(s.pc.name)})))
      else Failure
    case Sign(grant) => if grant in s.granted then Success(s.(signed := s.signed + [grant])) else Failure
    case Crash(left) =>
      if MayBeLeft(s, left) then Success(System(left, left, {}, None, Idle, {}, s.signed)) else Failure
  }

  // -------------------------------------------------------------- invariants

  /** This file is on disk as it is seen. */
  ghost predicate OnDisk(s: System, file: File) {
    file in s.visible && file in s.durable && s.durable[file] == s.visible[file] && file !in s.dirty
  }

  /** Every final name without its pending name is on disk. */
  ghost predicate Published(s: System) {
    forall name :: Final(name) in s.visible && Pending(name) !in s.visible ==> OnDisk(s, Final(name))
  }

  /** The record and the authority behind a grant are on disk. */
  ghost predicate Backed(f: Format, s: System, g: Grant) {
    var file := Final(Authorization(f.scope(g.binding, g.core)));
    && |g.core| == CORE_LEN && |g.binding| == BINDING_LEN && g.height < U64
    && OnDisk(s, file) && s.visible[file] == f.record(g.binding, g.height, g.core)
    && OnDisk(s, Final(Authority)) && s.visible[Final(Authority)] == g.binding
  }

  ghost predicate NoPending(s: System) {
    forall name :: Pending(name) !in s.visible
  }

  ghost predicate OnlyPending(s: System, name: Name) {
    forall n :: Pending(n) in s.visible ==> n == name
  }

  ghost predicate LiveOk(s: System) {
    s.live.Some? ==>
      && |s.live.value.binding| == BINDING_LEN
      && OnDisk(s, Final(Authority)) && s.visible[Final(Authority)] == s.live.value.binding
      && (s.pc.Idle? && !s.live.value.failed ==> NoPending(s))
  }

  ghost predicate PurposeOk(f: Format, s: System, name: Name, bytes: seq<byte>, purpose: Purpose) {
    match purpose
    case Opening(binding) =>
      name == Authority && bytes == binding && s.live.None? && s.granted == {} && |binding| == BINDING_LEN
    case Authorizing(g) =>
      && s.live.Some? && !s.live.value.failed && s.live.value.binding == g.binding
      && |g.core| == CORE_LEN && g.height < U64
      && name == Authorization(f.scope(g.binding, g.core)) && bytes == f.record(g.binding, g.height, g.core)
  }

  ghost predicate PcOk(f: Format, s: System) {
    match s.pc
    case Idle => true
    case Checking(binding) => s.live.None? && s.granted == {} && |binding| == BINDING_LEN
    case RetrySync(name, g) =>
      && PurposeOk(f, s, name, f.record(g.binding, g.height, g.core), Authorizing(g))
      && OnDisk(s, Final(name)) && s.visible[Final(name)] == f.record(g.binding, g.height, g.core)
      && NoPending(s)
    case Committing(stage, name, bytes, purpose) =>
      && PurposeOk(f, s, name, bytes, purpose) && OnlyPending(s, name)
      && match stage
         case Create => NoPending(s)
         case Write => Pending(name) in s.visible
         case SyncFile => Pending(name) in s.visible && s.visible[Pending(name)] == bytes
         case Link =>
           Pending(name) in s.visible && s.visible[Pending(name)] == bytes && Pending(name) !in s.dirty
         case SyncLink =>
           && Pending(name) in s.visible && Final(name) in s.visible && s.visible[Final(name)] == bytes
           && Final(name) !in s.dirty
         case RemovePending => OnDisk(s, Final(name)) && s.visible[Final(name)] == bytes
         case SyncRemove => OnDisk(s, Final(name)) && s.visible[Final(name)] == bytes && NoPending(s)
  }

  ghost predicate Inv(f: Format, s: System) {
    && Published(s) && LiveOk(s) && PcOk(f, s)
    && (forall g :: g in s.granted ==> Backed(f, s, g))
    && (forall g :: g in s.signed ==> Backed(f, s, g))
    && (s.live.None? && s.pc.Idle? ==> s.granted == {})
  }

  // -------------------------------------------------------------- every step

  /** Files on disk stay on disk through this change. */
  ghost predicate KeepsFiles(s: System, s': System) {
    forall file :: OnDisk(s, file) && file.Final? ==> OnDisk(s', file) && s'.visible[file] == s.visible[file]
  }

  lemma BackedKept(f: Format, s: System, s': System, g: Grant)
    requires Backed(f, s, g) && KeepsFiles(s, s')
    ensures Backed(f, s', g)
  {
  }

  lemma CommitStepKeeps(f: Format, s: System)
    requires Inv(f, s) && s.pc.Committing?
    ensures KeepsFiles(s, GoStep(f, s))
  {
  }

  lemma PendingSteps(f: Format, s: System)
    requires Inv(f, s) && s.pc.Committing? && (s.pc.stage.Create? || s.pc.stage.Write? || s.pc.stage.SyncFile?)
    ensures var s' := GoStep(f, s); Published(s') && LiveOk(s') && PcOk(f, s')
  {
  }

  lemma LinkSteps(f: Format, s: System)
    requires Inv(f, s) && s.pc.Committing? && (s.pc.stage.Link? || s.pc.stage.SyncLink?)
    ensures var s' := GoStep(f, s); Published(s') && LiveOk(s') && PcOk(f, s')
  {
  }

  lemma RemoveSteps(f: Format, s: System)
    requires Inv(f, s) && s.pc.Committing? && (s.pc.stage.RemovePending? || s.pc.stage.SyncRemove?)
    ensures var s' := GoStep(f, s); Published(s') && LiveOk(s') && PcOk(f, s')
  {
  }

  lemma CommitKeepsInv(f: Format, s: System)
    requires Inv(f, s) && s.pc.Committing?
    ensures Inv(f, GoStep(f, s))
  {
    var s' := GoStep(f, s);
    CommitStepKeeps(f, s);
    match s.pc.stage {
      case Create => PendingSteps(f, s);
      case Write => PendingSteps(f, s);
      case SyncFile => PendingSteps(f, s);
      case Link => LinkSteps(f, s);
      case SyncLink => LinkSteps(f, s);
      case RemovePending => RemoveSteps(f, s);
      case SyncRemove => RemoveSteps(f, s);
    }
    forall g | g in s.granted || g in s.signed ensures Backed(f, s', g) {
      BackedKept(f, s, s', g);
    }
  }

  lemma GoKeepsInv(f: Format, s: System)
    requires Inv(f, s) && !s.pc.Idle?
    ensures Inv(f, GoStep(f, s))
  {
    if s.pc.Committing? {
      CommitKeepsInv(f, s);
    } else {
      var s' := GoStep(f, s);
      assert KeepsFiles(s, s');
      forall g | g in s.granted || g in s.signed ensures Backed(f, s', g) {
        BackedKept(f, s, s', g);
      }
    }
  }

  lemma AuthorizeKeepsInv(f: Format, s: System, height: nat, core: seq<byte>)
    requires Inv(f, s) && Step(f, s, Authorize(height, core)).Success?
    ensures Inv(f, Step(f, s, Authorize(height, core)).value)
  {
    var s' := Step(f, s, Authorize(height, core)).value;
    forall g | g in s.granted || g in s.signed ensures Backed(f, s', g) {
      BackedKept(f, s, s', g);
    }
  }

  lemma CrashKeepsInv(f: Format, s: System, left: Dir)
    requires Inv(f, s) && MayBeLeft(s, left)
    ensures Inv(f, Step(f, s, Crash(left)).value)
  {
    var s' := Step(f, s, Crash(left)).value;
    assert KeepsFiles(s, s');
    forall g | g in s.signed ensures Backed(f, s', g) {
      BackedKept(f, s, s', g);
    }
  }

  lemma AbortKeepsInv(f: Format, s: System)
    requires Inv(f, s) && !s.pc.Idle?
    ensures Inv(f, Abort(s))
  {
    var s' := Abort(s);
    assert KeepsFiles(s, s');
    forall g | g in s.granted || g in s.signed ensures Backed(f, s', g) {
      BackedKept(f, s, s', g);
    }
  }

  lemma TornKeepsInv(f: Format, s: System, bytes: seq<byte>)
    requires Inv(f, s) && s.pc.Committing? && s.pc.stage.Write?
    ensures Inv(f, Step(f, s, Torn(bytes)).value)
  {
    var s' := s.(visible := s.visible[Pending(s.pc.name) := bytes], dirty := s.dirty + {Pending(s.pc.name)});
    assert KeepsFiles(s, s');
    forall g | g in s.granted || g in s.signed ensures Backed(f, s', g) {
      BackedKept(f, s, s', g);
    }
    AbortKeepsInv(f, s');
  }

  lemma StepKeepsInv(f: Format, s: System, e: Event)
    requires Inv(f, s) && Step(f, s, e).Success?
    ensures Inv(f, Step(f, s, e).value)
  {
    var s' := Step(f, s, e).value;
    match e
    case Open(_, _) =>
      assert KeepsFiles(s, s');
      forall g | g in s.signed ensures Backed(f, s', g) { BackedKept(f, s, s', g); }
    case Close =>
      assert KeepsFiles(s, s');
      forall g | g in s.signed ensures Backed(f, s', g) { BackedKept(f, s, s', g); }
    case Authorize(height, core) => AuthorizeKeepsInv(f, s, height, core);
    case Go => GoKeepsInv(f, s);
    case Fail => AbortKeepsInv(f, s);
    case Torn(bytes) => TornKeepsInv(f, s, bytes);
    case Sign(grant) =>
      assert KeepsFiles(s, s');
      forall g | g in s.granted || g in s.signed ensures Backed(f, s', g) { BackedKept(f, s, s', g); }
    case Crash(left) => CrashKeepsInv(f, s, left);
  }

  // ---------------------------------------------------------------- all runs

  ghost function Machine(f: Format): (System, Event) -> Result<System> {
    (s: System, e: Event) => Step(f, s, e)
  }

  lemma RunsKeepInv(f: Format, events: seq<Event>)
    requires Run(Machine(f), Start, events).Success?
    ensures Inv(f, Run(Machine(f), Start, events).value)
  {
    var inv := (s: System) => Inv(f, s);
    forall s, e | inv(s) && Machine(f)(s, e).Success? ensures inv(Machine(f)(s, e).value) {
      StepKeepsInv(f, s, e);
    }
    RunInvariant(Machine(f), inv, Start, events);
  }

  /** Every file of a store that opens is already on disk. */
  lemma OpenedStoreIsDurable(f: Format, events: seq<Event>, binding: seq<byte>, file: File)
    requires Run(Machine(f), Start, events).Success?
    requires Opens(f, Run(Machine(f), Start, events).value.visible, binding)
    requires file in Run(Machine(f), Start, events).value.visible
    ensures OnDisk(Run(Machine(f), Start, events).value, file)
  {
    RunsKeepInv(f, events);
    var s := Run(Machine(f), Start, events).value;
    assert file == Final(file.name);
    assert Pending(file.name) !in s.visible;
  }

  /** A record determines the core it authorizes. */
  ghost predicate RecordsDetermine(f: Format) {
    forall a: Grant, b: Grant ::
      && |a.core| == |b.core| == CORE_LEN && |a.binding| == |b.binding| == BINDING_LEN
      && f.record(a.binding, a.height, a.core) == f.record(b.binding, b.height, b.core)
      ==> a.core == b.core
  }

  /**
   In every run of opens, authorizations, faults, crashes and reopens, all emitted
   signatures are under one binding, and two with the same scope are over the
   identical core.
   */
  lemma SameScopeSameCore(f: Format, events: seq<Event>, i: nat, j: nat)
    requires RecordsDetermine(f) && Run(Machine(f), Start, events).Success?
    requires i < |Run(Machine(f), Start, events).value.signed| && j < |Run(Machine(f), Start, events).value.signed|
    ensures var signed := Run(Machine(f), Start, events).value.signed;
            && signed[i].binding == signed[j].binding && |signed[i].core| == |signed[j].core| == CORE_LEN
            && (f.scope(signed[i].binding, signed[i].core) == f.scope(signed[j].binding, signed[j].core)
                ==> signed[i].core == signed[j].core)
  {
    RunsKeepInv(f, events);
    var s := Run(Machine(f), Start, events).value;
    assert s.signed[i] in s.signed && s.signed[j] in s.signed;
    assert Backed(f, s, s.signed[i]) && Backed(f, s, s.signed[j]);
  }
}
