/**
 What the signer does when nothing disturbs it (crates/mutiny-node/src/mining_signer.rs):
 it opens every store that is in order, authorizes every candidate whose scope is free or
 holds the very same candidate, refuses every other one, and refuses everything after a
 failed authorization.
 */
module SignerProgress {
  import opened Arithmetic
  import opened Bytes
  import opened Wrappers
  import opened Crypto
  import opened Signer
  import opened SignerFormat

  /** Up to `n` calls succeed, one after the other. */
  ghost function GoTimes(f: Format, s: System, n: nat): System
    decreases n
  {
    if n == 0 || s.pc.Idle? then s else GoTimes(f, GoStep(f, s), n - 1)
  }

  lemma GoOnce(f: Format, s: System, n: nat)
    requires !s.pc.Idle? && n > 0
    ensures GoTimes(f, s, n) == GoTimes(f, GoStep(f, s), n - 1)
  {
  }

  // ------------------------------------------------------------------ scopes

  /** The bytes that a scope is the hash of. */
  function ScopeBytes(binding: seq<byte>, core: seq<byte>): seq<byte>
    requires |core| == CORE_LEN
  {
    ScopeTag + binding + core[6..14] + core[110..208]
  }

  /** Two cores have one scope exactly when they agree in the epoch field and from the target field on. */
  lemma ScopeIff(binding: seq<byte>, a: seq<byte>, b: seq<byte>)
    requires |a| == |b| == CORE_LEN && CollisionFreeOn({ScopeBytes(binding, a), ScopeBytes(binding, b)})
    ensures Scope(binding, a) == Scope(binding, b) <==> a[6..14] == b[6..14] && a[110..208] == b[110..208]
  {
    var x, y, n := ScopeBytes(binding, a), ScopeBytes(binding, b), |ScopeTag| + |binding|;
    assert x[n..n + 8] == a[6..14] && x[n + 8..] == a[110..208];
    assert y[n..n + 8] == b[6..14] && y[n + 8..] == b[110..208];
  }

  // ----------------------------------------------------------- authorizing

  function GrantName(f: Format, g: Grant): Name {
    Authorization(f.scope(g.binding, g.core))
  }

  function GrantRecord(f: Format, g: Grant): seq<byte> {
    f.record(g.binding, g.height, g.core)
  }

  /** The directory with one more file, all of it on disk. */
  function WithFile(s: System, name: Name, bytes: seq<byte>): System {
    s.(visible := s.visible[Final(name) := bytes], durable := s.visible[Final(name) := bytes],
       dirty := s.dirty - {Final(name), Pending(name)})
  }

  /** The seven calls of a commit that nothing disturbs. */
  lemma CommitRuns(f: Format, s: System, name: Name, bytes: seq<byte>, purpose: Purpose, n: nat)
    requires s.pc == Committing(Create, name, bytes, purpose) && n >= 7
    requires Pending(name) !in s.visible && Final(name) !in s.visible
    ensures GoTimes(f, s, n) == GoTimes(f, Ended(WithFile(s, name, bytes), purpose), n - 7)
  {
    var s1 := GoStep(f, s);
    GoOnce(f, s, n);
    var s2 := GoStep(f, s1);
    GoOnce(f, s1, n - 1);
    var s3 := GoStep(f, s2);
    GoOnce(f, s2, n - 2);
    LinkRuns(f, s, s3, name, bytes, purpose, n - 3);
  }

  lemma LinkRuns(f: Format, s: System, s3: System, name: Name, bytes: seq<byte>, purpose: Purpose, n: nat)
    requires Final(name) !in s.visible && Pending(name) !in s.visible && n >= 4
    requires s3 == s.(visible := s.visible[Pending(name) := bytes], dirty := s.dirty - {Pending(name)},
                      pc := Committing(Link, name, bytes, purpose))
    ensures GoTimes(f, s3, n) == GoTimes(f, Ended(WithFile(s, name, bytes), purpose), n - 4)
  {
    var s4 := GoStep(f, s3);
    GoOnce(f, s3, n);
    var s5 := GoStep(f, s4);
    GoOnce(f, s4, n - 1);
    UnlinkRuns(f, s, s5, name, bytes, purpose, n - 2);
  }

  lemma UnlinkRuns(f: Format, s: System, s5: System, name: Name, bytes: seq<byte>, purpose: Purpose, n: nat)
    requires Final(name) !in s.visible && Pending(name) !in s.visible && n >= 2
    requires var files := s.visible[Pending(name) := bytes][Final(name) := bytes];
             s5 == s.(visible := files, durable := files, dirty := s.dirty - {Pending(name)} - {Final(name)},
                      pc := Committing(RemovePending, name, bytes, purpose))
    ensures GoTimes(f, s5, n) == GoTimes(f, Ended(WithFile(s, name, bytes), purpose), n - 2)
  {
    var s6 := GoStep(f, s5);
    GoOnce(f, s5, n);
    GoOnce(f, s6, n - 1);
    assert s6.visible == s.visible[Final(name) := bytes];
    assert s6.dirty == s.dirty - {Final(name), Pending(name)};
  }

  function Ended(s: System, purpose: Purpose): System {
    match purpose
    case Opening(binding) => s.(pc := Checking(binding))
    case Authorizing(grant) => s.(pc := Idle, granted := s.granted + {grant})
  }

  /**
   Asked to authorize a candidate, an undisturbed signer grants it exactly when it has not
   failed and the scope is free or holds the record of this very candidate. A new record
   is then on disk; nothing else changes.
   */
  lemma AuthorizeOutcome(f: Format, s: System, height: nat, core: seq<byte>, n: nat)
    requires Inv(f, s) && s.pc.Idle? && s.live.Some? && |core| == CORE_LEN && height < U64 && n >= 7
    requires f.validate(f.record(s.live.value.binding, height, core), s.live.value.binding).Success?
    ensures var g := Grant(s.live.value.binding, height, core);
            var file := Final(GrantName(f, g));
            Step(f, s, Authorize(height, core)).Success? &&
            GoTimes(f, Step(f, s, Authorize(height, core)).value, n) ==
            if s.live.value.failed || (file in s.visible && s.visible[file] != GrantRecord(f, g)) then s
            else if file in s.visible then s.(dirty := s.dirty - {file}, granted := s.granted + {g})
            else WithFile(s, GrantName(f, g), GrantRecord(f, g)).(granted := s.granted + {g})
  {
    var g := Grant(s.live.value.binding, height, core);
    var s' := Step(f, s, Authorize(height, core)).value;
    if s'.pc.RetrySync? {
      GoOnce(f, s', n);
    } else if s'.pc.Committing? {
      assert NoPending(s);
      CommitRuns(f, s', GrantName(f, g), GrantRecord(f, g), Authorizing(g), n);
    }
  }

  /** What was granted may be signed. */
  lemma GrantedIsSigned(f: Format, s: System, g: Grant)
    requires g in s.granted
    ensures Step(f, s, Sign(g)) == Success(s.(signed := s.signed + [g]))
  {
  }

  /** After a failed call of an authorization nothing is authorized any more by this signer. */
  lemma FailureDisables(f: Format, s: System, height: nat, core: seq<byte>)
    requires Inv(f, s) && !s.pc.Idle? && s.live.Some? && |core| == CORE_LEN && height < U64
    ensures var t := Step(f, s, Fail).value;
            && t.pc.Idle? && t.granted == s.granted && t.live.Some? && t.live.value.failed
            && Step(f, t, Authorize(height, core)) == Success(t)
  {
  }

  // ----------------------------------------------------------------- opening

  /** Opening without initializing succeeds exactly when the store is in order for this binding. */
  lemma OpenIff(f: Format, s: System, binding: seq<byte>, n: nat)
    requires s.pc.Idle? && s.live.None? && |binding| == BINDING_LEN && n >= 1
    ensures Step(f, s, Open(binding, false)).Success?
    ensures GoTimes(f, Step(f, s, Open(binding, false)).value, n)
            == s.(live := if Opens(f, s.visible, binding) then Some(Live(binding, false)) else None)
  {
    GoOnce(f, Step(f, s, Open(binding, false)).value, n);
  }

  /** Initializing an empty directory publishes the authority file and opens; any other directory is refused. */
  lemma InitializeOutcome(f: Format, s: System, binding: seq<byte>, n: nat)
    requires s.pc.Idle? && s.live.None? && |binding| == BINDING_LEN && n >= 8
    ensures Step(f, s, Open(binding, true)).Success?
    ensures GoTimes(f, Step(f, s, Open(binding, true)).value, n) ==
            if s.visible == map[]
            then WithFile(s, Authority, binding).(live := Some(Live(binding, false)))
            else s
  {
    if s.visible == map[] {
      var s' := Step(f, s, Open(binding, true)).value;
      CommitRuns(f, s', Authority, binding, Opening(binding), n);
      var t := Ended(WithFile(s', Authority, binding), Opening(binding));
      GoOnce(f, t, n - 7);
      assert Opens(f, t.visible, binding);
    }
  }

  /** With the real formats: a candidate of the signer's own network and licence validates. */
  lemma CandidatesValidate(binding: seq<byte>, height: nat, core: seq<byte>)
    requires |binding| == BINDING_LEN && |core| == CORE_LEN
    requires core[2..6] == binding[8..12] && core[142..174] == binding[44..76]
    ensures Formats.validate(Formats.record(binding, height, core), binding).Success?
  {
    RecordValidates(binding, height, core);
  }
}
