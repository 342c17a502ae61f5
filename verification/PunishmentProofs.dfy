/**
 The strike invariant over every run of offences, epoch ticks and registrations.
 */
module PunishmentProofs {
  import opened Wrappers
  import opened Arithmetic
  import opened Sorting
  import opened Licences
  import opened Punishment

  // --------------------------------------------------------------- the sum

  lemma {:induction false} AgainstAdds(a: seq<Offence>, b: seq<Offence>, id: LicenceId)
    ensures Against(a + b, id) == Against(a, id) + Against(b, id)
  {
    if a == [] {
      assert a + b == b;
    } else {
      assert (a + b)[1..] == a[1..] + b;
      AgainstAdds(a[1..], b, id);
    }
  }

  lemma {:induction false} AgainstInsert(le: (Offence, Offence) -> bool, o: Offence, s: seq<Offence>, id: LicenceId)
    ensures Against(Insert(le, o, s), id) == Against([o], id) + Against(s, id)
  {
    if s != [] && !le(o, s[0]) {
      AgainstInsert(le, o, s[1..], id);
      assert s == [s[0]] + s[1..];
      AgainstAdds([s[0]], s[1..], id);
      AgainstAdds([s[0]], Insert(le, o, s[1..]), id);
    } else {
      AgainstAdds([o], s, id);
    }
  }

  lemma {:induction false} AgainstSort(le: (Offence, Offence) -> bool, s: seq<Offence>, id: LicenceId)
    ensures Against(Sort(le, s), id) == Against(s, id)
  {
    if s != [] {
      AgainstSort(le, s[1..], id);
      AgainstInsert(le, s[0], Sort(le, s[1..]), id);
      assert s == [s[0]] + s[1..];
      AgainstAdds([s[0]], s[1..], id);
    }
  }

  lemma {:induction false} AgainstLive(s: seq<Offence>, epoch: nat, id: LicenceId)
    ensures Against(Live(s, epoch), id) <= Against(s, id)
  {
    if s != [] {
      AgainstLive(s[1..], epoch, id);
      AgainstAdds(if s[0].expiry > epoch then [s[0]] else [], Live(s[1..], epoch), id);
    }
  }

  lemma {:induction false} AgainstNobody(s: seq<Offence>, id: LicenceId)
    requires forall i :: 0 <= i < |s| ==> s[i].licence != id
    ensures Against(s, id) == 0
  {
    if s != [] {
      AgainstNobody(s[1..], id);
    }
  }

  // -------------------------------------------------------------- invariant

  function IdOf(): Licence -> LicenceId {
    (l: Licence) => l.id
  }

  function EvidenceOf(): Offence -> EvidenceId {
    (o: Offence) => o.evidence
  }

  function Same(): EvidenceId -> EvidenceId {
    (e: EvidenceId) => e
  }

  /** A live offence: right weight, right expiry, its evidence consumed, its licence registered. */
  predicate OffenceOk(s: Ledger, o: Offence) {
    && Weight(o.kind) == Success(o.weight)
    && o.expiry == o.applied + DECAY < U64
    && s.epoch < o.expiry
    && o.evidence in s.consumed
    && Known(s.licences, o.licence)
  }

  predicate OffencesOk(s: Ledger) {
    forall i :: 0 <= i < |s.offences| ==> OffenceOk(s, s.offences[i])
  }

  /** The weight kept by addition is the sum of the live offences; revocation is pinned. */
  predicate LicenceOk(offences: seq<Offence>, l: Licence) {
    if l.status == Revoked then l.strikes == THRESHOLD && l.revocation > 0 && Against(offences, l.id) < THRESHOLD + 4
    else l.strikes == Against(offences, l.id) < THRESHOLD && l.revocation == 0
  }

  predicate LicencesOk(s: Ledger) {
    forall i :: 0 <= i < |s.licences| ==> LicenceOk(s.offences, s.licences[i])
  }

  predicate IdsOk(s: Ledger) {
    && DistinctBy(IdOf(), s.licences)
    && DistinctBy(Same(), s.consumed)
    && DistinctBy(EvidenceOf(), s.offences)
  }

  predicate Inv(s: Ledger) {
    OffencesOk(s) && LicencesOk(s) && IdsOk(s)
  }

  // ------------------------------------------------------------------ ticks

  lemma {:induction false} LiveMembers(s: seq<Offence>, epoch: nat)
    ensures forall o :: o in Live(s, epoch) ==> o in s && o.expiry > epoch
  {
    if s != [] {
      LiveMembers(s[1..], epoch);
    }
  }

  lemma {:induction false} LiveDistinct(s: seq<Offence>, epoch: nat)
    requires DistinctBy(EvidenceOf(), s)
    ensures DistinctBy(EvidenceOf(), Live(s, epoch))
  {
    if s != [] {
      LiveDistinct(s[1..], epoch);
      LiveMembers(s[1..], epoch);
      var tail := Live(s[1..], epoch);
      forall j | 0 <= j < |tail| ensures tail[j].evidence != s[0].evidence {
        assert tail[j] in s[1..];
      }
    }
  }

  /** No licence, known or not, has more than 19 against it. */
  lemma SumsFit(s: Ledger, id: LicenceId)
    requires OffencesOk(s) && LicencesOk(s)
    ensures Against(s.offences, id) < 256
  {
    if i :| 0 <= i < |s.licences| && s.licences[i].id == id {
      assert LicenceOk(s.offences, s.licences[i]);
    } else {
      forall k | 0 <= k < |s.offences| ensures s.offences[k].licence != id {
        assert OffenceOk(s, s.offences[k]);
      }
      AgainstNobody(s.offences, id);
    }
  }

  /** The recomputation agrees with the weight kept, less what expired. */
  lemma RecomputedOk(l: Licence, offences: seq<Offence>, epoch: nat)
    requires LicenceOk(offences, l)
    ensures var r := Recomputed(l, Live(offences, epoch));
            && r.Success? && LicenceOk(Live(offences, epoch), r.value)
            && r.value == l.(strikes := r.value.strikes) && r.value.strikes <= l.strikes
  {
    AgainstLive(offences, epoch, l.id);
  }

  lemma {:induction false} RecomputeAllOk(licences: seq<Licence>, offences: seq<Offence>, epoch: nat)
    requires forall i :: 0 <= i < |licences| ==> LicenceOk(offences, licences[i])
    ensures var r := RecomputeAll(licences, Live(offences, epoch));
            r.Success? && |r.value| == |licences|
    ensures forall i :: 0 <= i < |licences| ==>
              && Recomputed(licences[i], Live(offences, epoch)).Success?
              && RecomputeAll(licences, Live(offences, epoch)).value[i]
                 == Recomputed(licences[i], Live(offences, epoch)).value
  {
    if licences != [] {
      RecomputeAllOk(licences[..|licences| - 1], offences, epoch);
      RecomputedOk(licences[|licences| - 1], offences, epoch);
    }
  }

  /** What may happen to one licence in any step. */
  predicate Ages(l: Licence, t: Licence) {
    && t.id == l.id
    && l.suspendedUntil <= t.suspendedUntil
    && (l.status == Revoked ==> t.status == Revoked && t.revocation == l.revocation && t.strikes == l.strikes)
  }

  /** Licences stay, revoked ones unchanged, suspensions never shorten, evidence stays consumed. */
  predicate Later(s: Ledger, t: Ledger) {
    && |s.licences| <= |t.licences|
    && (forall i :: 0 <= i < |s.licences| ==> Ages(s.licences[i], t.licences[i]))
    && (forall e :: e in s.consumed ==> e in t.consumed)
  }

  predicate TickOk(s: Ledger, t: Ledger) {
    && t.epoch == s.epoch + 1 && t.consumed == s.consumed && t.offences == Live(s.offences, s.epoch + 1)
    && |t.licences| == |s.licences|
    && forall i :: 0 <= i < |s.licences| ==>
         LicenceOk(t.offences, t.licences[i]) && Ages(s.licences[i], t.licences[i])
  }

  lemma LiveFits(s: Ledger, epoch: nat)
    requires OffencesOk(s) && LicencesOk(s)
    ensures FitsByte(Live(s.offences, epoch))
  {
    var live := Live(s.offences, epoch);
    forall id ensures Against(live, id) < 256 {
      SumsFit(s, id);
      AgainstLive(s.offences, epoch, id);
    }
  }

  lemma TickLicence(l: Licence, offences: seq<Offence>, epoch: nat)
    requires LicenceOk(offences, l)
    ensures var r := Recomputed(l, Live(offences, epoch));
            && r.Success? && LicenceOk(Live(offences, epoch), Activated(r.value, epoch))
            && Ages(l, Activated(r.value, epoch))
  {
    RecomputedOk(l, offences, epoch);
  }

  /** The licences after a tick. */
  lemma TickedLicences(licences: seq<Licence>, offences: seq<Offence>, epoch: nat)
    requires forall i :: 0 <= i < |licences| ==> LicenceOk(offences, licences[i])
    ensures RecomputeAll(licences, Live(offences, epoch)).Success?
    ensures var after := ActivateAll(RecomputeAll(licences, Live(offences, epoch)).value, epoch);
            && |after| == |licences|
            && forall i :: 0 <= i < |licences| ==>
                 LicenceOk(Live(offences, epoch), after[i]) && Ages(licences[i], after[i])
  {
    RecomputeAllOk(licences, offences, epoch);
    var after := ActivateAll(RecomputeAll(licences, Live(offences, epoch)).value, epoch);
    forall i | 0 <= i < |licences| ensures LicenceOk(Live(offences, epoch), after[i]) && Ages(licences[i], after[i]) {
      TickLicence(licences[i], offences, epoch);
    }
  }

  /** The epoch transition never fails. */
  lemma TickSucceeds(s: Ledger)
    requires Inv(s)
    ensures Tick(s).Success? && TickOk(s, Tick(s).value)
  {
    LiveFits(s, s.epoch + 1);
    TickedLicences(s.licences, s.offences, s.epoch + 1);
  }

  lemma TickOffences(s: Ledger, t: Ledger)
    requires OffencesOk(s) && TickOk(s, t)
    ensures OffencesOk(t)
  {
    LiveMembers(s.offences, s.epoch + 1);
    forall i | 0 <= i < |t.offences| ensures OffenceOk(t, t.offences[i]) {
      var o := t.offences[i];
      assert o in s.offences;
      var k :| 0 <= k < |s.licences| && s.licences[k].id == o.licence;
      assert Ages(s.licences[k], t.licences[k]);
    }
  }

  lemma SameIds(a: seq<Licence>, b: seq<Licence>)
    requires DistinctBy(IdOf(), a) && |a| == |b|
    requires forall i :: 0 <= i < |a| ==> b[i].id == a[i].id
    ensures DistinctBy(IdOf(), b)
  {
    forall i, j | 0 <= i < j < |b| ensures IdOf()(b[i]) != IdOf()(b[j]) {
      assert IdOf()(a[i]) != IdOf()(a[j]);
    }
  }

  lemma TickKeeps(s: Ledger, t: Ledger)
    requires Inv(s) && TickOk(s, t)
    ensures Inv(t) && Later(s, t)
  {
    TickOffences(s, t);
    LiveDistinct(s.offences, s.epoch + 1);
    SameIds(s.licences, t.licences);
  }

  // ---------------------------------------------------------------- offences

  /** One applied offence. */
  lemma OffenceApplied(l: Licence, offences: seq<Offence>, kind: nat, epoch: nat)
    requires epoch > 0 && LicenceOk(offences, l) && ApplyOffence(l, kind, epoch).Success?
    ensures var t := ApplyOffence(l, kind, epoch).value;
            && Ages(l, t) && epoch + DECAY < U64 && Weight(kind).Success? && Weight(kind).value <= 4
            && (forall after: seq<Offence> :: Against(after, l.id) == Against(offences, l.id) + Weight(kind).value ==>
                  LicenceOk(after, t))
  {
  }

  lemma {:induction false} Pow2Range(n: nat)
    requires 6 <= n <= 20
    ensures 64 <= Pow2(n) <= 0x10_0000
  {
    if n > 6 {
      Pow2Range(n - 1);
      Pow2Up(n, 20);
    } else {
      Pow2Up(6, 20);
    }
    Pow2Twenty();
  }

  lemma {:induction false} Pow2Up(n: nat, m: nat)
    requires n <= m
    ensures Pow2(n) <= Pow2(m)
  {
    if n < m {
      Pow2Up(n, m - 1);
    }
  }

  lemma Pow2Twenty()
    ensures Pow2(6) == 64 && Pow2(20) == 0x10_0000
  {
    assert Pow2(10) == 1024;
    assert Pow2(15) == 32 * Pow2(10);
    assert Pow2(20) == 32 * Pow2(15);
  }

  /**
   An offence either revokes, exactly when the weight would reach 16, or suspends for
   64 to 2^20 further epochs, twice as long for every strike; the shift never overflows.
   */
  lemma SuspensionBounds(l: Licence, offences: seq<Offence>, kind: nat, epoch: nat)
    requires LicenceOk(offences, l) && ApplyOffence(l, kind, epoch).Success?
    ensures var t := ApplyOffence(l, kind, epoch).value;
            && (t.status == Revoked <==> l.strikes + Weight(kind).value >= THRESHOLD)
            && (t.status != Revoked ==>
                  && Max(l.suspendedUntil, epoch) + 64 <= t.suspendedUntil <= Max(l.suspendedUntil, epoch) + 0x10_0000
                  && t.suspendedUntil - Max(l.suspendedUntil, epoch) == 32 * Pow2(t.strikes))
  {
    var total := l.strikes + Weight(kind).value;
    if total < THRESHOLD {
      Pow2Range(5 + total);
      Pow2Five(total);
    }
  }

  lemma Pow2Five(n: nat)
    ensures Pow2(5 + n) == 32 * Pow2(n)
  {
    assert Pow2(5 + n) == 2 * Pow2(4 + n);
    assert Pow2(4 + n) == 2 * Pow2(3 + n);
    assert Pow2(3 + n) == 2 * Pow2(2 + n);
    assert Pow2(2 + n) == 2 * Pow2(1 + n);
  }

  /** The offence list after a punishment. */
  lemma OffencesAfter(s: Ledger, e: Evidence, id: LicenceId)
    ensures var after := Sort(OffenceOrder(), s.offences + [NewOffence(e, s.epoch)]);
            Against(after, id) == Against(s.offences, id) + if id == e.accused then NewOffence(e, s.epoch).weight else 0
  {
    var o := NewOffence(e, s.epoch);
    AgainstSort(OffenceOrder(), s.offences + [o], id);
    AgainstAdds(s.offences, [o], id);
    assert [o][1..] == [];
  }

  lemma PunishLicences(s: Ledger, e: Evidence)
    requires Inv(s) && s.epoch > 0 && Punish(s, e).Success?
    ensures var t := Punish(s, e).value; LicencesOk(t) && Later(s, t)
  {
    var t := Punish(s, e).value;
    var at := LicenceAt(s.licences, e.accused).value;
    OffenceApplied(s.licences[at], s.offences, e.kind, s.epoch);
    forall i | 0 <= i < |t.licences|
      ensures LicenceOk(t.offences, t.licences[i]) && Ages(s.licences[i], t.licences[i])
    {
      OffencesAfter(s, e, s.licences[i].id);
      assert LicenceOk(s.offences, s.licences[i]);
      assert i != at ==> IdOf()(s.licences[i]) != IdOf()(s.licences[at]);
    }
    forall x | x in s.consumed ensures x in t.consumed {
      assert x in multiset(s.consumed + [e.id]);
      assert x in multiset(t.consumed);
    }
  }

  lemma PunishOffences(s: Ledger, e: Evidence)
    requires Inv(s) && s.epoch > 0 && Punish(s, e).Success? && Later(s, Punish(s, e).value)
    ensures OffencesOk(Punish(s, e).value) && e.id in Punish(s, e).value.consumed
  {
    var t := Punish(s, e).value;
    var o := NewOffence(e, s.epoch);
    var at := LicenceAt(s.licences, e.accused).value;
    assert e.id in multiset(s.consumed + [e.id]);
    assert e.id in multiset(t.consumed);
    forall i | 0 <= i < |t.offences| ensures OffenceOk(t, t.offences[i]) {
      assert t.offences[i] in multiset(t.offences);
      assert t.offences[i] in s.offences + [o];
      if t.offences[i] == o {
        assert t.licences[at].id == e.accused;
      } else {
        assert t.offences[i] in s.offences;
        var k :| 0 <= k < |s.licences| && s.licences[k].id == t.offences[i].licence;
        assert Ages(s.licences[k], t.licences[k]);
      }
    }
  }

  lemma PunishIds(s: Ledger, e: Evidence)
    requires Inv(s) && Punish(s, e).Success?
    ensures IdsOk(Punish(s, e).value)
  {
    var t := Punish(s, e).value;
    var o := NewOffence(e, s.epoch);
    SameIds(s.licences, t.licences);
    AppendDistinct(s, e.id, o);
    PermutedDistinctBy(EvidenceOf(), s.offences + [o], Sort(OffenceOrder(), s.offences + [o]));
    PermutedDistinctBy(Same(), s.consumed + [e.id], Sort(EvidenceOrder(), s.consumed + [e.id]));
  }

  lemma AppendDistinct(s: Ledger, id: EvidenceId, o: Offence)
    requires OffencesOk(s) && id !in s.consumed && o.evidence == id
    requires DistinctBy(Same(), s.consumed) && DistinctBy(EvidenceOf(), s.offences)
    ensures DistinctBy(EvidenceOf(), s.offences + [o]) && DistinctBy(Same(), s.consumed + [id])
  {
    forall i | 0 <= i < |s.offences| ensures s.offences[i].evidence != id {
      assert OffenceOk(s, s.offences[i]);
    }
  }

  lemma PunishKeeps(s: Ledger, e: Evidence)
    requires Inv(s) && s.epoch > 0 && Punish(s, e).Success?
    ensures Inv(Punish(s, e).value) && Later(s, Punish(s, e).value) && e.id in Punish(s, e).value.consumed
  {
    PunishLicences(s, e);
    PunishOffences(s, e);
    PunishIds(s, e);
  }

  // -------------------------------------------------------------------- runs

  datatype Event = NextEpoch | Offend(evidence: Evidence) | Register(licence: Licence)

  predicate Clean(l: Licence) {
    l.status != Revoked && l.strikes == 0 && l.revocation == 0
  }

  /** Refused operations change nothing; blocks carry positive epochs and register clean licences. */
  ghost function Outcome(s: Ledger, e: Event): Ledger {
    match e
    case NextEpoch => if Tick(s).Success? then Tick(s).value else s
    case Offend(evidence) =>
      if s.epoch > 0 && Punish(s, evidence).Success? then Punish(s, evidence).value else s
    case Register(l) => if Clean(l) && !Known(s.licences, l.id) then s.(licences := s.licences + [l]) else s
  }

  lemma RegisterKeeps(s: Ledger, l: Licence)
    requires Inv(s) && Clean(l) && !Known(s.licences, l.id)
    ensures Inv(s.(licences := s.licences + [l])) && Later(s, s.(licences := s.licences + [l]))
  {
    var t := s.(licences := s.licences + [l]);
    forall i | 0 <= i < |s.offences|
      ensures OffenceOk(t, s.offences[i]) && s.offences[i].licence != l.id
    {
      assert OffenceOk(s, s.offences[i]);
      var k :| 0 <= k < |s.licences| && s.licences[k].id == s.offences[i].licence;
      assert t.licences[k].id == s.offences[i].licence;
    }
    AgainstNobody(s.offences, l.id);
    assert forall i :: 0 <= i < |s.licences| ==> t.licences[i] == s.licences[i];
  }

  lemma OutcomeKeeps(s: Ledger, e: Event)
    requires Inv(s)
    ensures Inv(Outcome(s, e)) && Later(s, Outcome(s, e))
  {
    match e
    case NextEpoch =>
      TickSucceeds(s);
      TickKeeps(s, Tick(s).value);
    case Offend(evidence) =>
      if s.epoch > 0 && Punish(s, evidence).Success? { PunishKeeps(s, evidence); }
    case Register(l) =>
      if Clean(l) && !Known(s.licences, l.id) { RegisterKeeps(s, l); }
  }

  lemma LaterTransitive(s: Ledger, t: Ledger, u: Ledger)
    requires Later(s, t) && Later(t, u)
    ensures Later(s, u)
  {
    forall i | 0 <= i < |s.licences| ensures Ages(s.licences[i], u.licences[i]) {
      assert Ages(s.licences[i], t.licences[i]) && Ages(t.licences[i], u.licences[i]);
    }
  }

  /** The state after a run. */
  ghost function After(s: Ledger, events: seq<Event>): Ledger {
    if events == [] then s else Outcome(After(s, events[..|events| - 1]), events[|events| - 1])
  }

  /**
   Over every run from a state with the invariant: it still holds, revoked licences
   are exactly as they were, no suspension ends earlier and no evidence is forgotten.
   */
  lemma {:induction false} RunsKeepInv(s: Ledger, events: seq<Event>)
    requires Inv(s)
    ensures Inv(After(s, events)) && Later(s, After(s, events))
  {
    if events != [] {
      RunsKeepInv(s, events[..|events| - 1]);
      var t := After(s, events[..|events| - 1]);
      OutcomeKeeps(t, events[|events| - 1]);
      LaterTransitive(s, t, After(s, events));
    }
  }

  /** The recomputation at the next epoch succeeds after every run. */
  lemma ExpiryNeverFails(s: Ledger, events: seq<Event>)
    requires Inv(s)
    ensures Tick(After(s, events)).Success?
  {
    RunsKeepInv(s, events);
    TickSucceeds(After(s, events));
  }

  /** An EvidenceID is applied at most once, however much later and even when its offence has expired. */
  lemma EvidenceAppliesOnce(s: Ledger, e: Evidence, events: seq<Event>, again: Evidence)
    requires Inv(s) && s.epoch > 0 && Punish(s, e).Success? && again.id == e.id
    ensures Punish(After(Punish(s, e).value, events), again).Failure?
  {
    PunishKeeps(s, e);
    RunsKeepInv(Punish(s, e).value, events);
  }

  /** Once revoked, always revoked, with the threshold weight and the first revocation epoch. */
  lemma RevocationIsPermanent(s: Ledger, events: seq<Event>, i: nat)
    requires Inv(s) && i < |s.licences| && s.licences[i].status == Revoked
    ensures var t := After(s, events);
            && i < |t.licences| && t.licences[i].id == s.licences[i].id && t.licences[i].status == Revoked
            && t.licences[i].strikes == THRESHOLD && t.licences[i].revocation == s.licences[i].revocation > 0
  {
    RunsKeepInv(s, events);
    assert LicenceOk(s.offences, s.licences[i]);
    assert Ages(s.licences[i], After(s, events).licences[i]);
  }
}
