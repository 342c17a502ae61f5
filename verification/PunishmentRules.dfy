/**
 What an offence does, which evidence is accepted and what an epoch forgets, in numbers
 (crates/mutiny-node/src/punishment.rs and crates/mutiny-protocol/src/lib.rs).
 */
module PunishmentRules {
  import opened Wrappers
  import opened Arithmetic
  import opened Sorting
  import opened Licences
  import opened Punishment
  import opened PunishmentProofs

  /** The weights of the three kinds of offence. */
  function KindWeight(kind: nat): (w: nat)
    requires 1 <= kind <= 3
    ensures Weight(kind) == Success(w)
  {
    [1, 2, 4][kind - 1]
  }

  /** A suspension of 64 epochs for one strike, doubled by every further one. */
  function Suspension(strikes: nat): (n: nat)
    requires 1 <= strikes <= 15
    ensures n == Pow2(5 + strikes)
  {
    Pow2Five(strikes);
    if strikes == 1 then 64 else 2 * Suspension(strikes - 1)
  }

  /** The licence after an offence at `epoch` that brings it to `total` strikes. */
  function Struck(l: Licence, total: nat, epoch: nat): Licence
    requires total >= 1
  {
    if total >= 16 then l.(strikes := 16, status := Revoked, revocation := epoch)
    else l.(strikes := total,
            suspendedUntil := (if l.suspendedUntil < epoch then epoch else l.suspendedUntil) + Suspension(total))
  }

  /**
   An offence of a known kind against a licence that is not revoked is applied unless an
   epoch leaves 64 bits; it adds its weight, and suspends, or revokes at 16.
   */
  lemma OffenceEffect(l: Licence, offences: seq<Offence>, kind: nat, epoch: nat)
    requires LicenceOk(offences, l)
    ensures ApplyOffence(l, kind, epoch).Success? <==>
            && l.status != Revoked && 1 <= kind <= 3 && epoch + 0x20_0000 < U64
            && var total := l.strikes + KindWeight(kind);
            total >= 16 || Struck(l, total, epoch).suspendedUntil < U64
    ensures ApplyOffence(l, kind, epoch).Success? ==>
              ApplyOffence(l, kind, epoch) == Success(Struck(l, l.strikes + KindWeight(kind), epoch))
  {
  }

  /** Evidence that may be applied: new, objective, against a licence on which its offence can be applied. */
  predicate Applies(s: Ledger, e: Evidence, i: nat)
    requires i < |s.licences|
  {
    && e.id !in s.consumed && e.objective && s.licences[i].id == e.accused
    && ApplyOffence(s.licences[i], e.kind, s.epoch).Success?
  }

  /** What evidence against the licence at `i` leaves: that licence struck, the evidence used up, one more offence. */
  predicate Punished(s: Ledger, e: Evidence, i: nat, t: Ledger)
    requires i < |s.licences| && Applies(s, e, i) && 1 <= e.kind <= 3
  {
    && t.epoch == s.epoch
    && t.licences == s.licences[i := ApplyOffence(s.licences[i], e.kind, s.epoch).value]
    && multiset(t.consumed) == multiset(s.consumed) + multiset{e.id}
    && multiset(t.offences) == multiset(s.offences)
       + multiset{Offence(e.id, e.accused, e.kind, KindWeight(e.kind), s.epoch, s.epoch + 0x20_0000)}
  }

  lemma KindOf(l: Licence, kind: nat, epoch: nat)
    requires ApplyOffence(l, kind, epoch).Success?
    ensures 1 <= kind <= 3
  {
  }

  /** Evidence is accepted exactly when it applies to some licence, and then does just that. */
  lemma PunishIff(s: Ledger, e: Evidence)
    requires DistinctBy(IdOf(), s.licences)
    ensures Punish(s, e).Success? <==> exists i: nat :: i < |s.licences| && Applies(s, e, i)
    ensures forall i: nat | i < |s.licences| && Applies(s, e, i) ::
              1 <= e.kind <= 3 && Punished(s, e, i, Punish(s, e).value)
  {
    forall i, j | 0 <= i < j < |s.licences| ensures s.licences[i].id != s.licences[j].id {
      assert IdOf()(s.licences[i]) != IdOf()(s.licences[j]);
    }
    LicenceAtIs(s.licences, e.accused);
    var at := LicenceAt(s.licences, e.accused);
    if at.Some? && Applies(s, e, at.value) {
      KindOf(s.licences[at.value], e.kind, s.epoch);
      PunishedAt(s, e, at.value);
    }
  }

  lemma PunishedAt(s: Ledger, e: Evidence, i: nat)
    requires LicenceAt(s.licences, e.accused) == Some(i) && i < |s.licences| && Applies(s, e, i) && 1 <= e.kind <= 3
    ensures Punish(s, e).Success? && Punished(s, e, i, Punish(s, e).value)
  {
    var o := NewOffence(e, s.epoch);
    assert o == Offence(e.id, e.accused, e.kind, KindWeight(e.kind), s.epoch, s.epoch + 0x20_0000);
  }

  lemma {:induction false} LiveIs(offences: seq<Offence>, epoch: nat)
    ensures forall o :: o in Live(offences, epoch) <==> o in offences && o.expiry > epoch
  {
    if offences != [] {
      LiveIs(offences[1..], epoch);
    }
  }

  /** An epoch forgets exactly the offences that reach their expiry, and activates what is due. */
  lemma EpochForgets(s: Ledger)
    requires Inv(s)
    ensures Tick(s).Success?
    ensures forall o :: o in Tick(s).value.offences <==> o in s.offences && o.expiry > s.epoch + 1
    ensures |Tick(s).value.licences| == |s.licences|
    ensures forall i :: 0 <= i < |s.licences| ==>
              var l, t := s.licences[i], Tick(s).value.licences[i];
              && t == l.(status := t.status, strikes := t.strikes)
              && t.status == (if l.status == Pending && l.activation <= s.epoch + 1 then Active else l.status)
              && t.strikes == if l.status == Revoked then 16 else Against(Tick(s).value.offences, l.id)
  {
    TickSucceeds(s);
    LiveIs(s.offences, s.epoch + 1);
    RecomputeAllOk(s.licences, s.offences, s.epoch + 1);
    forall i | 0 <= i < |s.licences|
      ensures Tick(s).value.licences[i]
              == Activated(Recomputed(s.licences[i], Live(s.offences, s.epoch + 1)).value, s.epoch + 1)
    {
    }
  }
}
