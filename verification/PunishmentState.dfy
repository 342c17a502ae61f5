/**
 The punishment fields of the node state, changed in place as the source changes them,
 and the check made when a state is loaded.
 */
module PunishmentState {
  import opened Wrappers
  import opened Sorting
  import opened Licences
  import opened Punishment
  import opened PunishmentProofs

  // ------------------------------------------------------------ running sums

  function Held(sums: map<LicenceId, nat>, id: LicenceId): nat {
    if id in sums then sums[id] else 0
  }

  /** The table holds the weights of the first `n` offences. */
  ghost predicate Tallies(sums: map<LicenceId, nat>, offences: seq<Offence>, n: nat)
    requires n <= |offences|
  {
    forall id :: Held(sums, id) == Against(offences[..n], id)
  }

  lemma TallyStep(sums: map<LicenceId, nat>, offences: seq<Offence>, n: nat, sums': map<LicenceId, nat>)
    requires n < |offences| && Tallies(sums, offences, n)
    requires var o := offences[n]; sums' == sums[o.licence := Held(sums, o.licence) + o.weight]
    ensures Tallies(sums', offences, n + 1)
  {
    var o := offences[n];
    forall id ensures Held(sums', id) == Against(offences[..n + 1], id) {
      assert offences[..n + 1] == offences[..n] + [o];
      AgainstAdds(offences[..n], [o], id);
      assert [o][1..] == [];
      assert Held(sums, id) == Against(offences[..n], id);
    }
  }

  lemma AgainstPrefix(offences: seq<Offence>, n: nat, id: LicenceId)
    requires n <= |offences|
    ensures Against(offences[..n], id) <= Against(offences, id)
  {
    assert offences == offences[..n] + offences[n..];
    AgainstAdds(offences[..n], offences[n..], id);
  }

  /** One more offence added with a checked byte addition. */
  lemma FitStep(sums: map<LicenceId, nat>, offences: seq<Offence>, n: nat)
    requires n < |offences| && Tallies(sums, offences, n) && FitsByte(offences[..n])
    ensures Held(sums, offences[n].licence) + offences[n].weight < 256 ==> FitsByte(offences[..n + 1])
    ensures Held(sums, offences[n].licence) + offences[n].weight >= 256 ==> !FitsByte(offences)
  {
    var o := offences[n];
    var sums' := sums[o.licence := Held(sums, o.licence) + o.weight];
    TallyStep(sums, offences, n, sums');
    assert Held(sums', o.licence) == Against(offences[..n + 1], o.licence);
    AgainstPrefix(offences, n + 1, o.licence);
    if Held(sums', o.licence) < 256 {
      var first := offences[..n + 1];
      forall id ensures Against(first, id) < 256 {
        assert Held(sums', id) == Against(offences[..n + 1], id);
        assert Held(sums, id) == Against(offences[..n], id) < 256;
      }
    }
  }

  /** The table of active weights of `expire_events` and `check_state`. */
  method Tally(offences: seq<Offence>) returns (r: Result<map<LicenceId, nat>>)
    ensures r.Success? <==> FitsByte(offences)
    ensures r.Success? ==> Tallies(r.value, offences, |offences|)
  {
    var sums: map<LicenceId, nat> := map[];
    var n := 0;
    while n < |offences|
      invariant 0 <= n <= |offences|
      invariant Tallies(sums, offences, n) && FitsByte(offences[..n])
    {
      var o := offences[n];
      FitStep(sums, offences, n);
      if Held(sums, o.licence) + o.weight >= 256 {
        return Failure;
      }
      var sums' := sums[o.licence := Held(sums, o.licence) + o.weight];
      TallyStep(sums, offences, n, sums');
      sums := sums';
      n := n + 1;
    }
    assert offences[..n] == offences;
    return Success(sums);
  }

  /** Recomputation of one more licence. */
  lemma {:induction false} RecomputePrefix(licences: seq<Licence>, offences: seq<Offence>, n: nat)
    requires n <= |licences| && RecomputeAll(licences[..n], offences).Failure?
    ensures RecomputeAll(licences, offences).Failure?
    decreases |licences| - n
  {
    if n < |licences| {
      assert licences[..n + 1][..n] == licences[..n];
      RecomputePrefix(licences, offences, n + 1);
    } else {
      assert licences[..n] == licences;
    }
  }

  class NodeState {
    var epoch: nat
    var licences: seq<Licence>
    var consumed: seq<EvidenceId>
    var offences: seq<Offence>

    constructor (s: Ledger)
      ensures View() == s
    {
      epoch, licences, consumed, offences := s.epoch, s.licences, s.consumed, s.offences;
    }

    function View(): Ledger
      reads this
    {
      Ledger(epoch, licences, consumed, offences)
    }

    /** The `retain` of `expire_events`. */
    method DropExpired(at: nat)
      modifies this`offences
      ensures offences == Live(old(offences), at)
    {
      var live: seq<Offence> := [];
      var n := |offences|;
      while n > 0
        invariant 0 <= n <= |offences| && offences == old(offences)
        invariant live == Live(offences[n..], at)
      {
        n := n - 1;
        assert offences[n..][1..] == offences[n + 1..];
        live := (if offences[n].expiry > at then [offences[n]] else []) + live;
      }
      assert offences[0..] == offences;
      offences := live;
    }

    /** `expire_events` */
    method ExpireEvents(at: nat) returns (ok: bool)
      modifies this`offences, this`licences
      ensures ok <==> Punishment.ExpireEvents(old(View()), at).Success?
      ensures ok ==> Punishment.ExpireEvents(old(View()), at) == Success(View())
    {
      DropExpired(at);
      var sums := Tally(offences);
      if sums.Failure? {
        return false;
      }
      ok := Recompute(sums.value);
    }

    /** The licence loop of `expire_events`. */
    method Recompute(sums: map<LicenceId, nat>) returns (ok: bool)
      requires Tallies(sums, offences, |offences|)
      modifies this`licences
      ensures ok <==> RecomputeAll(old(licences), offences).Success?
      ensures ok ==> RecomputeAll(old(licences), offences) == Success(licences)
    {
      var before := licences;
      var n := 0;
      assert offences[..|offences|] == offences;
      while n < |before|
        invariant 0 <= n <= |before| == |licences| && before == old(licences)
        invariant RecomputeAll(before[..n], offences) == Success(licences[..n])
        invariant licences[n..] == before[n..]
      {
        var l := licences[n];
        assert l == before[n] == before[n..][0];
        assert before[..n + 1][..n] == before[..n];
        assert Held(sums, l.id) == Against(offences[..|offences|], l.id);
        if (l.status == Revoked && l.strikes != THRESHOLD) || (l.status != Revoked && Held(sums, l.id) >= THRESHOLD) {
          RecomputePrefix(before, offences, n + 1);
          return false;
        }
        var l' := if l.status == Revoked then l else l.(strikes := Held(sums, l.id));
        licences := licences[..n] + [l'] + licences[n + 1..];
        assert licences[..n + 1] == licences[..n] + [l'];
        n := n + 1;
      }
      assert before[..n] == before && licences[..n] == licences;
      return true;
    }

    /** `apply_operation`; refused evidence changes nothing. */
    method ApplyOperation(e: Evidence) returns (ok: bool)
      modifies this`licences, this`consumed, this`offences
      ensures ok <==> Punish(old(View()), e).Success?
      ensures View() == if ok then Punish(old(View()), e).value else old(View())
    {
      if e.id in consumed || !e.objective {
        return false;
      }
      var at := LicenceAt(licences, e.accused);
      if at.None? {
        return false;
      }
      var licence := ApplyOffence(licences[at.value], e.kind, epoch);
      if licence.Failure? {
        return false;
      }
      licences := licences[at.value := licence.value];
      consumed := consumed + [e.id];
      offences := offences + [NewOffence(e, epoch)];
      consumed := Sort(EvidenceOrder(), consumed);
      offences := Sort(OffenceOrder(), offences);
      return true;
    }
  }

  // ------------------------------------------------------------ check_state

  predicate LicenceChecked(offences: seq<Offence>, l: Licence) {
    if l.status == Revoked then l.strikes == THRESHOLD && l.revocation != 0
    else l.strikes == Against(offences, l.id) && l.revocation == 0
  }

  /** What `check_state` accepts. */
  ghost predicate Checked(s: Ledger) {
    && DistinctBy(Same(), s.consumed) && DistinctBy(EvidenceOf(), s.offences)
    && OffencesOk(s) && FitsByte(s.offences)
    && forall i :: 0 <= i < |s.licences| ==> LicenceChecked(s.offences, s.licences[i])
  }

  /** No sum has passed the weight that revokes by more than one offence. */
  predicate Bounded(s: Ledger) {
    forall i :: 0 <= i < |s.licences| ==>
      Against(s.offences, s.licences[i].id) < if s.licences[i].status == Revoked then THRESHOLD + 4 else THRESHOLD
  }

  /** The check says no more and no less than the run invariant, up to what it cannot see. */
  lemma CheckedIff(s: Ledger)
    requires DistinctBy(IdOf(), s.licences) && Bounded(s)
    ensures Checked(s) <==> Inv(s)
  {
    if Inv(s) {
      forall id ensures Against(s.offences, id) < 256 {
        SumsFit(s, id);
      }
      forall i | 0 <= i < |s.licences| ensures LicenceChecked(s.offences, s.licences[i]) {
        assert LicenceOk(s.offences, s.licences[i]);
      }
    }
    if Checked(s) {
      forall i | 0 <= i < |s.licences| ensures LicenceOk(s.offences, s.licences[i]) {
        assert LicenceChecked(s.offences, s.licences[i]);
      }
    }
  }

  /** After every run the state passes the check. */
  lemma RunsPassCheck(s: Ledger, events: seq<Event>)
    requires Inv(s)
    ensures Checked(After(s, events))
  {
    RunsKeepInv(s, events);
    var t := After(s, events);
    forall id ensures Against(t.offences, id) < 256 {
      SumsFit(t, id);
    }
    forall i | 0 <= i < |t.licences| ensures LicenceChecked(t.offences, t.licences[i]) {
      assert LicenceOk(t.offences, t.licences[i]);
    }
  }

  /** The first pass of `check_state`: consumed ids are distinct. */
  method CheckDistinct(ids: seq<EvidenceId>) returns (ok: bool)
    ensures ok <==> DistinctBy(Same(), ids)
  {
    var seen: set<EvidenceId> := {};
    var n := 0;
    while n < |ids|
      invariant 0 <= n <= |ids|
      invariant seen == set k | 0 <= k < n :: ids[k]
      invariant DistinctBy(Same(), ids[..n])
    {
      if ids[n] in seen {
        var k :| 0 <= k < n && ids[k] == ids[n];
        assert Same()(ids[k]) == Same()(ids[n]);
        return false;
      }
      seen := seen + {ids[n]};
      n := n + 1;
    }
    assert ids[..n] == ids;
    return true;
  }

  /** The third pass: every licence carries its sum. */
  method CheckLicences(s: Ledger, sums: map<LicenceId, nat>) returns (ok: bool)
    requires Tallies(sums, s.offences, |s.offences|)
    ensures ok <==> forall i :: 0 <= i < |s.licences| ==> LicenceChecked(s.offences, s.licences[i])
  {
    assert s.offences[..|s.offences|] == s.offences;
    var n := 0;
    while n < |s.licences|
      invariant 0 <= n <= |s.licences|
      invariant forall i :: 0 <= i < n ==> LicenceChecked(s.offences, s.licences[i])
    {
      var l := s.licences[n];
      assert Held(sums, l.id) == Against(s.offences[..|s.offences|], l.id);
      if l.status == Revoked {
        if l.strikes != THRESHOLD || l.revocation == 0 {
          return false;
        }
      } else if l.strikes != Held(sums, l.id) || l.revocation != 0 {
        return false;
      }
      n := n + 1;
    }
    return true;
  }

  /** The second pass: each offence on its own, and no evidence twice. */
  method CheckOffences(s: Ledger) returns (ok: bool)
    ensures ok <==> OffencesOk(s) && DistinctBy(EvidenceOf(), s.offences)
  {
    var ids: seq<EvidenceId> := [];
    var n := 0;
    while n < |s.offences|
      invariant 0 <= n <= |s.offences| && |ids| == n
      invariant forall i :: 0 <= i < n ==> OffenceOk(s, s.offences[i]) && ids[i] == s.offences[i].evidence
    {
      if !OffenceOk(s, s.offences[n]) {
        return false;
      }
      ids := ids + [s.offences[n].evidence];
      n := n + 1;
    }
    ok := CheckDistinct(ids);
    if !ok {
      var i, j :| 0 <= i < j < |ids| && Same()(ids[i]) == Same()(ids[j]);
      assert EvidenceOf()(s.offences[i]) == EvidenceOf()(s.offences[j]);
    } else {
      forall i, j | 0 <= i < j < |s.offences| ensures EvidenceOf()(s.offences[i]) != EvidenceOf()(s.offences[j]) {
        assert Same()(ids[i]) != Same()(ids[j]);
      }
    }
  }

  /** `check_state` */
  method CheckState(s: Ledger) returns (ok: bool)
    ensures ok <==> Checked(s)
  {
    var consumed := CheckDistinct(s.consumed);
    var offences := CheckOffences(s);
    var sums := Tally(s.offences);
    if !consumed || !offences || sums.Failure? {
      return false;
    }
    ok := CheckLicences(s, sums.value);
  }
}
