/**
 The dividend fields of the node state, changed in place as the source changes them,
 and the check that is made when a state is loaded.
 */
module DividendState {
  import opened Wrappers
  import opened Arithmetic
  import opened Runs
  import opened Licences
  import opened Dividends
  import opened DividendProofs
  import opened DividendRuns

  // ------------------------------------------------------------ check_state

  /** What `check_state` asks of one account. */
  predicate AccountChecked(licences: seq<Licence>, a: Account) {
    AwardDue(a.award) && a.deadline == a.award + CLAIM_WINDOW < U64 && Known(licences, a.licence)
  }

  predicate Checked(s: Ledger) {
    && s.reserved == Claimable(s.accounts) <= TreasuryTotal(s.utxos) < U64
    && OneEach(s.accounts)
    && AllChecked(s.licences, s.accounts)
  }

  predicate AllChecked(licences: seq<Licence>, accounts: seq<Account>) {
    forall i :: 0 <= i < |accounts| ==> AccountChecked(licences, accounts[i])
  }

  function Ids(accounts: seq<Account>): set<LicenceId> {
    set a | a in accounts :: a.licence
  }

  /** One more account looked at. */
  lemma SeenStep(licences: seq<Licence>, accounts: seq<Account>, i: nat)
    requires i < |accounts| && OneEach(accounts[..i]) && AllChecked(licences, accounts[..i])
    ensures Ids(accounts[..i + 1]) == Ids(accounts[..i]) + {accounts[i].licence}
    ensures accounts[i].licence in Ids(accounts[..i]) ==> !OneEach(accounts)
    ensures accounts[i].licence !in Ids(accounts[..i]) ==> OneEach(accounts[..i + 1])
    ensures AccountChecked(licences, accounts[i]) ==> AllChecked(licences, accounts[..i + 1])
  {
    assert accounts[..i + 1] == accounts[..i] + [accounts[i]];
    if accounts[i].licence in Ids(accounts[..i]) {
      var a :| a in accounts[..i] && a.licence == accounts[i].licence;
      var k :| 0 <= k < i && accounts[k] == a;
    } else {
      forall k | 0 <= k < i ensures accounts[k].licence != accounts[i].licence {
        assert accounts[k] in accounts[..i];
      }
    }
  }

  lemma {:induction false} ClaimablePrefix(accounts: seq<Account>, i: nat)
    requires i <= |accounts|
    ensures Claimable(accounts[..i]) <= Claimable(accounts)
    ensures i < |accounts| ==> Claimable(accounts[..i + 1]) == Claimable(accounts[..i]) + accounts[i].claimable
  {
    assert accounts == accounts[..i] + accounts[i..];
    ClaimableAdds(accounts[..i], accounts[i..]);
    if i < |accounts| {
      assert accounts[..i + 1] == accounts[..i] + [accounts[i]];
      ClaimableAdds(accounts[..i], [accounts[i]]);
      assert [accounts[i]][1..] == [];
    }
  }

  /** `check_state`: one pass with a set of licences seen and a checked sum. */
  method CheckState(s: Ledger) returns (ok: bool)
    ensures ok <==> Checked(s)
  {
    if TreasuryTotal(s.utxos) >= U64 || s.reserved > TreasuryTotal(s.utxos) {
      return false;
    }
    var seen: set<LicenceId> := {};
    var sum, i := 0, 0;
    while i < |s.accounts|
      invariant 0 <= i <= |s.accounts|
      invariant sum == Claimable(s.accounts[..i])
      invariant seen == Ids(s.accounts[..i])
      invariant OneEach(s.accounts[..i])
      invariant AllChecked(s.licences, s.accounts[..i])
    {
      var a := s.accounts[i];
      ClaimablePrefix(s.accounts, i);
      ClaimablePrefix(s.accounts, i + 1);
      SeenStep(s.licences, s.accounts, i);
      if a.licence in seen || !AccountChecked(s.licences, a) || sum + a.claimable >= U64 {
        return false;
      }
      seen := seen + {a.licence};
      sum := sum + a.claimable;
      i := i + 1;
    }
    assert s.accounts[..i] == s.accounts;
    return sum == s.reserved;
  }

  /** In every run the state passes the check as long as the Treasury sum fits 64 bits. */
  lemma RunsPassCheck(network: Network, b: Books, events: seq<Event>)
    requires Initial(b) && Run(Step(network), b, events).Success?
    ensures var s := Run(Step(network), b, events).value.ledger;
            Checked(s) <==> TreasuryTotal(s.utxos) < U64
  {
    RunsKeepInv(network, b, events);
    var s := Run(Step(network), b, events).value.ledger;
    forall i | 0 <= i < |s.accounts| ensures AccountChecked(s.licences, s.accounts[i]) {
      assert AccountOk(s.licences, s.epoch, s.accounts[i]);
      BoundaryIsDue(s.epoch);
    }
  }

  /** Every account belongs to the last boundary and is not due yet. */
  predicate Current(s: Ledger) {
    forall i :: 0 <= i < |s.accounts| ==>
      s.accounts[i].award == LastBoundary(s.epoch) && s.epoch < s.accounts[i].deadline
  }

  /** The check says no more and no less than the run invariant, up to what it cannot see. */
  lemma CheckedIff(s: Ledger)
    requires DistinctIds(s.licences) && Current(s)
    ensures Checked(s) <==> Inv(s) && TreasuryTotal(s.utxos) < U64
  {
    BoundaryIsDue(s.epoch);
    if Checked(s) {
      forall i | 0 <= i < |s.accounts| ensures AccountOk(s.licences, s.epoch, s.accounts[i]) {
        assert AccountChecked(s.licences, s.accounts[i]);
      }
    }
    if Inv(s) {
      forall i | 0 <= i < |s.accounts| ensures AccountChecked(s.licences, s.accounts[i]) {
        assert AccountOk(s.licences, s.epoch, s.accounts[i]);
      }
    }
  }

  lemma BoundaryIsDue(epoch: nat)
    ensures LastBoundary(epoch) > 0 ==> AwardDue(LastBoundary(epoch))
  {
    assert epoch == epoch / AWARD_INTERVAL * AWARD_INTERVAL + epoch % AWARD_INTERVAL;
  }

  // ------------------------------------------------------------- in place

  lemma {:induction false} ExpiredSplits(a: seq<Account>, x: Account, epoch: nat)
    ensures Expired(a + [x], epoch) == Expired(a, epoch) + if epoch >= x.deadline then [x] else []
  {
    if a == [] {
      assert a + [x] == [x];
      assert [x][1..] == [];
    } else {
      assert (a + [x])[1..] == a[1..] + [x] && (a + [x])[0] == a[0];
      ExpiredSplits(a[1..], x, epoch);
      var first := if epoch >= a[0].deadline then [a[0]] else [];
      assert Expired(a + [x], epoch) == first + Expired(a[1..] + [x], epoch);
    }
  }

  lemma {:induction false} RetainedSplits(a: seq<Account>, x: Account, epoch: nat)
    ensures Retained(a + [x], epoch) == Retained(a, epoch) + if epoch >= x.deadline then [] else [x]
  {
    if a == [] {
      assert a + [x] == [x];
      assert [x][1..] == [];
    } else {
      assert (a + [x])[1..] == a[1..] + [x] && (a + [x])[0] == a[0];
      RetainedSplits(a[1..], x, epoch);
      var first := if epoch >= a[0].deadline then [] else [a[0]];
      assert Retained(a + [x], epoch) == first + Retained(a[1..] + [x], epoch);
    }
  }

  lemma {:induction false} ExpiredPrefix(accounts: seq<Account>, i: nat, epoch: nat)
    requires i <= |accounts|
    ensures Claimable(Expired(accounts[..i], epoch)) <= Claimable(Expired(accounts, epoch))
    decreases |accounts| - i
  {
    if i == |accounts| {
      assert accounts[..i] == accounts;
    } else {
      ExpiredPrefix(accounts, i + 1, epoch);
      assert accounts[..i + 1] == accounts[..i] + [accounts[i]];
      ExpiredSplits(accounts[..i], accounts[i], epoch);
      ClaimableAdds(Expired(accounts[..i], epoch), if epoch >= accounts[i].deadline then [accounts[i]] else []);
    }
  }

  /** One more account drained. */
  lemma DrainStep(accounts: seq<Account>, i: nat, epoch: nat)
    requires i < |accounts|
    ensures Retained(accounts[..i + 1], epoch)
            == Retained(accounts[..i], epoch) + if epoch >= accounts[i].deadline then [] else [accounts[i]]
    ensures Claimable(Expired(accounts[..i + 1], epoch))
            == Claimable(Expired(accounts[..i], epoch))
               + if epoch >= accounts[i].deadline then accounts[i].claimable else 0
  {
    assert accounts[..i + 1] == accounts[..i] + [accounts[i]];
    ExpiredSplits(accounts[..i], accounts[i], epoch);
    RetainedSplits(accounts[..i], accounts[i], epoch);
    ClaimableAdds(Expired(accounts[..i], epoch), if epoch >= accounts[i].deadline then [accounts[i]] else []);
    assert [accounts[i]][1..] == [];
  }

  /** An award changes the accounts and the reserve only. */
  lemma AwardFrame(s: Ledger, epoch: nat)
    ensures Award(s, epoch).Success? ==>
              var r := Award(s, epoch).value;
              r.returned == 0 && r.ledger == s.(accounts := r.ledger.accounts, reserved := r.ledger.reserved)
  {
  }

  class NodeState {
    var epoch: nat
    var height: nat
    var licences: seq<Licence>
    var utxos: seq<Utxo>
    var accounts: seq<Account>
    var reserved: nat

    constructor (s: Ledger)
      ensures View() == s
    {
      epoch, height, licences := s.epoch, s.height, s.licences;
      utxos, accounts, reserved := s.utxos, s.accounts, s.reserved;
    }

    function View(): Ledger
      reads this
    {
      Ledger(epoch, height, licences, utxos, accounts, reserved)
    }

    /** The draining loop at the head of `process_epoch`. */
    method DrainExpired(at: nat) returns (ok: bool, returned: nat)
      modifies this`accounts
      ensures ok <==> Due(old(View()), at) < U64
      ensures ok ==> returned == Due(old(View()), at) && accounts == Retained(old(accounts), at)
    {
      var retained: seq<Account> := [];
      var i := 0;
      returned := 0;
      while i < |accounts|
        invariant 0 <= i <= |accounts| && accounts == old(accounts)
        invariant retained == Retained(accounts[..i], at)
        invariant returned == Claimable(Expired(accounts[..i], at)) < U64
      {
        DrainStep(accounts, i, at);
        ExpiredPrefix(accounts, i + 1, at);
        if at >= accounts[i].deadline {
          if returned + accounts[i].claimable >= U64 {
            return false, 0;
          }
          returned := returned + accounts[i].claimable;
        } else {
          retained := retained + [accounts[i]];
        }
        i := i + 1;
      }
      assert accounts[..i] == accounts;
      accounts := retained;
      ok := true;
    }

    /** `process_epoch` */
    method ProcessEpoch(at: nat) returns (ok: bool, returned: nat, awarded: nat)
      modifies this`accounts, this`reserved
      ensures ok <==> Dividends.ProcessEpoch(old(View()), at).Success?
      ensures ok ==> Dividends.ProcessEpoch(old(View()), at) == Success(Report(View(), returned, awarded))
    {
      awarded := 0;
      ok, returned := DrainExpired(at);
      if !ok || returned > reserved {
        return false, 0, 0;
      }
      reserved := reserved - returned;
      assert View() == Expire(old(View()), at);
      if !AwardDue(at) {
        return true, returned, 0;
      }
      if exists a :: a in accounts && a.award == at {
        return false, 0, 0;
      }
      AwardFrame(View(), at);
      var r := Award(View(), at);
      if r.Failure? {
        return false, 0, 0;
      }
      accounts, reserved := r.value.ledger.accounts, r.value.ledger.reserved;
      awarded := r.value.awarded;
    }

    /** The input loop of `validate_and_apply_payment`. */
    method GatherInputs(tx: Tx, id: Payload) returns (r: Result<nat>)
      requires |tx.witnesses| == |tx.inputs|
      ensures r == Gather(utxos, tx, id, height + 1, |tx.inputs|)
    {
      var sum, i := 0, 0;
      while i < |tx.inputs|
        invariant 0 <= i <= |tx.inputs|
        invariant Gather(utxos, tx, id, height + 1, i) == Success(sum)
      {
        if !InputOk(utxos, tx, id, height + 1, i)
           || sum + Find(utxos, tx.inputs[i].at).value.amount >= U64
        {
          GatherStops(utxos, tx, id, height + 1, i + 1, |tx.inputs|);
          return Failure;
        }
        sum := sum + Find(utxos, tx.inputs[i].at).value.amount;
        i := i + 1;
      }
      return Success(sum);
    }

    /** The removal loop of `validate_and_apply_payment`. */
    method RemoveInputs(inputs: seq<Input>)
      requires forall i :: 0 <= i < |inputs| ==> inputs[i].Spend?
      modifies this`utxos
      ensures utxos == Consume(old(utxos), inputs, |inputs|)
    {
      var i := 0;
      while i < |inputs|
        invariant 0 <= i <= |inputs|
        invariant utxos == Consume(old(utxos), inputs, i)
      {
        utxos := Without(utxos, inputs[i].at);
        i := i + 1;
      }
    }

    /** `validate_and_apply_payment`; refused payments change nothing. */
    method ValidateAndApplyPayment(tx: Tx, claim: Claim, network: Network) returns (ok: bool)
      modifies this`utxos
      ensures ok <==> Payment(old(utxos), tx, claim, network, epoch, height + 1).Success?
      ensures utxos == if ok then Payment(old(utxos), tx, claim, network, epoch, height + 1).value else old(utxos)
    {
      if tx.id != claim.payment || tx.version != 1 || tx.network != network.id
         || epoch < tx.validFrom || (tx.expiry != 0 && epoch > tx.expiry)
         || |tx.inputs| == 0 || |tx.inputs| > 1024 || |tx.witnesses| != |tx.inputs|
      {
        return false;
      }
      var sum := GatherInputs(tx, claim.id);
      if sum.Failure? || !OutputsPay(tx.outputs, claim, sum.value, network) {
        return false;
      }
      GatherChecks(utxos, tx, claim.id, height + 1, |tx.inputs|);
      RemoveInputs(tx.inputs);
      utxos := utxos + Created(tx, height + 1, false);
      return true;
    }

    /** `apply_operation`; a refused claim changes nothing. */
    method ApplyOperation(claim: Claim) returns (ok: bool)
      modifies this`accounts, this`reserved
      ensures ok <==> ApplyClaim(old(View()), claim).Success?
      ensures View() == if ok then ApplyClaim(old(View()), claim).value else old(View())
    {
      var l, a := LicenceAt(licences, claim.licence), AccountAt(accounts, claim.licence);
      if l.None? || a.None? {
        return false;
      }
      var licence, account := licences[l.value], accounts[a.value];
      if licence.status == Revoked || licence.ownerSequence != claim.ownerSequence {
        return false;
      }
      if epoch < account.award || epoch >= account.deadline {
        return false;
      }
      if claim.amount == 0 || claim.amount > account.claimable || !claim.signed {
        return false;
      }
      if reserved < claim.amount {
        return false;
      }
      accounts := accounts[a.value := account.(claimable := account.claimable - claim.amount)];
      reserved := reserved - claim.amount;
      return true;
    }
  }

  /** A refused input refuses the payment. */
  lemma {:induction false} GatherStops(utxos: seq<Utxo>, tx: Tx, id: Payload, height: nat, j: nat, k: nat)
    requires j <= k <= |tx.inputs| == |tx.witnesses| && Gather(utxos, tx, id, height, j).Failure?
    ensures Gather(utxos, tx, id, height, k).Failure?
  {
    if j < k {
      GatherStops(utxos, tx, id, height, j, k - 1);
    }
  }

  lemma {:induction false} GatherChecks(utxos: seq<Utxo>, tx: Tx, id: Payload, height: nat, k: nat)
    requires k <= |tx.inputs| == |tx.witnesses| && Gather(utxos, tx, id, height, k).Success?
    ensures forall j :: 0 <= j < k ==> tx.inputs[j].Spend?
  {
    if k > 0 {
      GatherChecks(utxos, tx, id, height, k - 1);
    }
  }
}
