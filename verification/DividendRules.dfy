/**
 Who gets a dividend, and which claims and payments are accepted, said in the fields of
 the licences, accounts and outputs concerned (crates/mutiny-node/src/dividends.rs).
 */
module DividendRules {
  import opened Wrappers
  import opened Arithmetic
  import opened Licences
  import opened Dividends
  import opened DividendProofs

  // ------------------------------------------------------------------- awards

  /** A licence takes part in an award: in force by then, not suspended, never revoked. */
  predicate TakesPart(l: Licence, epoch: nat) {
    l.status != Revoked && l.activation <= epoch && l.suspendedUntil <= epoch && l.revocation == 0
  }

  /** The licences that take part, by their place in the list. */
  function Participants(licences: seq<Licence>, epoch: nat): set<nat> {
    set i: nat | i < |licences| && TakesPart(licences[i], epoch)
  }

  predicate HasAccount(accounts: seq<Account>, id: LicenceId) {
    exists a :: a in accounts && a.licence == id
  }

  lemma OpenedEligible(l: Licence, epoch: nat)
    ensures Eligible(Activated(l, epoch), epoch) <==> TakesPart(l, epoch)
    ensures Activated(l, epoch).id == l.id
  {
  }

  /** The ids of the licences that take part, once for each. */
  lemma {:induction false} EligibleAre(licences: seq<Licence>, epoch: nat)
    ensures var ids := EligibleIds(ActivateAll(licences, epoch), epoch);
            && (forall id :: id in ids <==> exists i :: i in Participants(licences, epoch) && licences[i].id == id)
            && |ids| == |Participants(licences, epoch)|
  {
    if licences == [] {
      assert Participants(licences, epoch) == {};
    } else {
      var rest := licences[1..];
      EligibleAre(rest, epoch);
      OpenedEligible(licences[0], epoch);
      assert ActivateAll(licences, epoch)[1..] == ActivateAll(rest, epoch);
      ShiftedSize(licences, epoch);
      var ids, tail := EligibleIds(ActivateAll(licences, epoch), epoch), EligibleIds(ActivateAll(rest, epoch), epoch);
      forall id ensures id in ids <==> exists i :: i in Participants(licences, epoch) && licences[i].id == id {
        if id in tail {
          var i :| i in Participants(rest, epoch) && rest[i].id == id;
          assert i + 1 in Participants(licences, epoch);
        }
        if i :| i in Participants(licences, epoch) && licences[i].id == id {
          if i > 0 {
            assert rest[i - 1] == licences[i];
            assert i - 1 in Participants(rest, epoch);
          }
        }
        if TakesPart(licences[0], epoch) {
          assert 0 in Participants(licences, epoch);
        }
      }
    }
  }

  lemma ShiftedSize(licences: seq<Licence>, epoch: nat)
    requires licences != []
    ensures |Participants(licences, epoch)|
            == |Participants(licences[1..], epoch)| + if TakesPart(licences[0], epoch) then 1 else 0
  {
    var all, rest := Participants(licences, epoch), Participants(licences[1..], epoch);
    var shifted := Shifted(rest);
    ShiftKeepsSize(rest);
    forall i | i in all && i > 0 ensures i in shifted {
      assert licences[1..][i - 1] == licences[i];
      assert i - 1 in rest;
    }
    assert forall i :: i in shifted ==> licences[i] == licences[1..][i - 1];
    if TakesPart(licences[0], epoch) {
      assert all == shifted + {0};
    } else {
      assert all == shifted;
    }
  }

  function Shifted(s: set<nat>): set<nat> {
    set i | i in s :: i + 1
  }

  lemma {:induction false} ShiftKeepsSize(s: set<nat>)
    ensures |Shifted(s)| == |s|
  {
    if s != {} {
      var x :| x in s;
      ShiftKeepsSize(s - {x});
      assert x + 1 !in Shifted(s - {x});
      forall y ensures y in Shifted(s) <==> y in Shifted(s - {x}) + {x + 1} {
        if y in Shifted(s) && y != x + 1 {
          assert y - 1 in s - {x};
        }
      }
      assert Shifted(s) == Shifted(s - {x}) + {x + 1};
    }
  }

  /**
   The accounts are one for each licence that takes part, with a claim window of 2^16
   epochs and the same whole share of half the Treasury.
   */
  ghost predicate GoesTo(licences: seq<Licence>, epoch: nat, accounts: seq<Account>, treasury: nat) {
    var n := |Participants(licences, epoch)|;
    && n > 0 && |accounts| == n
    && (forall id :: HasAccount(accounts, id) <==>
          exists i :: i in Participants(licences, epoch) && licences[i].id == id)
    && (forall a :: a in accounts ==>
          a.award == epoch && a.deadline == epoch + 0x1_0000 && a.claimable == treasury / 2 / n)
  }

  ghost predicate Shared(licences: seq<Licence>, epoch: nat, accounts: seq<Account>, treasury: nat) {
    var ids := EligibleIds(ActivateAll(licences, epoch), epoch);
    ids != [] && SharedEqually(accounts, ids, epoch, Share(treasury, |ids|))
  }

  lemma SharesToParticipants(licences: seq<Licence>, epoch: nat, accounts: seq<Account>, treasury: nat)
    requires Shared(licences, epoch, accounts, treasury)
    ensures GoesTo(licences, epoch, accounts, treasury)
  {
    var ids := EligibleIds(ActivateAll(licences, epoch), epoch);
    EligibleAre(licences, epoch);
    SharesGoTo(accounts, ids, epoch, Share(treasury, |ids|));
  }

  /** An award opens accounts for exactly the licences that take part. */
  lemma AwardGoesTo(s: Ledger, r: Report)
    requires Inv(s) && Tick(s) == Success(r) && r.awarded > 0
    ensures GoesTo(s.licences, s.epoch + 1, r.ledger.accounts, TreasuryTotal(s.utxos))
  {
    AwardSplitsEqually(s, r);
    SomeTakePart(s, r);
    SharedAreParticipants(s, r.ledger.accounts);
  }

  lemma SharedAreParticipants(s: Ledger, accounts: seq<Account>)
    requires SharedAmongEligible(s, accounts) && EligibleIds(Opened(s).licences, s.epoch + 1) != []
    ensures GoesTo(s.licences, s.epoch + 1, accounts, TreasuryTotal(s.utxos))
  {
    SharesToParticipants(s.licences, s.epoch + 1, accounts, TreasuryTotal(s.utxos));
  }

  lemma SharesGoTo(accounts: seq<Account>, ids: seq<LicenceId>, epoch: nat, each: nat)
    requires SharedEqually(accounts, ids, epoch, each)
    ensures forall id :: HasAccount(accounts, id) <==> id in ids
    ensures forall a :: a in accounts ==> a.award == epoch && a.deadline == epoch + 0x1_0000 && a.claimable == each
  {
    forall id ensures HasAccount(accounts, id) <==> id in ids {
      if id in ids {
        assert Account(id, epoch, epoch + CLAIM_WINDOW, each) in accounts;
      }
    }
  }

  lemma SomeTakePart(s: Ledger, r: Report)
    requires Inv(s) && Tick(s) == Success(r) && r.awarded > 0
    ensures EligibleIds(Opened(s).licences, s.epoch + 1) != []
  {
    AwardedOnBoundary(s);
    DueAmount(s);
  }

  /**
   When a boundary comes, the shares of all licences that take part are awarded, unless
   half the Treasury does not hold one unit for each; between boundaries nothing is.
   */
  lemma AwardAmount(s: Ledger)
    requires Inv(s) && Tick(s).Success?
    ensures var epoch, n := s.epoch + 1, |Participants(s.licences, s.epoch + 1)|;
            Tick(s).value.awarded ==
              if epoch % 0x2_0000 == 0 && n > 0 then TreasuryTotal(s.utxos) / 2 / n * n else 0
  {
    EligibleAre(s.licences, s.epoch + 1);
    if AwardDue(s.epoch + 1) {
      DueAmount(s);
    } else {
      NotDue(s);
    }
  }

  lemma NotDue(s: Ledger)
    requires Tick(s).Success? && !AwardDue(s.epoch + 1)
    ensures Tick(s).value.awarded == 0 && (s.epoch + 1) % 0x2_0000 != 0
  {
  }

  lemma DueAmount(s: Ledger)
    requires Inv(s) && Tick(s).Success? && AwardDue(s.epoch + 1)
    ensures Tick(s).value.awarded == Granted(TreasuryTotal(s.utxos), |EligibleIds(Opened(s).licences, s.epoch + 1)|)
    ensures (s.epoch + 1) % 0x2_0000 == 0
  {
    AwardTickReport(s);
    AwardedGrant(Opened(s), s.epoch + 1, s.reserved, Tick(s));
  }

  lemma AwardedGrant(s: Ledger, epoch: nat, returned: nat, tick: Result<Report>)
    requires Due(s, epoch) == s.reserved && tick.Success?
    requires tick == (var r :- Award(Expire(s, epoch), epoch); Success(r.(returned := returned)))
    ensures tick.value.awarded == Granted(TreasuryTotal(s.utxos), |EligibleIds(s.licences, epoch)|)
  {
  }

  // ------------------------------------------------------------------ claims

  /**
   The licence at `i` is not revoked and still has the owner sequence that the claim was
   signed for; its account at `k` is within its claim window and holds the amount.
   */
  predicate MayClaim(s: Ledger, claim: Claim, i: nat, k: nat)
    requires i < |s.licences| && k < |s.accounts|
  {
    && s.licences[i].id == claim.licence == s.accounts[k].licence
    && s.licences[i].status != Revoked && s.licences[i].ownerSequence == claim.ownerSequence
    && s.accounts[k].award <= s.epoch < s.accounts[k].deadline
    && 0 < claim.amount <= s.accounts[k].claimable && claim.signed
  }

  /** A claim is accepted exactly when some licence and its account allow it. */
  lemma ClaimIff(s: Ledger, claim: Claim)
    requires Inv(s)
    ensures ApplyClaim(s, claim).Success? <==>
            exists i: nat, k: nat :: i < |s.licences| && k < |s.accounts| && MayClaim(s, claim, i, k)
  {
    ClaimAllowed(s, claim);
  }

  lemma ClaimAllowed(s: Ledger, claim: Claim)
    requires DistinctIds(s.licences) && OneEach(s.accounts) && s.reserved == Claimable(s.accounts)
    ensures ApplyClaim(s, claim).Success? <==>
            exists i: nat, k: nat :: i < |s.licences| && k < |s.accounts| && MayClaim(s, claim, i, k)
  {
    LicenceAtIs(s.licences, claim.licence);
    AccountAtIs(s.accounts, claim.licence);
    var l, a := LicenceAt(s.licences, claim.licence), AccountAt(s.accounts, claim.licence);
    if a.Some? {
      ClaimableReplace(s.accounts, a.value, s.accounts[a.value]);
    }
    if l.Some? && a.Some? {
      assert ApplyClaim(s, claim).Success? <==> MayClaim(s, claim, l.value, a.value);
    }
  }

  lemma {:induction false} AccountAtIs(accounts: seq<Account>, id: LicenceId)
    requires OneEach(accounts)
    ensures forall i :: 0 <= i < |accounts| ==> (accounts[i].licence == id <==> AccountAt(accounts, id) == Some(i))
  {
    if accounts != [] {
      var rest := accounts[1..];
      AccountAtIs(rest, id);
      forall i | 0 <= i < |accounts| ensures accounts[i].licence == id <==> AccountAt(accounts, id) == Some(i) {
        assert i > 0 ==> accounts[i] == rest[i - 1];
      }
    }
  }

  // ---------------------------------------------------------------- payments

  /** The output found at an outpoint. */
  lemma {:induction false} FindIs(utxos: seq<Utxo>, o: Outpoint)
    ensures Find(utxos, o).Some? ==> Find(utxos, o).value in utxos && Find(utxos, o).value.at == o
    ensures Find(utxos, o).None? ==> forall u :: u in utxos ==> u.at != o
  {
    if utxos != [] && utxos[0].at != o {
      FindIs(utxos[1..], o);
    }
  }

  function AmountAt(utxos: seq<Utxo>, i: Input): nat {
    if i.Spend? && Find(utxos, i.at).Some? then Find(utxos, i.at).value.amount else 0
  }

  function InputTotal(utxos: seq<Utxo>, inputs: seq<Input>): nat {
    if inputs == [] then 0
    else InputTotal(utxos, inputs[..|inputs| - 1]) + AmountAt(utxos, inputs[|inputs| - 1])
  }

  /**
   An input that a claim may spend: not spent before in this transaction, held by the
   Treasury, sixteen blocks old if it is a coinbase, and witnessed by the claim.
   */
  predicate TreasuryInput(utxos: seq<Utxo>, tx: Tx, id: Payload, height: nat, k: nat)
    requires k < |tx.inputs| == |tx.witnesses|
  {
    && tx.inputs[k].Spend? && (forall j :: 0 <= j < k ==> tx.inputs[j] != tx.inputs[k])
    && tx.witnesses[k] == ProtocolAuth(id)
    && match Find(utxos, tx.inputs[k].at)
       case None => false
       case Some(u) => (u.kind == Treasury || u.kind == LicencePayment) && (u.coinbase ==> u.height + 16 <= height)
  }

  lemma {:induction false} GatherIff(utxos: seq<Utxo>, tx: Tx, id: Payload, height: nat, n: nat)
    requires n <= |tx.inputs| == |tx.witnesses|
    ensures Gather(utxos, tx, id, height, n).Success? <==>
            && (forall k :: 0 <= k < n ==> TreasuryInput(utxos, tx, id, height, k))
            && InputTotal(utxos, tx.inputs[..n]) < U64
    ensures Gather(utxos, tx, id, height, n).Success? ==>
              Gather(utxos, tx, id, height, n) == Success(InputTotal(utxos, tx.inputs[..n]))
  {
    if n > 0 {
      GatherIff(utxos, tx, id, height, n - 1);
      assert tx.inputs[..n][..n - 1] == tx.inputs[..n - 1];
      InputIs(utxos, tx, id, height, n - 1);
    }
  }

  lemma InputIs(utxos: seq<Utxo>, tx: Tx, id: Payload, height: nat, k: nat)
    requires k < |tx.inputs| == |tx.witnesses|
    ensures InputOk(utxos, tx, id, height, k) <==> TreasuryInput(utxos, tx, id, height, k)
  {
    assert tx.inputs[k] in tx.inputs[..k] <==> exists j :: 0 <= j < k && tx.inputs[j] == tx.inputs[k];
  }

  /** The claimant gets the amount; what is left over goes back to the Treasury, in one output. */
  predicate PaysOut(outputs: seq<Output>, claim: Claim, total: nat, treasury: Payload) {
    || (total == claim.amount && outputs == [Output(claim.amount, PubkeyHash, claim.destination)])
    || (total > claim.amount
        && outputs == [Output(claim.amount, PubkeyHash, claim.destination),
                       Output(total - claim.amount, Treasury, treasury)])
  }

  predicate TermsOk(tx: Tx, claim: Claim, network: Network, epoch: nat) {
    && tx.id == claim.payment && tx.version == 1 && tx.network == network.id
    && tx.validFrom <= epoch && (tx.expiry == 0 || epoch <= tx.expiry)
    && 1 <= |tx.inputs| <= 1024 && |tx.witnesses| == |tx.inputs|
  }

  /**
   A payment is accepted exactly when it is the transaction the claim names, valid now,
   spends Treasury outputs that fit 64 bits, and pays out what it spends.
   */
  lemma PaymentIff(utxos: seq<Utxo>, tx: Tx, claim: Claim, network: Network, epoch: nat, height: nat)
    ensures Payment(utxos, tx, claim, network, epoch, height).Success? <==>
            && TermsOk(tx, claim, network, epoch)
            && (forall k :: 0 <= k < |tx.inputs| ==> TreasuryInput(utxos, tx, claim.id, height, k))
            && InputTotal(utxos, tx.inputs) < U64
            && PaysOut(tx.outputs, claim, InputTotal(utxos, tx.inputs), network.treasury)
  {
    if TermsOk(tx, claim, network, epoch) {
      GatherIff(utxos, tx, claim.id, height, |tx.inputs|);
      assert tx.inputs[..|tx.inputs|] == tx.inputs;
      PaysIs(tx.outputs, claim, InputTotal(utxos, tx.inputs), network);
    }
  }

  lemma PaysIs(outputs: seq<Output>, claim: Claim, total: nat, network: Network)
    ensures OutputsPay(outputs, claim, total, network) <==> PaysOut(outputs, claim, total, network.treasury)
  {
  }

  predicate DistinctOutpoints(utxos: seq<Utxo>) {
    forall i, j :: 0 <= i < j < |utxos| ==> utxos[i].at != utxos[j].at
  }

  /**
   What a payment leaves at every outpoint: nothing where it spent, its own outputs of this
   height, and everything else as it was.
   */
  lemma PaymentEffect(
    utxos: seq<Utxo>, tx: Tx, claim: Claim, network: Network, epoch: nat, height: nat, o: Outpoint)
    requires Payment(utxos, tx, claim, network, epoch, height).Success?
    requires DistinctOutpoints(utxos) && forall u :: u in utxos ==> u.at.txid != tx.id
    ensures Find(Payment(utxos, tx, claim, network, epoch, height).value, o) ==
            if o.txid == tx.id then
              if o.index < |tx.outputs| then
                var p := tx.outputs[o.index]; Some(Utxo(o, p.amount, p.kind, p.payload, height, false))
              else None
            else if Spend(o) in tx.inputs then None
            else Find(utxos, o)
  {
    var kept := Consume(utxos, tx.inputs, |tx.inputs|);
    assert tx.inputs[..|tx.inputs|] == tx.inputs;
    FindAppend(kept, Created(tx, height, false), o);
    FindCreated(tx, height, o);
    FindIs(utxos, o);
    ConsumedGone(utxos, tx.inputs, |tx.inputs|, o);
    if Spend(o) !in tx.inputs {
      ConsumeOthers(utxos, tx.inputs, |tx.inputs|, o);
    }
  }

  lemma {:induction false} FindAppend(a: seq<Utxo>, b: seq<Utxo>, o: Outpoint)
    ensures Find(a + b, o) == if Find(a, o).Some? then Find(a, o) else Find(b, o)
  {
    if a == [] {
      assert a + b == b;
    } else {
      FindAppend(a[1..], b, o);
      assert (a + b)[1..] == a[1..] + b;
    }
  }

  lemma FindCreated(tx: Tx, height: nat, o: Outpoint)
    ensures var made := Created(tx, height, false);
            && (o.txid == tx.id && o.index < |tx.outputs| ==> Find(made, o) == Some(made[o.index]))
            && (o.txid != tx.id || o.index >= |tx.outputs| ==> Find(made, o).None?)
  {
    var made := Created(tx, height, false);
    FindIs(made, o);
    if o.txid == tx.id && o.index < |tx.outputs| {
      assert made[o.index].at == o && made[o.index] in made;
    }
  }

  lemma {:induction false} WithoutGone(utxos: seq<Utxo>, o: Outpoint)
    requires DistinctOutpoints(utxos)
    ensures Find(Without(utxos, o), o).None?
    ensures DistinctOutpoints(Without(utxos, o)) && forall u :: u in Without(utxos, o) ==> u in utxos
  {
    if utxos != [] {
      var rest := utxos[1..];
      if utxos[0].at == o {
        FindIs(rest, o);
      } else {
        WithoutGone(rest, o);
        var kept := Without(rest, o);
        assert ([utxos[0]] + kept)[1..] == kept;
        forall j | 0 <= j < |kept| ensures kept[j].at != utxos[0].at {
          assert kept[j] in rest;
        }
      }
    }
  }

  lemma {:induction false} ConsumedGone(utxos: seq<Utxo>, inputs: seq<Input>, k: nat, o: Outpoint)
    requires DistinctOutpoints(utxos) && k <= |inputs|
    ensures DistinctOutpoints(Consume(utxos, inputs, k)) && forall u :: u in Consume(utxos, inputs, k) ==> u in utxos
    ensures Spend(o) in inputs[..k] ==> Find(Consume(utxos, inputs, k), o).None?
  {
    if k > 0 {
      ConsumedGone(utxos, inputs, k - 1, o);
      assert inputs[..k] == inputs[..k - 1] + [inputs[k - 1]];
      if inputs[k - 1].Spend? {
        WithoutGone(Consume(utxos, inputs, k - 1), inputs[k - 1].at);
        if inputs[k - 1].at != o {
          WithoutOthers(Consume(utxos, inputs, k - 1), inputs[k - 1].at, o);
        }
      }
    }
  }
}
