/**
 Reserve conservation over every run of epoch ticks, claims and ordinary blocks.
 */
module DividendProofs {
  import opened Wrappers
  import opened Arithmetic
  import opened Sorting
  import opened Licences
  import opened Dividends

  // -------------------------------------------------------------- invariant

  /** The award boundary at or before `epoch`. */
  function LastBoundary(epoch: nat): nat {
    epoch - epoch % AWARD_INTERVAL
  }

  /** A live account belongs to the last award boundary and has not reached its deadline. */
  predicate AccountOk(licences: seq<Licence>, epoch: nat, a: Account) {
    && Known(licences, a.licence)
    && 0 < a.award == LastBoundary(epoch)
    && a.deadline == a.award + CLAIM_WINDOW < U64
    && epoch < a.deadline
  }

  predicate AccountsOk(licences: seq<Licence>, epoch: nat, accounts: seq<Account>) {
    forall i :: 0 <= i < |accounts| ==> AccountOk(licences, epoch, accounts[i])
  }

  predicate OneEach(accounts: seq<Account>) {
    forall i, j :: 0 <= i < j < |accounts| ==> accounts[i].licence != accounts[j].licence
  }

  predicate Inv(s: Ledger) {
    && s.reserved == Claimable(s.accounts) <= TreasuryTotal(s.utxos)
    && s.reserved < U64
    && DistinctIds(s.licences)
    && AccountsOk(s.licences, s.epoch, s.accounts)
    && OneEach(s.accounts)
  }

  function Available(s: Ledger): int {
    TreasuryTotal(s.utxos) - s.reserved
  }

  // -------------------------------------------------------------- epoch tick

  /** The epoch after the tip: activations, then `process_epoch`. */
  function Tick(s: Ledger): Result<Report> {
    ProcessEpoch(Opened(s), s.epoch + 1)
  }

  function Opened(s: Ledger): Ledger {
    s.(epoch := s.epoch + 1, licences := ActivateAll(s.licences, s.epoch + 1))
  }

  lemma {:induction false} ExpiryPartitions(accounts: seq<Account>, epoch: nat)
    ensures Claimable(Expired(accounts, epoch)) + Claimable(Retained(accounts, epoch)) == Claimable(accounts)
  {
    if accounts != [] {
      ExpiryPartitions(accounts[1..], epoch);
      var first := if epoch >= accounts[0].deadline then [accounts[0]] else [];
      var kept := if epoch >= accounts[0].deadline then [] else [accounts[0]];
      ClaimableAdds(first, Expired(accounts[1..], epoch));
      ClaimableAdds(kept, Retained(accounts[1..], epoch));
    }
  }

  lemma {:induction false} RetainedMembers(accounts: seq<Account>, epoch: nat)
    ensures forall a :: a in Retained(accounts, epoch) ==> a in accounts && epoch < a.deadline
  {
    if accounts != [] {
      RetainedMembers(accounts[1..], epoch);
    }
  }

  lemma {:induction false} RetainedOneEach(accounts: seq<Account>, epoch: nat)
    requires OneEach(accounts)
    ensures OneEach(Retained(accounts, epoch))
  {
    if accounts != [] {
      RetainedOneEach(accounts[1..], epoch);
      RetainedMembers(accounts[1..], epoch);
      var tail := Retained(accounts[1..], epoch);
      forall j | 0 <= j < |tail| ensures tail[j].licence != accounts[0].licence {
        assert tail[j] in accounts[1..];
      }
    }
  }

  lemma BoundaryStep(epoch: nat)
    ensures (epoch + 1) % AWARD_INTERVAL == 0 ==> epoch + 1 == LastBoundary(epoch) + AWARD_INTERVAL
    ensures (epoch + 1) % AWARD_INTERVAL != 0 ==> LastBoundary(epoch + 1) == LastBoundary(epoch)
  {
  }

  lemma KnownAfterActivation(licences: seq<Licence>, epoch: nat, id: LicenceId)
    requires Known(licences, id)
    ensures Known(ActivateAll(licences, epoch), id)
  {
    var i :| 0 <= i < |licences| && licences[i].id == id;
    assert ActivateAll(licences, epoch)[i].id == id;
  }

  /** Every account of an earlier award has expired when the next award is due. */
  lemma ExpiredByNextAward(licences: seq<Licence>, epoch: nat, accounts: seq<Account>)
    requires AccountsOk(licences, epoch, accounts) && (epoch + 1) % AWARD_INTERVAL == 0
    ensures Retained(accounts, epoch + 1) == []
  {
    RetainedMembers(accounts, epoch + 1);
    BoundaryStep(epoch);
    var kept := Retained(accounts, epoch + 1);
    if a :| a in kept {
      assert false;
    }
  }

  lemma RetainedOk(licences: seq<Licence>, epoch: nat, accounts: seq<Account>)
    requires AccountsOk(licences, epoch, accounts)
    ensures AccountsOk(ActivateAll(licences, epoch + 1), epoch + 1, Retained(accounts, epoch + 1))
  {
    var kept := Retained(accounts, epoch + 1);
    RetainedMembers(accounts, epoch + 1);
    BoundaryStep(epoch);
    forall i | 0 <= i < |kept| ensures AccountOk(ActivateAll(licences, epoch + 1), epoch + 1, kept[i]) {
      assert kept[i] in accounts;
      KnownAfterActivation(licences, epoch + 1, kept[i].licence);
    }
  }

  // ------------------------------------------------------------------- award

  lemma {:induction false} EligibleKnown(licences: seq<Licence>, epoch: nat)
    ensures forall id :: id in EligibleIds(licences, epoch) ==> Known(licences, id)
  {
    if licences != [] {
      EligibleKnown(licences[1..], epoch);
      forall id | id in EligibleIds(licences, epoch) ensures Known(licences, id) {
        if id != licences[0].id {
          assert Known(licences[1..], id);
          var i :| 0 <= i < |licences[1..]| && licences[1..][i].id == id;
          assert licences[i + 1].id == id;
        }
      }
    }
  }

  predicate Distinct(ids: seq<LicenceId>) {
    forall i, j :: 0 <= i < j < |ids| ==> ids[i] != ids[j]
  }

  lemma {:induction false} EligibleDistinct(licences: seq<Licence>, epoch: nat)
    requires DistinctIds(licences)
    ensures Distinct(EligibleIds(licences, epoch))
  {
    if licences != [] {
      EligibleDistinct(licences[1..], epoch);
      EligibleKnown(licences[1..], epoch);
      var tail := EligibleIds(licences[1..], epoch);
      forall j | 0 <= j < |tail| ensures tail[j] != licences[0].id {
        assert Known(licences[1..], tail[j]);
        var i :| 0 <= i < |licences[1..]| && licences[1..][i].id == tail[j];
        assert licences[i + 1].id == tail[j];
      }
      var ids := EligibleIds(licences, epoch);
      var n := if Eligible(licences[0], epoch) then 1 else 0;
      forall i, j | 0 <= i < j < |ids| ensures ids[i] != ids[j] {
        assert ids[j] == tail[j - n];
        assert i >= n ==> ids[i] == tail[i - n] && tail[i - n] != tail[j - n];
        assert i < n ==> ids[i] == licences[0].id;
      }
    }
  }

  lemma {:induction false} AwardsTotal(ids: seq<LicenceId>, epoch: nat, each: nat)
    ensures Claimable(Awards(ids, epoch, each)) == each * |ids|
  {
    if ids != [] {
      AwardsTotal(ids[1..], epoch, each);
      assert Awards(ids, epoch, each)[1..] == Awards(ids[1..], epoch, each);
      assert each * |ids| == each + each * (|ids| - 1);
    }
  }

  lemma {:induction false} InsertOneEach(le: (Account, Account) -> bool, a: Account, s: seq<Account>)
    requires OneEach(s) && forall x :: x in s ==> x.licence != a.licence
    ensures OneEach(Insert(le, a, s))
  {
    if s != [] && !le(a, s[0]) {
      InsertOneEach(le, a, s[1..]);
      var tail := Insert(le, a, s[1..]);
      forall j | 0 <= j < |tail| ensures tail[j].licence != s[0].licence {
        assert tail[j] in multiset(tail);
        assert tail[j] != a ==> tail[j] in multiset(s[1..]);
        assert tail[j] != a ==> tail[j] in s[1..];
      }
    }
  }

  lemma {:induction false} SortOneEach(le: (Account, Account) -> bool, s: seq<Account>)
    requires OneEach(s)
    ensures OneEach(Sort(le, s))
  {
    if s != [] {
      SortOneEach(le, s[1..]);
      var tail := Sort(le, s[1..]);
      forall x | x in tail ensures x.licence != s[0].licence {
        assert x in multiset(tail);
        assert x in s[1..];
      }
      InsertOneEach(le, s[0], tail);
    }
  }

  lemma SortAccountsOk(le: (Account, Account) -> bool, licences: seq<Licence>, epoch: nat, s: seq<Account>)
    requires AccountsOk(licences, epoch, s)
    ensures AccountsOk(licences, epoch, Sort(le, s))
  {
    var r := Sort(le, s);
    forall i | 0 <= i < |r| ensures AccountOk(licences, epoch, r[i]) {
      assert r[i] in multiset(r);
      assert r[i] in s;
    }
  }

  lemma SortedAccounts(le: (Account, Account) -> bool, licences: seq<Licence>, epoch: nat, s: seq<Account>)
    requires AccountsOk(licences, epoch, s) && OneEach(s)
    ensures var r := Sort(le, s);
            AccountsOk(licences, epoch, r) && OneEach(r) && Claimable(r) == Claimable(s)
  {
    ClaimableSort(le, s);
    SortOneEach(le, s);
    SortAccountsOk(le, licences, epoch, s);
  }

  lemma NewAccountsOk(licences: seq<Licence>, epoch: nat, each: nat)
    requires epoch > 0 && epoch % AWARD_INTERVAL == 0 && epoch + CLAIM_WINDOW < U64
    ensures AccountsOk(licences, epoch, Awards(EligibleIds(licences, epoch), epoch, each))
  {
    var ids := EligibleIds(licences, epoch);
    EligibleKnown(licences, epoch);
    forall i | 0 <= i < |ids| ensures AccountOk(licences, epoch, Account(ids[i], epoch, epoch + CLAIM_WINDOW, each)) {
      assert ids[i] in ids;
    }
  }

  /** The accounts an award opens. */
  lemma AwardedAccounts(licences: seq<Licence>, epoch: nat, each: nat)
    requires DistinctIds(licences) && epoch > 0 && epoch % AWARD_INTERVAL == 0 && epoch + CLAIM_WINDOW < U64
    ensures var ids := EligibleIds(licences, epoch);
            var accounts := Sort(ById(), Awards(ids, epoch, each));
            && AccountsOk(licences, epoch, accounts) && OneEach(accounts) && Claimable(accounts) == each * |ids|
  {
    var ids := EligibleIds(licences, epoch);
    var granted := Awards(ids, epoch, each);
    EligibleDistinct(licences, epoch);
    AwardsTotal(ids, epoch, each);
    NewAccountsOk(licences, epoch, each);
    assert forall i :: 0 <= i < |granted| ==> granted[i].licence == ids[i];
    SortedAccounts(ById(), licences, epoch, granted);
  }

  /** What an award made when nothing is outstanding can fail on. */
  lemma AwardFails(s: Ledger, epoch: nat)
    requires s.reserved == 0 && AwardDue(epoch) && s.accounts == []
    ensures Award(s, epoch).Failure? <==>
              || TreasuryTotal(s.utxos) >= U64
              || (epoch + CLAIM_WINDOW >= U64
                  && Granted(TreasuryTotal(s.utxos), |EligibleIds(s.licences, epoch)|) > 0)
  {
    ShareBounds(TreasuryTotal(s.utxos), |EligibleIds(s.licences, epoch)|);
  }

  /** The ledger after an award that grants something. */
  function Awarded(s: Ledger, epoch: nat): Ledger {
    var ids := EligibleIds(s.licences, epoch);
    s.(reserved := Granted(TreasuryTotal(s.utxos), |ids|),
       accounts := Sort(ById(), Awards(ids, epoch, Share(TreasuryTotal(s.utxos), |ids|))))
  }

  lemma AwardShape(s: Ledger, epoch: nat)
    requires s.reserved == 0 && s.accounts == [] && Award(s, epoch).Success?
    ensures var r := Award(s, epoch).value;
            || r == Report(s, 0, 0)
            || (r == Report(Awarded(s, epoch), 0, Awarded(s, epoch).reserved) && epoch + CLAIM_WINDOW < U64
                && Awarded(s, epoch).reserved < U64)
  {
    var ids := EligibleIds(s.licences, epoch);
    var granted := Awards(ids, epoch, Share(TreasuryTotal(s.utxos), |ids|));
    assert s.accounts + granted == granted;
  }

  lemma AwardedKeeps(s: Ledger, epoch: nat)
    requires Inv(s) && s.epoch == epoch && AwardDue(epoch) && s.accounts == [] && epoch + CLAIM_WINDOW < U64
    requires Awarded(s, epoch).reserved < U64
    ensures AwardOk(s, Report(Awarded(s, epoch), 0, Awarded(s, epoch).reserved))
  {
    var ids := EligibleIds(s.licences, epoch);
    ShareBounds(TreasuryTotal(s.utxos), |ids|);
    AwardedAccounts(s.licences, epoch, Share(TreasuryTotal(s.utxos), |ids|));
  }

  lemma AwardKeeps(s: Ledger, epoch: nat)
    requires Inv(s) && s.epoch == epoch && AwardDue(epoch) && s.accounts == []
    ensures Award(s, epoch).Success? ==> AwardOk(s, Award(s, epoch).value)
  {
    if Award(s, epoch).Success? {
      AwardShape(s, epoch);
      if Award(s, epoch).value != Report(s, 0, 0) {
        AwardedKeeps(s, epoch);
      }
    }
  }

  predicate AwardOk(s: Ledger, r: Report) {
    && Inv(r.ledger) && r.ledger.reserved == r.awarded && 2 * r.awarded <= TreasuryTotal(s.utxos)
    && r.ledger.utxos == s.utxos && r.ledger.epoch == s.epoch
  }

  lemma ActivationKeepsIds(licences: seq<Licence>, epoch: nat)
    requires DistinctIds(licences)
    ensures DistinctIds(ActivateAll(licences, epoch))
  {
  }

  /** Expiry never underflows the reserve. */
  lemma ExpiryKeeps(s: Ledger)
    requires Inv(s)
    ensures Due(Opened(s), s.epoch + 1) <= s.reserved
    ensures Inv(Expire(Opened(s), s.epoch + 1))
  {
    ExpiryPartitions(s.accounts, s.epoch + 1);
    RetainedOk(s.licences, s.epoch, s.accounts);
    RetainedOneEach(s.accounts, s.epoch + 1);
    ActivationKeepsIds(s.licences, s.epoch + 1);
  }

  /** A tick on an award boundary finds nothing outstanding. */
  lemma NothingOutstanding(s: Ledger)
    requires Inv(s) && AwardDue(s.epoch + 1)
    ensures Due(Opened(s), s.epoch + 1) == s.reserved
    ensures Expire(Opened(s), s.epoch + 1).accounts == []
  {
    ExpiredByNextAward(s.licences, s.epoch, s.accounts);
    ExpiryKeeps(s);
    ExpiryPartitions(s.accounts, s.epoch + 1);
  }

  lemma AwardTickShape(s: Ledger, epoch: nat)
    requires AwardDue(epoch) && Retained(s.accounts, epoch) == [] && Due(s, epoch) <= s.reserved < U64
    ensures ProcessEpoch(s, epoch) == (var r :- Award(Expire(s, epoch), epoch);
                                       Success(r.(returned := Due(s, epoch))))
  {
  }

  /** What a tick does to the reserve. */
  predicate TickOk(s: Ledger, r: Report) {
    && Inv(r.ledger) && r.ledger.utxos == s.utxos && r.ledger.epoch == s.epoch + 1
    && r.returned <= s.reserved && r.ledger.reserved == s.reserved - r.returned + r.awarded
    && (r.awarded > 0 ==> r.returned == s.reserved && AwardDue(s.epoch + 1))
    && (r.returned > 0 ==> r.returned == s.reserved)
    && 2 * r.awarded <= TreasuryTotal(s.utxos)
  }

  lemma AwardTickKeeps(s: Ledger, r: Report)
    requires Inv(s) && AwardDue(s.epoch + 1) && Due(Opened(s), s.epoch + 1) == s.reserved
    requires AwardOk(Expire(Opened(s), s.epoch + 1), r)
    ensures TickOk(s, r.(returned := s.reserved))
  {
  }

  lemma PlainTickShape(s: Ledger)
    requires !AwardDue(s.epoch + 1) && Due(Opened(s), s.epoch + 1) <= s.reserved < U64
    ensures Tick(s) == Success(Report(Expire(Opened(s), s.epoch + 1), Due(Opened(s), s.epoch + 1), 0))
  {
  }

  lemma PlainTickKeeps(s: Ledger)
    requires Inv(s) && !AwardDue(s.epoch + 1)
    ensures Due(Opened(s), s.epoch + 1) <= s.reserved
    ensures TickOk(s, Report(Expire(Opened(s), s.epoch + 1), Due(Opened(s), s.epoch + 1), 0))
  {
    ExpiryKeeps(s);
    ExpireTogether(s.licences, s.epoch, s.accounts);
    ExpiryPartitions(s.accounts, s.epoch + 1);
  }

  /** A tick on an award boundary is the award made after everything has expired. */
  lemma AwardTickReport(s: Ledger)
    requires Inv(s) && AwardDue(s.epoch + 1)
    ensures Due(Opened(s), s.epoch + 1) == s.reserved
    ensures Tick(s) ==
            (var r :- Award(Expire(Opened(s), s.epoch + 1), s.epoch + 1); Success(r.(returned := s.reserved)))
  {
    ExpiryKeeps(s);
    NothingOutstanding(s);
    AwardTickShape(Opened(s), s.epoch + 1);
  }

  lemma AwardAfterExpiry(s: Ledger, r: Report)
    requires Inv(s) && AwardDue(s.epoch + 1) && Due(Opened(s), s.epoch + 1) == s.reserved
    requires Award(Expire(Opened(s), s.epoch + 1), s.epoch + 1) == Success(r)
    ensures AwardOk(Expire(Opened(s), s.epoch + 1), r)
  {
    ExpiryKeeps(s);
    NothingOutstanding(s);
    AwardKeeps(Expire(Opened(s), s.epoch + 1), s.epoch + 1);
  }

  lemma AwardTick(s: Ledger)
    requires Inv(s) && AwardDue(s.epoch + 1) && Tick(s).Success?
    ensures TickOk(s, Tick(s).value)
  {
    AwardTickReport(s);
    var r := Award(Expire(Opened(s), s.epoch + 1), s.epoch + 1).value;
    AwardAfterExpiry(s, r);
    AwardTickKeeps(s, r);
  }

  lemma AwardTickIff(s: Ledger)
    requires Inv(s) && AwardDue(s.epoch + 1)
    ensures Tick(s).Success? <==>
              TreasuryTotal(s.utxos) < U64 && (s.epoch + 1 + CLAIM_WINDOW < U64 || NextGrant(s) == 0)
  {
    AwardTickReport(s);
    NothingOutstanding(s);
    AwardFails(Expire(Opened(s), s.epoch + 1), s.epoch + 1);
  }

  lemma TickKeeps(s: Ledger)
    requires Inv(s) && Tick(s).Success?
    ensures TickOk(s, Tick(s).value)
  {
    if AwardDue(s.epoch + 1) {
      AwardTick(s);
    } else {
      PlainTickKeeps(s);
      PlainTickShape(s);
    }
  }

  /** The accounts are exactly one for each of `ids`, each with `each` to claim. */
  predicate SharedEqually(accounts: seq<Account>, ids: seq<LicenceId>, epoch: nat, each: nat) {
    && |accounts| == |ids|
    && (forall a :: a in accounts ==> a.licence in ids && a == Account(a.licence, epoch, epoch + CLAIM_WINDOW, each))
    && (forall id :: id in ids ==> Account(id, epoch, epoch + CLAIM_WINDOW, each) in accounts)
  }

  lemma SortedShares(le: (Account, Account) -> bool, ids: seq<LicenceId>, epoch: nat, each: nat)
    ensures SharedEqually(Sort(le, Awards(ids, epoch, each)), ids, epoch, each)
  {
    var granted := Awards(ids, epoch, each);
    var accounts := Sort(le, granted);
    forall a | a in accounts ensures a.licence in ids && a == Account(a.licence, epoch, epoch + CLAIM_WINDOW, each) {
      assert a in multiset(accounts);
      assert a in granted;
    }
    forall id | id in ids ensures Account(id, epoch, epoch + CLAIM_WINDOW, each) in accounts {
      var i :| 0 <= i < |ids| && ids[i] == id;
      assert granted[i] in multiset(granted);
      assert granted[i] in multiset(accounts);
    }
  }

  lemma AwardedOnBoundary(s: Ledger)
    requires Tick(s).Success? && Tick(s).value.awarded > 0
    ensures AwardDue(s.epoch + 1)
  {
  }

  lemma AwardedShares(s: Ledger, epoch: nat)
    ensures var ids := EligibleIds(s.licences, epoch);
            SharedEqually(Awarded(s, epoch).accounts, ids, epoch, Share(TreasuryTotal(s.utxos), |ids|))
  {
    var ids := EligibleIds(s.licences, epoch);
    SortedShares(ById(), ids, epoch, Share(TreasuryTotal(s.utxos), |ids|));
  }

  lemma AwardLedger(s: Ledger, epoch: nat, r: Report)
    requires s.reserved == 0 && s.accounts == [] && Award(s, epoch) == Success(r) && r.awarded > 0
    ensures r.ledger == Awarded(s, epoch)
  {
    AwardShape(s, epoch);
  }

  lemma AwardTickLedger(s: Ledger, t: Ledger, r: Report)
    requires t.reserved == 0 && t.accounts == [] && r.awarded > 0
    requires Success(r) == (var a :- Award(t, s.epoch + 1); Success(a.(returned := s.reserved)))
    ensures r.ledger == Awarded(t, s.epoch + 1)
  {
    AwardLedger(t, s.epoch + 1, Award(t, s.epoch + 1).value);
  }

  predicate SharedAmongEligible(s: Ledger, accounts: seq<Account>) {
    var ids := EligibleIds(Opened(s).licences, s.epoch + 1);
    SharedEqually(accounts, ids, s.epoch + 1, Share(TreasuryTotal(s.utxos), |ids|))
  }

  lemma SharesAfter(s: Ledger, r: Report)
    requires Due(Opened(s), s.epoch + 1) == s.reserved && Expire(Opened(s), s.epoch + 1).accounts == [] && r.awarded > 0
    requires Success(r) == (var a :- Award(Expire(Opened(s), s.epoch + 1), s.epoch + 1);
                            Success(a.(returned := s.reserved)))
    ensures SharedAmongEligible(s, r.ledger.accounts)
  {
    var t := Expire(Opened(s), s.epoch + 1);
    AwardTickLedger(s, t, r);
    AwardedShares(t, s.epoch + 1);
  }

  /** An award opens one account for every eligible licence, all with the same share, and no other. */
  lemma AwardSplitsEqually(s: Ledger, r: Report)
    requires Inv(s) && Tick(s) == Success(r) && r.awarded > 0
    ensures SharedAmongEligible(s, r.ledger.accounts)
  {
    AwardedOnBoundary(s);
    AwardTickReport(s);
    NothingOutstanding(s);
    SharesAfter(s, r);
  }

  /** All live accounts have one deadline. */
  lemma {:induction false} ExpireTogether(licences: seq<Licence>, epoch: nat, accounts: seq<Account>)
    requires AccountsOk(licences, epoch, accounts)
    ensures Expired(accounts, epoch + 1) == [] || Retained(accounts, epoch + 1) == []
  {
    if accounts != [] {
      ExpireTogether(licences, epoch, accounts[1..]);
      if |accounts| > 1 {
        assert accounts[1].deadline == accounts[0].deadline;
      }
    }
  }

  /** An epoch tick fails only when the Treasury sum or a new deadline leaves 64 bits. */
  lemma TickSucceedsIff(s: Ledger)
    requires Inv(s)
    ensures Tick(s).Success? <==>
              || !AwardDue(s.epoch + 1)
              || (TreasuryTotal(s.utxos) < U64 && (s.epoch + 1 + CLAIM_WINDOW < U64 || NextGrant(s) == 0))
  {
    if AwardDue(s.epoch + 1) {
      AwardTickIff(s);
    } else {
      ExpiryKeeps(s);
      PlainTickShape(s);
    }
  }

  /** The award due at the next epoch if everything in the Treasury is available then. */
  function NextGrant(s: Ledger): nat {
    Granted(TreasuryTotal(s.utxos), |EligibleIds(Opened(s).licences, s.epoch + 1)|)
  }

  // ----------------------------------------------------------------- claims

  /** What removing one output takes away. */
  lemma {:induction false} WithoutTotals(utxos: seq<Utxo>, o: Outpoint)
    requires Find(utxos, o).Some?
    ensures var u := Find(utxos, o).value;
            && Value(Without(utxos, o)) == Value(utxos) - u.amount
            && TreasuryTotal(Without(utxos, o))
               == TreasuryTotal(utxos) - if TreasuryControlled(u.kind) then u.amount else 0
  {
    if utxos[0].at != o {
      WithoutTotals(utxos[1..], o);
      assert ([utxos[0]] + Without(utxos[1..], o))[1..] == Without(utxos[1..], o);
    }
  }

  lemma {:induction false} WithoutOthers(utxos: seq<Utxo>, o: Outpoint, p: Outpoint)
    requires o != p
    ensures Find(Without(utxos, o), p) == Find(utxos, p)
  {
    if utxos != [] && utxos[0].at != o {
      WithoutOthers(utxos[1..], o, p);
      assert ([utxos[0]] + Without(utxos[1..], o))[1..] == Without(utxos[1..], o);
    }
  }

  lemma {:induction false} ConsumeOthers(utxos: seq<Utxo>, inputs: seq<Input>, k: nat, p: Outpoint)
    requires k <= |inputs| && Spend(p) !in inputs[..k]
    ensures Find(Consume(utxos, inputs, k), p) == Find(utxos, p)
  {
    if k > 0 {
      assert forall x :: x in inputs[..k - 1] ==> x in inputs[..k];
      ConsumeOthers(utxos, inputs, k - 1, p);
      assert inputs[k - 1] in inputs[..k];
      if inputs[k - 1].Spend? {
        WithoutOthers(Consume(utxos, inputs, k - 1), inputs[k - 1].at, p);
      }
    }
  }

  /** Checked inputs are all Treasury outputs and are each removed once. */
  lemma {:induction false} GatheredTotals(utxos: seq<Utxo>, tx: Tx, id: Payload, height: nat, k: nat)
    requires k <= |tx.inputs| == |tx.witnesses| && Gather(utxos, tx, id, height, k).Success?
    ensures var sum := Gather(utxos, tx, id, height, k).value;
            && Value(Consume(utxos, tx.inputs, k)) == Value(utxos) - sum
            && TreasuryTotal(Consume(utxos, tx.inputs, k)) == TreasuryTotal(utxos) - sum
  {
    if k > 0 {
      GatheredTotals(utxos, tx, id, height, k - 1);
      assert InputOk(utxos, tx, id, height, k - 1);
      var o := tx.inputs[k - 1].at;
      ConsumeOthers(utxos, tx.inputs, k - 1, o);
      WithoutTotals(Consume(utxos, tx.inputs, k - 1), o);
    }
  }

  lemma OneOutput(u: Utxo)
    ensures Value([u]) == u.amount
    ensures TreasuryTotal([u]) == if TreasuryControlled(u.kind) then u.amount else 0
  {
    assert [u][1..] == [];
  }

  lemma PaidTotals(tx: Tx, claim: Claim, sum: nat, network: Network, height: nat)
    requires OutputsPay(tx.outputs, claim, sum, network)
    ensures Value(Created(tx, height, false)) == sum
    ensures TreasuryTotal(Created(tx, height, false)) == sum - claim.amount
  {
    var made := Created(tx, height, false);
    OneOutput(made[0]);
    if |made| == 2 {
      assert made == [made[0]] + [made[1]];
      TotalsAdd([made[0]], [made[1]]);
      OneOutput(made[1]);
    } else {
      assert made == [made[0]];
    }
  }

  /** A payment moves exactly the claimed amount out of the Treasury and conserves value. */
  lemma PaymentConserves(utxos: seq<Utxo>, tx: Tx, claim: Claim, network: Network, epoch: nat, height: nat)
    requires Payment(utxos, tx, claim, network, epoch, height).Success?
    ensures var paid := Payment(utxos, tx, claim, network, epoch, height).value;
            && Value(paid) == Value(utxos)
            && TreasuryTotal(paid) == TreasuryTotal(utxos) - claim.amount
  {
    var sum := Gather(utxos, tx, claim.id, height, |tx.inputs|).value;
    GatheredTotals(utxos, tx, claim.id, height, |tx.inputs|);
    PaidTotals(tx, claim, sum, network, height);
    TotalsAdd(Consume(utxos, tx.inputs, |tx.inputs|), Created(tx, height, false));
  }

  /** A claim in a block: the payment, then the operation. */
  function PaidClaim(s: Ledger, tx: Tx, claim: Claim, network: Network): Result<Ledger> {
    var utxos :- Payment(s.utxos, tx, claim, network, s.epoch, s.height + 1);
    ApplyClaim(s.(utxos := utxos), claim)
  }

  /** An applied claim is signed, and takes its amount from the claimant's account and from the reserve. */
  lemma ClaimTakes(s: Ledger, claim: Claim)
    requires ApplyClaim(s, claim).Success?
    ensures var t := ApplyClaim(s, claim).value;
            && t == s.(accounts := t.accounts, reserved := s.reserved - claim.amount)
            && Claimable(t.accounts) == Claimable(s.accounts) - claim.amount
            && |t.accounts| == |s.accounts|
            && 0 < claim.amount <= s.reserved
            && AccountAt(s.accounts, claim.licence).Some?
    ensures forall i :: 0 <= i < |s.accounts| ==>
              SameExceptAmount(s.accounts[i], ApplyClaim(s, claim).value.accounts[i])
    ensures forall i :: 0 <= i < |s.accounts| && s.accounts[i].licence != claim.licence ==>
              ApplyClaim(s, claim).value.accounts[i] == s.accounts[i]
    ensures claim.signed
  {
    var a := AccountAt(s.accounts, claim.licence).value;
    var account := s.accounts[a];
    ClaimableReplace(s.accounts, a, account.(claimable := account.claimable - claim.amount));
  }

  predicate SameExceptAmount(a: Account, b: Account) {
    b == a.(claimable := b.claimable) && b.claimable <= a.claimable
  }

  lemma AmountsDoNotMatter(licences: seq<Licence>, epoch: nat, a: seq<Account>, b: seq<Account>)
    requires AccountsOk(licences, epoch, a) && OneEach(a) && |a| == |b|
    requires forall i :: 0 <= i < |a| ==> SameExceptAmount(a[i], b[i])
    ensures AccountsOk(licences, epoch, b) && OneEach(b)
  {
    forall i | 0 <= i < |b| ensures AccountOk(licences, epoch, b[i]) {
      assert AccountOk(licences, epoch, a[i]);
    }
  }

  /** A claim leaves the available Treasury and the total value as they were. */
  lemma ClaimKeeps(s: Ledger, tx: Tx, claim: Claim, network: Network)
    requires Inv(s) && PaidClaim(s, tx, claim, network).Success?
    ensures var t := PaidClaim(s, tx, claim, network).value;
            && Inv(t) && Available(t) == Available(s) && Value(t.utxos) == Value(s.utxos)
            && t.reserved == s.reserved - claim.amount && 0 < claim.amount && t.epoch == s.epoch
            && s.accounts != []
  {
    PaymentConserves(s.utxos, tx, claim, network, s.epoch, s.height + 1);
    var paid := s.(utxos := Payment(s.utxos, tx, claim, network, s.epoch, s.height + 1).value);
    ClaimTakes(paid, claim);
    AmountsDoNotMatter(s.licences, s.epoch, s.accounts, ApplyClaim(paid, claim).value.accounts);
  }

  // ----------------------------------------------------- the rest of a block

  /** An ordinary input: found, mature and held by a key. */
  predicate OrdinaryInput(utxos: seq<Utxo>, tx: Tx, height: nat, k: nat)
    requires k < |tx.inputs|
  {
    && tx.inputs[k].Spend?
    && tx.inputs[k] !in tx.inputs[..k]
    && Find(utxos, tx.inputs[k].at).Some?
    && Find(utxos, tx.inputs[k].at).value.kind == PubkeyHash
    && Spendable(Find(utxos, tx.inputs[k].at).value, height)
  }

  /** An ordinary transaction of `validate_and_apply_mempool`; `admitted` is the verdict on signatures and fees. */
  function Ordinary(utxos: seq<Utxo>, tx: Tx, height: nat, admitted: bool): Result<seq<Utxo>> {
    if && admitted
       && (forall k :: 0 <= k < |tx.inputs| ==> OrdinaryInput(utxos, tx, height, k))
       && (forall i :: 0 <= i < |tx.outputs| ==> tx.outputs[i].kind in {PubkeyHash, LicencePayment})
    then Success(Consume(utxos, tx.inputs, |tx.inputs|) + Created(tx, height, false))
    else Failure
  }

  lemma {:induction false} OrdinaryLeavesTreasury(utxos: seq<Utxo>, tx: Tx, height: nat, k: nat)
    requires k <= |tx.inputs| && forall i :: 0 <= i < k ==> OrdinaryInput(utxos, tx, height, i)
    ensures TreasuryTotal(Consume(utxos, tx.inputs, k)) == TreasuryTotal(utxos)
  {
    if k > 0 {
      OrdinaryLeavesTreasury(utxos, tx, height, k - 1);
      assert OrdinaryInput(utxos, tx, height, k - 1);
      var o := tx.inputs[k - 1].at;
      ConsumeOthers(utxos, tx.inputs, k - 1, o);
      WithoutTotals(Consume(utxos, tx.inputs, k - 1), o);
    }
  }

  lemma OrdinaryKeeps(s: Ledger, tx: Tx, admitted: bool)
    requires Inv(s) && Ordinary(s.utxos, tx, s.height + 1, admitted).Success?
    ensures var utxos := Ordinary(s.utxos, tx, s.height + 1, admitted).value;
            Inv(s.(utxos := utxos)) && TreasuryTotal(utxos) >= TreasuryTotal(s.utxos)
  {
    OrdinaryLeavesTreasury(s.utxos, tx, s.height + 1, |tx.inputs|);
    TotalsAdd(Consume(s.utxos, tx.inputs, |tx.inputs|), Created(tx, s.height + 1, false));
  }
}
