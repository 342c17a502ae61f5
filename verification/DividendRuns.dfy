/**
 Every run of epoch ticks, paid claims, ordinary transactions, coinbases and licence
 changes: the reserve invariant, the accounting of each award, and the state check.
 */
module DividendRuns {
  import opened Wrappers
  import opened Runs
  import opened Licences
  import opened Dividends
  import opened DividendProofs

  datatype Event =
    | NextEpoch
    | PayClaim(tx: Tx, claim: Claim)
    | Transfer(tx: Tx, admitted: bool)
    | Mint(tx: Tx)                           // the coinbase, which closes a block
    | Register(licence: Licence)
    | Amend(index: nat, licence: Licence)    // any change to a licence other than its id

  /** What became of one award. */
  datatype Entry = Entry(epoch: nat, granted: nat, claimed: nat, returned: nat)

  /** The ledger with the history of its awards. */
  datatype Books = Books(ledger: Ledger, awards: seq<Entry>)

  function Credit(awards: seq<Entry>, claimed: nat, returned: nat): seq<Entry> {
    if awards == [] then []
    else
      var last := awards[|awards| - 1];
      awards[..|awards| - 1] + [last.(claimed := last.claimed + claimed, returned := last.returned + returned)]
  }

  predicate CoinbaseOutputs(tx: Tx) {
    forall i :: 0 <= i < |tx.outputs| ==> tx.outputs[i].kind in {PubkeyHash, Treasury}
  }

  function Outcome(network: Network, b: Books, e: Event): Result<Books> {
    var s := b.ledger;
    match e
    case NextEpoch =>
      var r :- Tick(s);
      var credited := Credit(b.awards, 0, r.returned);
      Success(Books(r.ledger, if r.awarded == 0 then credited else credited + [Entry(s.epoch + 1, r.awarded, 0, 0)]))
    case PayClaim(tx, claim) =>
      var t :- PaidClaim(s, tx, claim, network);
      Success(Books(t, Credit(b.awards, claim.amount, 0)))
    case Transfer(tx, admitted) =>
      var utxos :- Ordinary(s.utxos, tx, s.height + 1, admitted);
      Success(b.(ledger := s.(utxos := utxos)))
    case Mint(tx) =>
      if CoinbaseOutputs(tx)
      then Success(b.(ledger := s.(utxos := s.utxos + Created(tx, s.height + 1, true), height := s.height + 1)))
      else Failure
    case Register(licence) =>
      if Known(s.licences, licence.id) then Failure
      else Success(b.(ledger := s.(licences := s.licences + [licence])))
    case Amend(i, licence) =>
      if i < |s.licences| && s.licences[i].id == licence.id
      then Success(b.(ledger := s.(licences := s.licences[i := licence])))
      else Failure
  }

  /** Refused blocks and failed ticks are not stored. */
  function Step(network: Network): (Books, Event) -> Result<Books> {
    (b: Books, e: Event) => Success(match Outcome(network, b, e) case Success(t) => t case Failure => b)
  }

  predicate Settled(e: Entry) {
    e.granted == e.claimed + e.returned
  }

  /** Closed awards are settled; what is reserved now belongs to the last one. */
  predicate BooksOk(b: Books) {
    && (forall i :: 0 <= i < |b.awards| - 1 ==> Settled(b.awards[i]))
    && (b.awards == [] ==> b.ledger.reserved == 0)
    && (b.awards != [] ==>
          var last := b.awards[|b.awards| - 1];
          last.granted == last.claimed + last.returned + b.ledger.reserved)
  }

  /** At most one award per boundary. */
  predicate AwardsInOrder(b: Books) {
    && (forall i :: 0 <= i < |b.awards| ==> AwardDue(b.awards[i].epoch) && b.awards[i].epoch <= b.ledger.epoch)
    && (forall i :: 0 <= i < |b.awards| - 1 ==> b.awards[i].epoch < b.awards[i + 1].epoch)
  }

  predicate RunInv(b: Books) {
    Inv(b.ledger) && BooksOk(b) && AwardsInOrder(b)
  }

  lemma CreditKeeps(b: Books, t: Ledger, claimed: nat, returned: nat)
    requires BooksOk(b) && AwardsInOrder(b) && t.epoch >= b.ledger.epoch
    requires t.reserved + claimed + returned == b.ledger.reserved
    ensures BooksOk(Books(t, Credit(b.awards, claimed, returned)))
    ensures AwardsInOrder(Books(t, Credit(b.awards, claimed, returned)))
  {
  }

  lemma NextEpochKeeps(b: Books, r: Report)
    requires BooksOk(b) && AwardsInOrder(b) && TickOk(b.ledger, r)
    ensures var credited := Credit(b.awards, 0, r.returned);
            var awards := if r.awarded == 0 then credited else credited + [Entry(b.ledger.epoch + 1, r.awarded, 0, 0)];
            BooksOk(Books(r.ledger, awards)) && AwardsInOrder(Books(r.ledger, awards))
  {
    CreditKeeps(b, r.ledger.(reserved := r.ledger.reserved - r.awarded), 0, r.returned);
  }

  lemma MintKeeps(s: Ledger, tx: Tx)
    requires Inv(s)
    ensures Inv(s.(utxos := s.utxos + Created(tx, s.height + 1, true), height := s.height + 1))
  {
    TotalsAdd(s.utxos, Created(tx, s.height + 1, true));
  }

  lemma LicencesKeep(s: Ledger, licences: seq<Licence>)
    requires Inv(s) && DistinctIds(licences)
    requires forall i :: 0 <= i < |s.licences| ==> i < |licences| && licences[i].id == s.licences[i].id
    ensures Inv(s.(licences := licences))
  {
    forall i | 0 <= i < |s.accounts| ensures AccountOk(licences, s.epoch, s.accounts[i]) {
      assert AccountOk(s.licences, s.epoch, s.accounts[i]);
      var k :| 0 <= k < |s.licences| && s.licences[k].id == s.accounts[i].licence;
      assert licences[k].id == s.accounts[i].licence;
    }
  }

  lemma SameReserve(b: Books, t: Ledger)
    requires RunInv(b) && Inv(t) && t.reserved == b.ledger.reserved && t.epoch == b.ledger.epoch
    ensures RunInv(b.(ledger := t))
  {
  }

  lemma EpochOutcome(network: Network, b: Books)
    requires RunInv(b) && Tick(b.ledger).Success?
    ensures RunInv(Outcome(network, b, NextEpoch).value)
  {
    TickKeeps(b.ledger);
    NextEpochKeeps(b, Tick(b.ledger).value);
  }

  lemma ClaimOutcome(network: Network, b: Books, tx: Tx, claim: Claim)
    requires RunInv(b) && PaidClaim(b.ledger, tx, claim, network).Success?
    ensures RunInv(Outcome(network, b, PayClaim(tx, claim)).value)
  {
    ClaimKeeps(b.ledger, tx, claim, network);
    CreditKeeps(b, PaidClaim(b.ledger, tx, claim, network).value, claim.amount, 0);
  }

  lemma OtherOutcome(network: Network, b: Books, e: Event)
    requires RunInv(b) && !e.NextEpoch? && !e.PayClaim? && Outcome(network, b, e).Success?
    ensures Inv(Outcome(network, b, e).value.ledger)
  {
    var s := b.ledger;
    match e
    case Transfer(tx, admitted) =>
      OrdinaryKeeps(s, tx, admitted);
    case Mint(tx) =>
      MintKeeps(s, tx);
    case Register(licence) =>
      LicencesKeep(s, s.licences + [licence]);
    case Amend(i, licence) =>
      LicencesKeep(s, s.licences[i := licence]);
  }

  lemma StepKeepsInv(network: Network, b: Books, e: Event)
    requires RunInv(b)
    ensures RunInv(Step(network)(b, e).value)
  {
    var r := Outcome(network, b, e);
    if r.Failure? {
    } else if e.NextEpoch? {
      EpochOutcome(network, b);
    } else if e.PayClaim? {
      ClaimOutcome(network, b, e.tx, e.claim);
    } else {
      OtherOutcome(network, b, e);
      SameReserve(b, r.value.ledger);
    }
  }

  /** Before any award: no accounts and nothing reserved. */
  predicate Initial(b: Books) {
    b.awards == [] && b.ledger.accounts == [] && b.ledger.reserved == 0 && DistinctIds(b.ledger.licences)
  }

  /**
   In every run the reserve is what the accounts can claim, it is backed by Treasury
   outputs, no licence has two accounts, and every award is accounted for.
   */
  lemma RunsKeepInv(network: Network, b: Books, events: seq<Event>)
    requires Initial(b)
    ensures Run(Step(network), b, events).Success? ==> RunInv(Run(Step(network), b, events).value)
  {
    forall x, e | RunInv(x) && Step(network)(x, e).Success? ensures RunInv(Step(network)(x, e).value) {
      StepKeepsInv(network, x, e);
    }
    RunInvariant(Step(network), RunInv, b, events);
  }
}
