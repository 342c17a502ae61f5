/**
 Dividend accounting (crates/mutiny-node/src/dividends.rs and the dividend part of
 crates/mutiny-protocol/src/lib.rs).

 Every 2^17 epochs half of the available Treasury is reserved and split equally over
 the eligible licences; an account can be claimed against for 2^16 epochs and what is
 left then returns. A claim is a signed operation and a fee-free payment out of
 Treasury outputs in the same block.
 */
module Dividends {
  import opened Wrappers
  import opened Arithmetic
  import opened Bytes
  import opened Sorting
  import opened Licences

  const CLAIM_WINDOW := 0x1_0000
  const AWARD_INTERVAL := 0x2_0000
  const COINBASE_MATURITY := 16

  type TxId(!new, ==)
  type Payload(!new, ==)

  datatype Account = Account(licence: LicenceId, award: nat, deadline: nat, claimable: nat)

  datatype Kind = PubkeyHash | Treasury | LicencePayment | OtherKind

  datatype Outpoint = Outpoint(txid: TxId, index: nat)

  datatype Utxo = Utxo(at: Outpoint, amount: nat, kind: Kind, payload: Payload, height: nat, coinbase: bool)

  datatype Ledger = Ledger(
    epoch: nat, height: nat, licences: seq<Licence>, utxos: seq<Utxo>, accounts: seq<Account>, reserved: nat)

  // ------------------------------------------------------------------- sums

  predicate TreasuryControlled(kind: Kind) {
    kind == Treasury || kind == LicencePayment
  }

  function TreasuryTotal(utxos: seq<Utxo>): nat {
    if utxos == [] then 0
    else (if TreasuryControlled(utxos[0].kind) then utxos[0].amount else 0) + TreasuryTotal(utxos[1..])
  }

  /** The value of all unspent outputs. */
  function Value(utxos: seq<Utxo>): nat {
    if utxos == [] then 0 else utxos[0].amount + Value(utxos[1..])
  }

  lemma {:induction false} TotalsAdd(a: seq<Utxo>, b: seq<Utxo>)
    ensures TreasuryTotal(a + b) == TreasuryTotal(a) + TreasuryTotal(b)
    ensures Value(a + b) == Value(a) + Value(b)
  {
    if a == [] {
      assert a + b == b;
    } else {
      assert (a + b)[1..] == a[1..] + b;
      TotalsAdd(a[1..], b);
    }
  }

  function Claimable(accounts: seq<Account>): nat {
    if accounts == [] then 0 else accounts[0].claimable + Claimable(accounts[1..])
  }

  lemma {:induction false} ClaimableAdds(a: seq<Account>, b: seq<Account>)
    ensures Claimable(a + b) == Claimable(a) + Claimable(b)
  {
    if a == [] {
      assert a + b == b;
    } else {
      assert (a + b)[1..] == a[1..] + b;
      ClaimableAdds(a[1..], b);
    }
  }

  lemma ClaimableReplace(s: seq<Account>, i: nat, a: Account)
    requires i < |s|
    ensures Claimable(s[i := a]) == Claimable(s) - s[i].claimable + a.claimable
    ensures s[i].claimable <= Claimable(s)
  {
    assert s == s[..i] + ([s[i]] + s[i + 1..]);
    assert s[i := a] == s[..i] + ([a] + s[i + 1..]);
    ClaimableAdds(s[..i], [s[i]] + s[i + 1..]);
    ClaimableAdds(s[..i], [a] + s[i + 1..]);
    assert ([s[i]] + s[i + 1..])[1..] == s[i + 1..] && ([a] + s[i + 1..])[1..] == s[i + 1..];
  }

  lemma {:induction false} ClaimableInsert(le: (Account, Account) -> bool, a: Account, s: seq<Account>)
    ensures Claimable(Insert(le, a, s)) == a.claimable + Claimable(s)
  {
    if s != [] {
      if le(a, s[0]) {
        assert ([a] + s)[1..] == s;
      } else {
        ClaimableInsert(le, a, s[1..]);
        assert ([s[0]] + Insert(le, a, s[1..]))[1..] == Insert(le, a, s[1..]);
      }
    }
  }

  lemma {:induction false} ClaimableSort(le: (Account, Account) -> bool, s: seq<Account>)
    ensures Claimable(Sort(le, s)) == Claimable(s)
  {
    if s != [] {
      ClaimableSort(le, s[1..]);
      ClaimableInsert(le, s[0], Sort(le, s[1..]));
    }
  }

  // ------------------------------------------------------------ epoch boundary

  predicate Eligible(l: Licence, epoch: nat) {
    l.status == Active && epoch >= l.activation && epoch >= l.suspendedUntil && l.revocation == 0
  }

  function EligibleIds(licences: seq<Licence>, epoch: nat): seq<LicenceId> {
    if licences == [] then []
    else (if Eligible(licences[0], epoch) then [licences[0].id] else []) + EligibleIds(licences[1..], epoch)
  }

  function Expired(accounts: seq<Account>, epoch: nat): seq<Account> {
    if accounts == [] then []
    else (if epoch >= accounts[0].deadline then [accounts[0]] else []) + Expired(accounts[1..], epoch)
  }

  function Retained(accounts: seq<Account>, epoch: nat): seq<Account> {
    if accounts == [] then []
    else (if epoch >= accounts[0].deadline then [] else [accounts[0]]) + Retained(accounts[1..], epoch)
  }

  function Awards(ids: seq<LicenceId>, epoch: nat, each: nat): seq<Account> {
    seq(|ids|, i requires 0 <= i < |ids| => Account(ids[i], epoch, epoch + CLAIM_WINDOW, each))
  }

  function ById(): (Account, Account) -> bool {
    (a: Account, b: Account) => LexLe(a.licence.bytes, b.licence.bytes)
  }

  /** `calculate_dividend_award`: half the available Treasury, in equal whole shares. */
  function Share(available: nat, licences: nat): nat {
    if licences == 0 then 0 else available / 2 / licences
  }

  /** What the equal shares add up to. */
  function Granted(available: nat, licences: nat): nat {
    Share(available, licences) * licences
  }

  /** The shares never exceed the pool, and no larger equal share would fit. */
  lemma ShareBounds(available: nat, licences: nat)
    ensures 2 * Granted(available, licences) <= available
    ensures licences > 0 ==> available / 2 < (Share(available, licences) + 1) * licences
  {
    if licences > 0 {
      var pool := available / 2;
      assert pool == pool / licences * licences + pool % licences;
    }
  }

  /** What `process_epoch` leaves and returns. */
  datatype Report = Report(ledger: Ledger, returned: nat, awarded: nat)

  /** What the accounts that reach their deadline give back. */
  function Due(s: Ledger, epoch: nat): nat {
    Claimable(Expired(s.accounts, epoch))
  }

  /** Due accounts closed. */
  function Expire(s: Ledger, epoch: nat): Ledger
    requires Due(s, epoch) <= s.reserved
  {
    s.(accounts := Retained(s.accounts, epoch), reserved := s.reserved - Due(s, epoch))
  }

  predicate AwardDue(epoch: nat) {
    epoch != 0 && epoch % AWARD_INTERVAL == 0
  }

  /** `process_epoch`; the pending claims it drops from the local queues are not in the ledger. */
  function ProcessEpoch(s: Ledger, epoch: nat): Result<Report> {
    if Due(s, epoch) >= U64 || Due(s, epoch) > s.reserved then Failure
    else if !AwardDue(epoch) then Success(Report(Expire(s, epoch), Due(s, epoch), 0))
    else if exists a :: a in Expire(s, epoch).accounts && a.award == epoch then Failure
    else
      var r :- Award(Expire(s, epoch), epoch);
      Success(r.(returned := Due(s, epoch)))
  }

  function Award(s: Ledger, epoch: nat): Result<Report>
  {
    var eligible := EligibleIds(s.licences, epoch);
    var total := TreasuryTotal(s.utxos);
    if total >= U64 || total < s.reserved then Failure
    else
      var each := Share(total - s.reserved, |eligible|);
      var granted := Granted(total - s.reserved, |eligible|);
      if granted == 0 then Success(Report(s, 0, 0))
      else if epoch + CLAIM_WINDOW >= U64 || s.reserved + granted >= U64 then Failure
      else Success(Report(
        s.(reserved := s.reserved + granted, accounts := Sort(ById(), s.accounts + Awards(eligible, epoch, each))),
        0, granted))
  }

  // --------------------------------------------------------------- payments

  datatype Input = Spend(at: Outpoint) | Coinbase

  datatype Witness = ProtocolAuth(operation: Payload) | OtherWitness

  datatype Output = Output(amount: nat, kind: Kind, payload: Payload)

  datatype Tx = Tx(
    id: TxId, version: nat, network: nat, validFrom: nat, expiry: nat,
    inputs: seq<Input>, outputs: seq<Output>, witnesses: seq<Witness>)

  /** A decoded claim operation with its id; `signed` is the verdict on the owner signature. */
  datatype Claim = Claim(
    id: Payload, licence: LicenceId, ownerSequence: nat, amount: nat, destination: Payload, payment: TxId, signed: bool)

  /** The network a node runs on. */
  datatype Network = Network(id: nat, treasury: Payload)

  function Find(utxos: seq<Utxo>, o: Outpoint): Option<Utxo> {
    if utxos == [] then None else if utxos[0].at == o then Some(utxos[0]) else Find(utxos[1..], o)
  }

  /** The first output at `o` removed. */
  function Without(utxos: seq<Utxo>, o: Outpoint): seq<Utxo> {
    if utxos == [] then [] else if utxos[0].at == o then utxos[1..] else [utxos[0]] + Without(utxos[1..], o)
  }

  predicate Spendable(u: Utxo, height: nat) {
    !u.coinbase || height >= u.height + COINBASE_MATURITY
  }

  /** The input at `k` may be spent by this operation. */
  predicate InputOk(utxos: seq<Utxo>, tx: Tx, id: Payload, height: nat, k: nat)
    requires k < |tx.inputs| == |tx.witnesses|
  {
    && tx.inputs[k].Spend?
    && tx.inputs[k] !in tx.inputs[..k]
    && Find(utxos, tx.inputs[k].at).Some?
    && TreasuryControlled(Find(utxos, tx.inputs[k].at).value.kind)
    && Spendable(Find(utxos, tx.inputs[k].at).value, height)
    && tx.witnesses[k] == ProtocolAuth(id)
  }

  /** The value of the first `k` inputs, all of them checked. */
  function Gather(utxos: seq<Utxo>, tx: Tx, id: Payload, height: nat, k: nat): Result<nat>
    requires k <= |tx.inputs| == |tx.witnesses|
  {
    if k == 0 then Success(0)
    else
      var sum :- Gather(utxos, tx, id, height, k - 1);
      if InputOk(utxos, tx, id, height, k - 1) && sum + Find(utxos, tx.inputs[k - 1].at).value.amount < U64
      then Success(sum + Find(utxos, tx.inputs[k - 1].at).value.amount)
      else Failure
  }

  /** The first `k` inputs removed. */
  function Consume(utxos: seq<Utxo>, inputs: seq<Input>, k: nat): seq<Utxo>
    requires k <= |inputs|
  {
    if k == 0 then utxos
    else
      var rest := Consume(utxos, inputs, k - 1);
      if inputs[k - 1].Spend? then Without(rest, inputs[k - 1].at) else rest
  }

  function Created(tx: Tx, height: nat, coinbase: bool): seq<Utxo> {
    seq(|tx.outputs|, i requires 0 <= i < |tx.outputs| =>
      Utxo(Outpoint(tx.id, i), tx.outputs[i].amount, tx.outputs[i].kind, tx.outputs[i].payload, height, coinbase))
  }

  /** The destination gets exactly the claimed amount and the Treasury exactly the rest. */
  predicate OutputsPay(outputs: seq<Output>, claim: Claim, sum: nat, network: Network) {
    && 0 < |outputs| <= 2
    && outputs[0] == Output(claim.amount, PubkeyHash, claim.destination)
    && sum >= claim.amount
    && (if sum == claim.amount then |outputs| == 1
        else |outputs| == 2 && outputs[1] == Output(sum - claim.amount, Treasury, network.treasury))
  }

  /** `validate_and_apply_payment` */
  function Payment(
    utxos: seq<Utxo>, tx: Tx, claim: Claim, network: Network, epoch: nat, height: nat): Result<seq<Utxo>>
  {
    if tx.id != claim.payment || tx.version != 1 || tx.network != network.id
       || epoch < tx.validFrom || (tx.expiry != 0 && epoch > tx.expiry)
       || |tx.inputs| == 0 || |tx.inputs| > 1024 || |tx.witnesses| != |tx.inputs|
    then Failure
    else
      var sum :- Gather(utxos, tx, claim.id, height, |tx.inputs|);
      if OutputsPay(tx.outputs, claim, sum, network)
      then Success(Consume(utxos, tx.inputs, |tx.inputs|) + Created(tx, height, false))
      else Failure
  }

  // ----------------------------------------------------------------- claims

  function AccountAt(accounts: seq<Account>, id: LicenceId): (r: Option<nat>)
    ensures r.Some? ==> r.value < |accounts| && accounts[r.value].licence == id
  {
    if accounts == [] then None
    else if accounts[0].licence == id then Some(0)
    else match AccountAt(accounts[1..], id) case Some(i) => Some(i + 1) case None => None
  }

  /** `apply_operation` and `apply_dividend_claim`. */
  function ApplyClaim(s: Ledger, claim: Claim): Result<Ledger> {
    var l := LicenceAt(s.licences, claim.licence);
    var a := AccountAt(s.accounts, claim.licence);
    if l.None? || a.None? then Failure
    else
      var licence := s.licences[l.value];
      var account := s.accounts[a.value];
      if licence.status == Revoked || licence.ownerSequence != claim.ownerSequence
         || s.epoch < account.award || s.epoch >= account.deadline
         || claim.amount == 0 || claim.amount > account.claimable || !claim.signed
         || s.reserved < claim.amount
      then Failure
      else Success(s.(
        accounts := s.accounts[a.value := account.(claimable := account.claimable - claim.amount)],
        reserved := s.reserved - claim.amount))
  }
}
