/**
 Strike accounting (crates/mutiny-node/src/punishment.rs and `apply_offense` in
 crates/mutiny-protocol/src/lib.rs).

 A licence's strike weight is kept by addition when an offence is applied and is
 recomputed from the live offences at every epoch. Reaching 16 revokes for good.
 */
module Punishment {
  import opened Wrappers
  import opened Arithmetic
  import opened Bytes
  import opened Sorting
  import opened Licences

  const DECAY := 0x20_0000
  const THRESHOLD := 16

  datatype EvidenceId = EvidenceId(bytes: seq<byte>)

  datatype Offence = Offence(
    evidence: EvidenceId, licence: LicenceId, kind: nat, weight: nat, applied: nat, expiry: nat)

  datatype Ledger = Ledger(epoch: nat, licences: seq<Licence>, consumed: seq<EvidenceId>, offences: seq<Offence>)

  /** Decoded evidence; `objective` is the verdict of `validate_objective_evidence` on it. */
  datatype Evidence = Evidence(id: EvidenceId, accused: LicenceId, kind: nat, objective: bool)

  // ------------------------------------------------------------ one offence

  /** `offense_weight` */
  function Weight(kind: nat): Result<nat> {
    if kind == 1 then Success(1) else if kind == 2 then Success(2) else if kind == 3 then Success(4) else Failure
  }

  function Max(a: nat, b: nat): nat {
    if a < b then b else a
  }

  /** `apply_offense` */
  function ApplyOffence(l: Licence, kind: nat, epoch: nat): Result<Licence> {
    if l.status == Revoked then Failure
    else
      var weight :- Weight(kind);
      var total := l.strikes + weight;
      if total >= 256 || epoch + DECAY >= U64 then Failure
      else if total >= THRESHOLD then
        Success(l.(strikes := THRESHOLD, status := Revoked, revocation := epoch))
      else if Max(l.suspendedUntil, epoch) + Pow2(5 + total) >= U64 then Failure
      else Success(l.(strikes := total, suspendedUntil := Max(l.suspendedUntil, epoch) + Pow2(5 + total)))
  }

  function EvidenceOrder(): (EvidenceId, EvidenceId) -> bool {
    (a: EvidenceId, b: EvidenceId) => LexLe(a.bytes, b.bytes)
  }

  function OffenceOrder(): (Offence, Offence) -> bool {
    (a: Offence, b: Offence) => LexLe(a.evidence.bytes, b.evidence.bytes)
  }

  /** `apply_operation` in a block of epoch `s.epoch`. */
  function Punish(s: Ledger, e: Evidence): Result<Ledger> {
    var at := LicenceAt(s.licences, e.accused);
    if e.id in s.consumed || !e.objective || at.None? then Failure
    else
      var licence :- ApplyOffence(s.licences[at.value], e.kind, s.epoch);
      Success(Ledger(
        s.epoch, s.licences[at.value := licence],
        Sort(EvidenceOrder(), s.consumed + [e.id]),
        Sort(OffenceOrder(), s.offences + [NewOffence(e, s.epoch)])))
  }

  function NewOffence(e: Evidence, epoch: nat): Offence {
    Offence(e.id, e.accused, e.kind, if Weight(e.kind).Success? then Weight(e.kind).value else 0, epoch, epoch + DECAY)
  }

  // ------------------------------------------------------------------ expiry

  function Live(offences: seq<Offence>, epoch: nat): seq<Offence> {
    if offences == [] then []
    else (if offences[0].expiry > epoch then [offences[0]] else []) + Live(offences[1..], epoch)
  }

  /** The weight of the offences held against one licence. */
  function Against(offences: seq<Offence>, id: LicenceId): nat {
    if offences == [] then 0
    else (if offences[0].licence == id then offences[0].weight else 0) + Against(offences[1..], id)
  }

  /** Every licence's sum fits one byte. */
  ghost predicate FitsByte(offences: seq<Offence>) {
    forall id :: Against(offences, id) < 256
  }

  /** The recomputed licence, when the checks of `expire_events` pass on it. */
  function Recomputed(l: Licence, offences: seq<Offence>): Result<Licence> {
    if l.status == Revoked then
      if l.strikes != THRESHOLD then Failure else Success(l)
    else if Against(offences, l.id) >= THRESHOLD then Failure
    else Success(l.(strikes := Against(offences, l.id)))
  }

  function RecomputeAll(licences: seq<Licence>, offences: seq<Offence>): Result<seq<Licence>> {
    if licences == [] then Success([])
    else
      var rest :- RecomputeAll(licences[..|licences| - 1], offences);
      var last :- Recomputed(licences[|licences| - 1], offences);
      Success(rest + [last])
  }

  /** `expire_events` */
  ghost function ExpireEvents(s: Ledger, epoch: nat): Result<Ledger> {
    var live := Live(s.offences, epoch);
    if !FitsByte(live) then Failure
    else
      var licences :- RecomputeAll(s.licences, live);
      Success(s.(offences := live, licences := licences))
  }

  /** The next epoch: expiry, then activations. */
  ghost function Tick(s: Ledger): Result<Ledger> {
    var t :- ExpireEvents(s.(epoch := s.epoch + 1), s.epoch + 1);
    Success(t.(licences := ActivateAll(t.licences, s.epoch + 1)))
  }
}
