/**
 Mining licences as the node stores them, shared by dividend and strike accounting
 (`LicenseRecordV1` in crates/mutiny-protocol/src/lib.rs).
 */
module Licences {
  import opened Wrappers
  import opened Bytes

  datatype LicenceId = LicenceId(bytes: seq<byte>)

  datatype Status = Pending | Active | Revoked

  datatype Licence = Licence(
    id: LicenceId, status: Status, activation: nat, strikes: nat, suspendedUntil: nat, revocation: nat,
    ownerSequence: nat)

  predicate Known(licences: seq<Licence>, id: LicenceId) {
    exists i :: 0 <= i < |licences| && licences[i].id == id
  }

  /** The first licence with this id. */
  function LicenceAt(licences: seq<Licence>, id: LicenceId): (r: Option<nat>)
    ensures r.Some? ==> r.value < |licences| && licences[r.value].id == id
  {
    if licences == [] then None
    else if licences[0].id == id then Some(0)
    else match LicenceAt(licences[1..], id) case Some(i) => Some(i + 1) case None => None
  }

  predicate DistinctIds(licences: seq<Licence>) {
    forall i, j :: 0 <= i < j < |licences| ==> licences[i].id != licences[j].id
  }

  /** With distinct ids the lookup finds the licence of that id. */
  lemma {:induction false} LicenceAtIs(licences: seq<Licence>, id: LicenceId)
    requires DistinctIds(licences)
    ensures forall i :: 0 <= i < |licences| ==> (licences[i].id == id <==> LicenceAt(licences, id) == Some(i))
  {
    if licences != [] {
      var rest := licences[1..];
      LicenceAtIs(rest, id);
      forall i | 0 <= i < |licences| ensures licences[i].id == id <==> LicenceAt(licences, id) == Some(i) {
        assert i > 0 ==> licences[i] == rest[i - 1];
      }
    }
  }

  /** Pending licences become active (`apply_scheduled_license_transitions`). */
  function Activated(l: Licence, epoch: nat): Licence {
    if l.status == Pending && epoch >= l.activation then l.(status := Active) else l
  }

  function ActivateAll(licences: seq<Licence>, epoch: nat): seq<Licence> {
    seq(|licences|, i requires 0 <= i < |licences| => Activated(licences[i], epoch))
  }
}
