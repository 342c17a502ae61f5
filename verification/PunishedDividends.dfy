/**
 What punishment means for dividends: the two kinds of accounting share the licences.
 */
module PunishedDividends {
  import opened Wrappers
  import opened Licences
  import Punishment
  import PunishmentProofs
  import Dividends
  import DividendProofs
  import opened DividendRules

  /**
   After an offence, and whatever further offences, epochs and registrations follow, the
   accused licence gets no account at a boundary before its suspension from that offence
   ends, and never again if the offence revoked it.
   */
  lemma PunishedGetNothing(
    s: Punishment.Ledger, e: Punishment.Evidence, events: seq<PunishmentProofs.Event>, i: nat,
    d: Dividends.Ledger, r: Dividends.Report)
    requires PunishmentProofs.Inv(s) && s.epoch > 0 && Punishment.Punish(s, e).Success?
    requires var struck := Punishment.Punish(s, e).value.licences;
             && i < |struck| && struck[i].id == e.accused
             && (struck[i].status == Revoked || d.epoch + 1 < struck[i].suspendedUntil)
    requires d.licences == PunishmentProofs.After(Punishment.Punish(s, e).value, events).licences
    requires DividendProofs.Inv(d) && DividendProofs.Tick(d) == Success(r) && r.awarded > 0
    ensures !HasAccount(r.ledger.accounts, e.accused)
  {
    var t := Punishment.Punish(s, e).value;
    PunishmentProofs.PunishKeeps(s, e);
    PunishmentProofs.RunsKeepInv(t, events);
    var now := PunishmentProofs.After(t, events);
    assert PunishmentProofs.Ages(t.licences[i], now.licences[i]);
    assert PunishmentProofs.LicenceOk(now.offences, now.licences[i]);
    AwardGoesTo(d, r);
    forall k | 0 <= k < |d.licences| && d.licences[k].id == e.accused ensures !TakesPart(d.licences[k], d.epoch + 1) {
      assert k == i;
    }
  }
}
