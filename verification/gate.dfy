/**
 * The gate controller's `permissions` decision: an account may trade, deposit
 * and withdraw when its KYC status is approved and it is not frozen.
 */
module Gate {
  import opened Wrappers
  import opened Js
  import opened Accounts
  import Kyc
  import Text

  datatype Permissions = Permissions(
    canTrade: bool,
    canDeposit: bool,
    canWithdraw: bool,
    reasons: seq<string>)

  const DeniedReason := "KYC not approved or account frozen"

  /** `(account.flags as any)?.frozen` is truthy. */
  predicate Frozen(flags: Flags) {
    flags.FlagsObject? && Truthy(flags.frozen)
  }

  /** The decision for one account. */
  function Decide(a: Account): (p: Permissions)
    ensures p.canTrade == p.canDeposit == p.canWithdraw
    ensures p.canTrade <==> a.kycStatus == "APPROVED" && !Frozen(a.flags)
    ensures p.reasons == [] <==> p.canTrade
    ensures !p.canTrade ==> p.reasons == [DeniedReason]
  {
    var can := a.kycStatus == "APPROVED" && !Frozen(a.flags);
    Permissions(can, can, can, if can then [] else [DeniedReason])
  }

  /** `permissions`: the decision for the first account; none is an error. */
  function CheckPermissions(db: Db): (r: Result<Permissions, Kyc.KycError>)
    ensures r.Err? <==> db.accounts == []
    ensures r.Err? ==> r.error == Kyc.AccountNotFound
    ensures r.Ok? ==> r.value == Decide(db.accounts[0])
  {
    if db.accounts == [] then Err(Kyc.AccountNotFound) else Ok(Decide(db.accounts[0]))
  }

  /** Missing flags, a `frozen` key that is absent, `false`, `0` or `""`, and flags
      that are not an object all leave the account unfrozen. */
  lemma NotFrozenCases()
    ensures !Frozen(NoFlags) && !Frozen(OtherJson)
    ensures !Frozen(FlagsObject(Undefined)) && !Frozen(FlagsObject(Bool(false)))
    ensures !Frozen(FlagsObject(Num(Finite(0.0)))) && !Frozen(FlagsObject(Str([])))
    ensures Frozen(FlagsObject(Bool(true))) && Frozen(FlagsObject(Str("no")))
  {
  }

  /** An approving webhook for the first account's applicant opens the gate,
      unless the account is frozen. */
  lemma ApprovalOpensGate(db: Db, raw: Kyc.Bytes, sig: Option<string>,
                          hmac: Kyc.Bytes -> string, parse: Kyc.Bytes -> Option<Event>)
    requires sig == Some(hmac(raw)) && parse(raw).Some?
    requires db.accounts != [] && !Frozen(db.accounts[0].flags)
    requires parse(raw).value.applicantId.Str? && parse(raw).value.applicantId.s != []
    requires db.accounts[0].kycApplicantId == Some(parse(raw).value.applicantId.s)
    requires parse(raw).value.eventType == Str("APPLICATION_APPROVED")
    ensures
      var r := Kyc.Webhook(db, raw, sig, hmac, parse);
      && r.reply == Ok(true)
      && CheckPermissions(r.db) == Ok(Permissions(true, true, true, []))
  {
    assert Text.Contains("APPLICATION_APPROVED", "APPLICATION_APPROVED");
  }
}
