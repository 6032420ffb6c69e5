/**
 * The slice of the database the KYC and gate controllers touch: the `account`
 * rows and the `kycEvent` log, with the three Prisma calls they make —
 * `findFirstOrThrow`, `update` by id and `create` — as pure functions.
 */
module Accounts {
  import opened Wrappers
  import opened Js

  /** The `flags` JSON column as `(flags as any)?.frozen` sees it. */
  datatype Flags =
    | NoFlags                    // `null`: `?.frozen` is `undefined`
    | FlagsObject(frozen: JsValue)  // an object; a missing key is `Undefined`
    | OtherJson                  // a string, number, boolean or array: `.frozen` is `undefined`

  datatype Account = Account(
    id: string,
    kycApplicantId: Option<string>,   // `None` is SQL NULL
    kycStatus: string,
    flags: Flags)

  /** A webhook body as parsed JSON; only the fields the controller reads. */
  datatype Event = Event(applicantId: JsValue, userId: JsValue, eventType: JsValue)

  datatype KycEvent = KycEvent(
    accountId: string,
    applicantId: JsValue,
    provider: string,
    eventType: string,
    payload: Event)

  datatype Db = Db(accounts: seq<Account>, events: seq<KycEvent>)

  /** A `where` clause on `kycApplicantId`. `AnyAccount` is what Prisma makes of a
      filter value of `undefined`: the condition is dropped. */
  datatype Filter = AnyAccount | ApplicantIs(id: Option<string>)

  predicate Matches(a: Account, f: Filter) {
    match f
    case AnyAccount => true
    case ApplicantIs(id) => a.kycApplicantId == id
  }

  /** The row `findFirst` returns: the first in table order that matches. */
  function FirstMatching(accounts: seq<Account>, f: Filter): (r: Option<nat>)
    ensures r.None? <==> forall i :: 0 <= i < |accounts| ==> !Matches(accounts[i], f)
    ensures r.Some? ==> r.value < |accounts| && Matches(accounts[r.value], f)
    ensures r.Some? ==> forall j :: 0 <= j < r.value ==> !Matches(accounts[j], f)
  {
    if accounts == [] then None
    else if Matches(accounts[0], f) then Some(0)
    else
      match FirstMatching(accounts[1..], f)
      case None =>
        assert forall i :: 1 <= i < |accounts| ==> accounts[i] == accounts[1..][i - 1];
        None
      case Some(i) =>
        assert forall j :: 1 <= j < i + 1 ==> accounts[j] == accounts[1..][j - 1];
        Some(i + 1)
  }

  /** An unfiltered `findFirst` gives the first row. */
  lemma AnyAccountIsFirst(accounts: seq<Account>)
    ensures accounts != [] ==> FirstMatching(accounts, AnyAccount) == Some(0)
    ensures accounts == [] ==> FirstMatching(accounts, AnyAccount) == None
  {
  }

  /** The `data` of an `account.update` call. */
  datatype Change = SetStatus(status: string) | SetApplicant(applicantId: Option<string>)

  function Apply(a: Account, c: Change): Account {
    match c
    case SetStatus(s) => a.(kycStatus := s)
    case SetApplicant(id) => a.(kycApplicantId := id)
  }

  /** `account.update({ where: { id }, data })`: every row with that id gets the
      change, every other row is left as it is. */
  function UpdateWhereId(accounts: seq<Account>, id: string, c: Change): (r: seq<Account>)
    ensures |r| == |accounts|
    ensures forall i :: 0 <= i < |accounts| && accounts[i].id != id ==> r[i] == accounts[i]
    ensures forall i :: 0 <= i < |accounts| && accounts[i].id == id ==> r[i] == Apply(accounts[i], c)
  {
    seq(|accounts|, i requires 0 <= i < |accounts| =>
      if accounts[i].id == id then Apply(accounts[i], c) else accounts[i])
  }

  /** With unique ids, an update by the id of row `k` changes row `k` alone. */
  lemma UpdateOneRow(accounts: seq<Account>, k: nat, c: Change)
    requires k < |accounts|
    requires forall i, j :: 0 <= i < j < |accounts| ==> accounts[i].id != accounts[j].id
    ensures UpdateWhereId(accounts, accounts[k].id, c) == accounts[k := Apply(accounts[k], c)]
  {
    var r := UpdateWhereId(accounts, accounts[k].id, c);
    assert forall i :: 0 <= i < |accounts| && i != k ==> accounts[i].id != accounts[k].id;
  }
}
