/**
 * The KYC controller: the `session` endpoint, which reuses or creates the
 * account's identity-verification applicant, and the provider's `webhook`,
 * which checks the payload signature, classifies the event type and records
 * the new status together with the event. HMAC, JSON parsing and the
 * provider's HTTP calls are parameters.
 */
module Kyc {
  import opened Wrappers
  import opened Text
  import opened Js
  import opened Accounts

  type Bytes = seq<bv8>

  datatype KycError =
    | AccountNotFound        // `findFirstOrThrow` found no row
    | MalformedJson          // `JSON.parse` threw
    | InvalidFilter          // the applicant id is neither a string, `null` nor `undefined`
    | TypeNotString          // `type.includes` on a non-string
    | InvalidApplicantData   // the created applicant's id is not a string, `null` or `undefined`
    | NoApplicantId          // 'Failed to acquire Sumsub applicantId'
    | TokenFailed            // the access-token call threw

  const Approved := "APPROVED"
  const Rejected := "REJECTED"
  const Review := "REVIEW"

  /** The status an event type stands for: approval wins over rejection, and
      anything else is a review. */
  function ClassifyStatus(eventType: string): (r: string)
    ensures r == Approved || r == Rejected || r == Review
    ensures r == Approved <==> Contains(eventType, "APPLICATION_APPROVED")
    ensures r == Rejected <==>
      !Contains(eventType, "APPLICATION_APPROVED") && Contains(eventType, "APPLICATION_REJECTED")
  {
    if Contains(eventType, "APPLICATION_APPROVED") then Approved
    else if Contains(eventType, "APPLICATION_REJECTED") then Rejected
    else Review
  }

  /** `event.applicantId || event.userId`. */
  function ApplicantRef(e: Event): JsValue {
    if Truthy(e.applicantId) then e.applicantId else e.userId
  }

  /** The applicant id is taken from `applicantId` unless that is absent, empty or
      otherwise falsy, and then from `userId`, whatever that holds. */
  lemma ApplicantRefFallback(e: Event)
    ensures Truthy(e.applicantId) ==> ApplicantRef(e) == e.applicantId
    ensures e.applicantId == Undefined || e.applicantId == Str([]) ==> ApplicantRef(e) == e.userId
  {
  }

  /** The `where: { kycApplicantId: v }` clause Prisma builds from `v`. */
  function ApplicantFilter(v: JsValue): (r: Result<Filter, KycError>)
    ensures v.Undefined? <==> r == Ok(AnyAccount)
    ensures v.Null? <==> r == Ok(ApplicantIs(None))
    ensures v.Str? <==> r.Ok? && r.value.ApplicantIs? && r.value.id.Some?
    ensures v.Str? ==> r == Ok(ApplicantIs(Some(v.s)))
    ensures r.Err? ==> r.error == InvalidFilter
  {
    match v
    case Undefined => Ok(AnyAccount)
    case Null => Ok(ApplicantIs(None))
    case Str(s) => Ok(ApplicantIs(Some(s)))
    case _ => Err(InvalidFilter)
  }

  /** The database after a call, and the reply: `Ok(false)` is `{ ok: false }`,
      `Ok(true)` is `{ ok: true }`, `Err` a thrown error. */
  datatype WebhookStep = WebhookStep(db: Db, reply: Result<bool, KycError>)

  /** `webhook`: compare the HMAC of the raw body with the `x-payload-digest`
      header (`None` when absent); parse; find the account by applicant id; then
      in one transaction set its status and log the event. */
  function Webhook(db: Db, raw: Bytes, sig: Option<string>,
                   hmac: Bytes -> string, parse: Bytes -> Option<Event>): (r: WebhookStep)
    ensures sig != Some(hmac(raw)) ==> r == WebhookStep(db, Ok(false))
    ensures r.reply != Ok(true) ==> r.db == db
    ensures r.reply.Ok? ==> (r.reply.value <==> sig == Some(hmac(raw)))
    ensures r.reply == Ok(true) ==> parse(raw).Some?
    ensures sig == Some(hmac(raw)) && parse(raw).None? ==> r == WebhookStep(db, Err(MalformedJson))
    ensures sig == Some(hmac(raw)) && parse(raw).Some? ==>
      var e := parse(raw).value;
      var f := ApplicantFilter(ApplicantRef(e));
      && (f.Err? ==> r == WebhookStep(db, Err(InvalidFilter)))
      && (f.Ok? && FirstMatching(db.accounts, f.value).None? ==> r == WebhookStep(db, Err(AccountNotFound)))
      && (f.Ok? && FirstMatching(db.accounts, f.value).Some? && !e.eventType.Str? ==>
            r == WebhookStep(db, Err(TypeNotString)))
      && (f.Ok? && FirstMatching(db.accounts, f.value).Some? && e.eventType.Str? ==> r.reply == Ok(true))
    ensures r.reply == Ok(true) ==>
      var e := parse(raw).value;
      var ref := ApplicantRef(e);
      && e.eventType.Str?
      && ApplicantFilter(ref).Ok?
      && FirstMatching(db.accounts, ApplicantFilter(ref).value).Some?
      && var acc := db.accounts[FirstMatching(db.accounts, ApplicantFilter(ref).value).value];
      && r.db.events == db.events + [KycEvent(acc.id, ref, "sumsub", e.eventType.s, e)]
      && r.db.accounts == UpdateWhereId(db.accounts, acc.id, SetStatus(ClassifyStatus(e.eventType.s)))
  {
    if sig != Some(hmac(raw)) then WebhookStep(db, Ok(false))
    else
      match parse(raw)
      case None => WebhookStep(db, Err(MalformedJson))
      case Some(e) =>
        var ref := ApplicantRef(e);
        match ApplicantFilter(ref)
        case Err(err) => WebhookStep(db, Err(err))
        case Ok(f) =>
          match FirstMatching(db.accounts, f)
          case None => WebhookStep(db, Err(AccountNotFound))
          case Some(i) =>
            if !e.eventType.Str? then WebhookStep(db, Err(TypeNotString))
            else
              var t := e.eventType.s;
              var acc := db.accounts[i];
              var status := ClassifyStatus(t);
              WebhookStep(
                Db(UpdateWhereId(db.accounts, acc.id, SetStatus(status)),
                   db.events + [KycEvent(acc.id, ref, "sumsub", t, e)]),
                Ok(true))
  }

  /** The status update and the event record happen together or not at all:
      the event log grows by exactly one entry when the call succeeds and is
      untouched, as is every account, otherwise. */
  lemma WebhookAllOrNothing(db: Db, raw: Bytes, sig: Option<string>,
                            hmac: Bytes -> string, parse: Bytes -> Option<Event>)
    ensures
      var r := Webhook(db, raw, sig, hmac, parse);
      && (r.reply == Ok(true) <==> |r.db.events| == |db.events| + 1)
      && (r.reply != Ok(true) <==> r.db == db)
  {
    var r := Webhook(db, raw, sig, hmac, parse);
    if r.reply == Ok(true) {
      assert r.db.events != db.events by {
        assert |r.db.events| == |db.events| + 1;
      }
    }
  }

  /** When the event names no applicant at all, Prisma drops the filter and the
      first account in the table takes the new status. This rests on the
      event record accepting a missing applicant id (an optional
      `KycEvent.applicantId` column); the Prisma schema is not part of this
      model, see "Left out". */
  lemma MissingApplicantUpdatesFirstAccount(db: Db, raw: Bytes, sig: Option<string>,
                                            hmac: Bytes -> string, parse: Bytes -> Option<Event>)
    requires sig == Some(hmac(raw))
    requires parse(raw).Some?
    requires !Truthy(parse(raw).value.applicantId) && parse(raw).value.userId == Undefined
    requires parse(raw).value.eventType.Str?
    requires db.accounts != []
    ensures
      var r := Webhook(db, raw, sig, hmac, parse);
      && r.reply == Ok(true)
      && r.db.accounts[0].kycStatus == ClassifyStatus(parse(raw).value.eventType.s)
  {
    AnyAccountIsFirst(db.accounts);
  }

  /** What the access-token call returns. */
  datatype Token = Token(token: JsValue, ttlInSecs: JsValue)

  datatype SessionReply = SessionReply(applicantId: string, sumsubToken: JsValue, expiresIn: JsValue)

  /** The database after a call, whether `createApplicant` was called, and the reply. */
  datatype SessionStep = SessionStep(db: Db, createdApplicant: bool, reply: Result<SessionReply, KycError>)

  predicate HasApplicant(a: Account) {
    a.kycApplicantId.Some? && a.kycApplicantId.value != []
  }

  /** The reply for applicant `id`: the access-token call either answers
      (`Some`) or throws (`None`), which fails the call whatever was stored. */
  function Reply(db: Db, created: bool, id: string, accessToken: string -> Option<Token>): (r: SessionStep)
    ensures r.db == db && r.createdApplicant == created
    ensures accessToken(id).None? <==> r.reply == Err(TokenFailed)
    ensures accessToken(id).Some? ==>
      r.reply == Ok(SessionReply(id, accessToken(id).value.token, accessToken(id).value.ttlInSecs))
  {
    match accessToken(id)
    case None => SessionStep(db, created, Err(TokenFailed))
    case Some(t) => SessionStep(db, created, Ok(SessionReply(id, t.token, t.ttlInSecs)))
  }

  /** `session`: take the first account; reuse its applicant id when it has a
      non-empty one; otherwise create an applicant (whose `id` field is
      `createdId`) and store that id. An id that is not a non-empty string then
      fails the call — after it has been stored — and so does a throwing
      access-token call. */
  function Session(db: Db, createdId: JsValue, accessToken: string -> Option<Token>): (r: SessionStep)
    ensures db.accounts == [] ==> r == SessionStep(db, false, Err(AccountNotFound))
    ensures db.accounts != [] && HasApplicant(db.accounts[0]) ==>
      r == Reply(db, false, db.accounts[0].kycApplicantId.value, accessToken)
    ensures r.createdApplicant <==> db.accounts != [] && !HasApplicant(db.accounts[0])
    ensures r.createdApplicant && createdId.Str? && createdId.s != [] ==>
      r.reply == Reply(r.db, true, createdId.s, accessToken).reply
    ensures r.createdApplicant && createdId.Str? && createdId.s != [] && accessToken(createdId.s).Some? ==>
      r.reply == Ok(SessionReply(createdId.s, accessToken(createdId.s).value.token,
                                 accessToken(createdId.s).value.ttlInSecs))
    ensures r.reply.Ok? <==>
      db.accounts != [] &&
      (if HasApplicant(db.accounts[0]) then accessToken(db.accounts[0].kycApplicantId.value).Some?
       else createdId.Str? && createdId.s != [] && accessToken(createdId.s).Some?)
    ensures r.createdApplicant && !(createdId.Str? && createdId.s != []) ==>
      r.reply == Err(if createdId.Str? || createdId.Null? || createdId.Undefined? then NoApplicantId
                     else InvalidApplicantData)
    ensures r.createdApplicant && createdId.Str? ==>
      r.db == db.(accounts := UpdateWhereId(db.accounts, db.accounts[0].id, SetApplicant(Some(createdId.s))))
    ensures r.createdApplicant && createdId.Null? ==>
      r.db == db.(accounts := UpdateWhereId(db.accounts, db.accounts[0].id, SetApplicant(None)))
    ensures !(createdId.Str? || createdId.Null?) ==> r.db == db
    ensures r.db.events == db.events
  {
    if db.accounts == [] then SessionStep(db, false, Err(AccountNotFound))
    else
      var acc := db.accounts[0];
      if HasApplicant(acc) then Reply(db, false, acc.kycApplicantId.value, accessToken)
      else
        match createdId
        case Str(s) =>
          var db' := db.(accounts := UpdateWhereId(db.accounts, acc.id, SetApplicant(Some(s))));
          if s == [] then SessionStep(db', true, Err(NoApplicantId)) else Reply(db', true, s, accessToken)
        case Null =>
          SessionStep(db.(accounts := UpdateWhereId(db.accounts, acc.id, SetApplicant(None))), true, Err(NoApplicantId))
        case Undefined =>
          // `data: { kycApplicantId: undefined }` writes nothing
          SessionStep(db, true, Err(NoApplicantId))
        case _ => SessionStep(db, true, Err(InvalidApplicantData))
  }

  /** Once a session has succeeded, every later session reuses the same
      applicant: no second applicant is created and the reply names the same id. */
  lemma SecondSessionReuses(db: Db, createdId: JsValue, createdId2: JsValue,
                            accessToken: string -> Option<Token>)
    requires Session(db, createdId, accessToken).reply.Ok?
    ensures
      var first := Session(db, createdId, accessToken);
      var second := Session(first.db, createdId2, accessToken);
      && !second.createdApplicant
      && second.db == first.db
      && second.reply.Ok?
      && second.reply.value.applicantId == first.reply.value.applicantId
  {
  }

  /** A stored empty id counts as none: a new applicant is created. */
  lemma EmptyStoredIdRecreated(db: Db, createdId: JsValue, accessToken: string -> Option<Token>)
    requires db.accounts != [] && db.accounts[0].kycApplicantId == Some([])
    ensures Session(db, createdId, accessToken).createdApplicant
  {
  }
}
