/**
 * The token-config schema the deploy API validates request bodies against
 * (a zod object): required fields, the `decimals` range, and the defaults it
 * fills in. A field of the wrong JSON type is not representable here; a
 * missing field is `None`.
 */
module TokenSchema {
  import opened Wrappers
  import opened Js

  datatype RawStep = RawStep(t: Option<string>, mint: Option<string>, to: Option<string>)

  datatype RawRoles = RawRoles(
    owner: Option<string>,
    minters: Option<seq<string>>,
    complianceAdmins: Option<seq<string>>)

  datatype RawCompliance = RawCompliance(mode: Option<string>)

  datatype RawIssuance = RawIssuance(schedule: Option<seq<RawStep>>)

  datatype RawWhitelist = RawWhitelist(allow: Option<seq<string>>)

  /** A parsed request body before validation. */
  datatype RawConfig = RawConfig(
    kind: Option<string>,
    name: Option<string>,
    symbol: Option<string>,
    decimals: Option<JsNumber>,
    cap: Option<string>,
    roles: Option<RawRoles>,
    compliance: Option<RawCompliance>,
    issuance: Option<RawIssuance>,
    whitelist: Option<RawWhitelist>)

  datatype Step = Step(t: string, mint: string, to: string)

  /** A validated config, defaults filled in. The optional sections stay optional. */
  datatype Config = Config(
    kind: string,
    name: string,
    symbol: string,
    decimals: int,
    cap: string,
    owner: string,
    minters: seq<string>,
    complianceAdmins: seq<string>,
    complianceMode: Option<string>,
    schedule: Option<seq<Step>>,
    whitelist: Option<seq<string>>)

  datatype SchemaError = InvalidConfig

  /** `z.number().int().min(0).max(36)`. */
  predicate DecimalsOk(n: JsNumber) {
    IsInteger(n) && 0.0 <= n.r <= 36.0
  }

  predicate StepOk(s: RawStep) {
    s.t.Some? && s.mint.Some? && s.to.Some?
  }

  function ValidSteps(steps: seq<RawStep>): (r: Option<seq<Step>>)
    ensures r.Some? <==> forall i :: 0 <= i < |steps| ==> StepOk(steps[i])
    ensures r.Some? ==> |r.value| == |steps|
    ensures r.Some? ==> forall i :: 0 <= i < |steps| ==>
      r.value[i] == Step(steps[i].t.value, steps[i].mint.value, steps[i].to.value)
  {
    if steps == [] then Some([])
    else if !StepOk(steps[0]) then None
    else
      match ValidSteps(steps[1..])
      case None => None
      case Some(rest) =>
        var s := steps[0];
        var r := [Step(s.t.value, s.mint.value, s.to.value)] + rest;
        assert forall i :: 1 <= i < |steps| ==> steps[i] == steps[1..][i - 1] && r[i] == rest[i - 1];
        Some(r)
  }

  /** The fields that must be present, apart from `decimals`. */
  predicate RequiredPresent(raw: RawConfig) {
    && raw.name.Some? && raw.symbol.Some? && raw.cap.Some?
    && raw.roles.Some? && raw.roles.value.owner.Some?
  }

  /** `ConfigSchema.parse`. */
  function Parse(raw: RawConfig): (r: Result<Config, SchemaError>)
    ensures r.Ok? <==>
      && RequiredPresent(raw)
      && raw.decimals.Some? && DecimalsOk(raw.decimals.value)
      && (raw.issuance.Some? ==> forall i :: 0 <= i < |raw.issuance.value.schedule.GetOr([])| ==>
            StepOk(raw.issuance.value.schedule.GetOr([])[i]))
    ensures r.Ok? ==> 0 <= r.value.decimals <= 36 && raw.decimals == Some(Finite(r.value.decimals as real))
    ensures r.Ok? ==> r.value.kind == raw.kind.GetOr("erc20_restricted")
    ensures r.Ok? ==> r.value.name == raw.name.value && r.value.symbol == raw.symbol.value
    ensures r.Ok? ==> r.value.cap == raw.cap.value && r.value.owner == raw.roles.value.owner.value
    ensures r.Ok? ==> r.value.minters == raw.roles.value.minters.GetOr([])
    ensures r.Ok? ==> r.value.complianceAdmins == raw.roles.value.complianceAdmins.GetOr([])
    ensures r.Ok? && raw.compliance.None? ==> r.value.complianceMode == None
    ensures r.Ok? && raw.compliance.Some? ==> r.value.complianceMode == Some(raw.compliance.value.mode.GetOr("whitelist"))
    ensures r.Ok? ==> (raw.issuance.None? <==> r.value.schedule.None?)
    ensures r.Ok? && raw.issuance.Some? ==> r.value.schedule == ValidSteps(raw.issuance.value.schedule.GetOr([]))
    ensures r.Ok? && raw.issuance.Some? && raw.issuance.value.schedule.None? ==> r.value.schedule == Some([])
    ensures r.Ok? && raw.whitelist.None? ==> r.value.whitelist == None
    ensures r.Ok? && raw.whitelist.Some? ==> r.value.whitelist == Some(raw.whitelist.value.allow.GetOr([]))
  {
    if !RequiredPresent(raw) || raw.decimals.None? || !DecimalsOk(raw.decimals.value) then Err(InvalidConfig)
    else
      var schedule := match raw.issuance
        case None => Some(None)
        case Some(iss) =>
          match ValidSteps(iss.schedule.GetOr([]))
          case None => None
          case Some(steps) => Some(Some(steps));
      if schedule.None? then Err(InvalidConfig)
      else
        var roles := raw.roles.value;
        Ok(Config(
          raw.kind.GetOr("erc20_restricted"),
          raw.name.value,
          raw.symbol.value,
          raw.decimals.value.r.Floor,
          raw.cap.value,
          roles.owner.value,
          roles.minters.GetOr([]),
          roles.complianceAdmins.GetOr([]),
          match raw.compliance
            case None => None
            case Some(c) => Some(c.mode.GetOr("whitelist")),
          schedule.value,
          match raw.whitelist
            case None => None
            case Some(w) => Some(w.allow.GetOr([]))))
  }

  /** Of an otherwise valid body, the `decimals` value alone decides acceptance:
      exactly the integers 0 to 36 pass. */
  lemma DecimalsDecide(raw: RawConfig, n: JsNumber)
    requires Parse(raw).Ok?
    ensures Parse(raw.(decimals := Some(n))).Ok? <==> DecimalsOk(n)
  {
  }

  /** Concretely: 18 passes; 37, -1, 2.5 and NaN do not. */
  lemma DecimalsExamples()
    ensures DecimalsOk(Finite(18.0)) && DecimalsOk(Finite(0.0)) && DecimalsOk(Finite(36.0))
    ensures !DecimalsOk(Finite(37.0)) && !DecimalsOk(Finite(-1.0)) && !DecimalsOk(Finite(2.5)) && !DecimalsOk(NaN)
  {
    assert (2.5).Floor == 2;
  }
}
