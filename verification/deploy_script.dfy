/**
 * The pure decisions of the two YAML-driven token deploy scripts: the `addr`
 * role-prefix normaliser (copied verbatim into three scripts), the token type
 * check, the `decimals` default, which addresses are normalised, and which
 * issuance steps are minted, and every way the run can stop before it is done.
 * The chain calls themselves are not modelled; `BigInt` on a text is the
 * parameter `toBigInt`, `None` where it throws.
 */
module DeployScript {
  import opened Wrappers
  import opened Text

  datatype DeployError =
    | EmptyAddress       // "empty address"
    | UnsupportedType    // the config's `type` is not "erc20_restricted"
    | MissingRoles       // `cfg.roles.owner` read on a config without `roles`
    | InvalidBigInt      // `BigInt(...)` threw on the cap or on a minted amount

  /** An address in the config either starts with one of these prefixes or is used as it is. */
  predicate HasRolePrefix(input: string) {
    "eoa:" <= input || "safe:" <= input
  }

  function PrefixLength(input: string): nat
    requires HasRolePrefix(input)
  {
    if "eoa:" <= input then 4 else 5
  }

  /** `addr`: reject the empty string; for "eoa:"/"safe:" input take the text
      between the first and second colon (`split(":")[1]`); otherwise the input. */
  function Addr(input: string): (r: Result<string, DeployError>)
    ensures r.Err? <==> input == []
    ensures r.Err? ==> r.error == EmptyAddress
    ensures r.Ok? && !HasRolePrefix(input) ==> r.value == input
    ensures r.Ok? && HasRolePrefix(input) ==>
      var n := PrefixLength(input);
      && ':' !in r.value
      && n + |r.value| <= |input|
      && input[n..n + |r.value|] == r.value
      && (n + |r.value| == |input| || input[n + |r.value|] == ':')
  {
    if input == [] then Err(EmptyAddress)
    else if HasRolePrefix(input) then
      SecondPiece(input);
      Ok(Split(input, ':')[1])
    else Ok(input)
  }

  /** For prefixed input, `split(":")[1]` exists and is the colon-free run of text
      that follows the prefix. */
  lemma SecondPiece(input: string)
    requires HasRolePrefix(input)
    ensures |Split(input, ':')| > 1
    ensures
      var n := PrefixLength(input);
      var p := Split(input, ':')[1];
      && ':' !in p
      && n + |p| <= |input|
      && input[n..n + |p|] == p
      && (n + |p| == |input| || input[n + |p|] == ':')
  {
    var n := PrefixLength(input);
    var head := input[..n - 1];
    var tail := input[n..];
    PrefixAndColon(input);
    SplitAfterColonFree(head, tail, ':');
    assert Split(input, ':')[1] == Split(tail, ':')[0];
    var p := Split(tail, ':')[0];
    FirstPiece(tail, ':');
    assert input[n..n + |p|] == tail[..|p|];
  }

  /** A role prefix is a colon-free word followed by the first colon. */
  lemma PrefixAndColon(input: string)
    requires HasRolePrefix(input)
    ensures
      var n := PrefixLength(input);
      && input == input[..n - 1] + [':'] + input[n..]
      && ':' !in input[..n - 1]
  {
    var n := PrefixLength(input);
    assert input[..n - 1] == "eoa" || input[..n - 1] == "safe";
    assert input[n - 1] == ':';
    assert input == input[..n - 1] + [input[n - 1]] + input[n..];
  }

  /** The first piece of a split is the text up to the first separator. */
  lemma FirstPiece(s: string, sep: char)
    ensures
      var p := Split(s, sep)[0];
      && |p| <= |s| && s[..|p|] == p
      && (|p| == |s| || s[|p|] == sep)
  {
    var parts := Split(s, sep);
    JoinStartsWithFirst(parts, sep);
    assert |parts| == 1 ==> parts[0] == s;
  }

  /** Splitting at the first separator: the head is the first piece. */
  lemma SplitAfterColonFree(head: string, tail: string, sep: char)
    requires sep !in head
    ensures Split(head + [sep] + tail, sep) == [head] + Split(tail, sep)
  {
    var xs := [head] + Split(tail, sep);
    assert Join(xs, sep) == head + [sep] + tail by {
      assert xs[1..] == Split(tail, sep);
    }
    SplitJoin(xs, sep);
  }

  /** `addr("eoa:X")` and `addr("safe:X")` give back X when X has no colon. */
  lemma AddrStripsPrefix(x: string)
    requires ':' !in x
    ensures Addr("eoa:" + x) == Ok(x)
    ensures Addr("safe:" + x) == Ok(x)
  {
    var e := "eoa:" + x;
    assert "eoa:" <= e && e[4..] == x;
    PrefixedPiece(e, 4, x);
    var s := "safe:" + x;
    assert s[0] == 's';
    assert "safe:" <= s && !("eoa:" <= s) && s[5..] == x;
    PrefixedPiece(s, 5, x);
  }

  /** Prefixed input whose text after the prefix has no colon maps to that text. */
  lemma PrefixedPiece(input: string, n: nat, x: string)
    requires HasRolePrefix(input) && PrefixLength(input) == n
    requires input[n..] == x && ':' !in x
    ensures Addr(input) == Ok(x)
  {
    SecondPiece(input);
    var p := Split(input, ':')[1];
    assert forall k :: n <= k < |input| ==> input[k] in x;
    assert p == input[n..];
  }

  /** `addr("eoa:")` yields the empty string instead of failing. */
  lemma AddrBarePrefix()
    ensures Addr("eoa:") == Ok([])
    ensures Addr("safe:") == Ok([])
  {
    AddrStripsPrefix([]);
  }

  /** The prefix is matched case-sensitively: "EOA:x" is returned unchanged. */
  lemma AddrPrefixCaseSensitive()
    ensures Addr("EOA:0xab") == Ok("EOA:0xab")
  {
    var s := "EOA:0xab";
    assert s[0] == 'E';
    assert !HasRolePrefix(s);
  }

  /** `addr` applied to each entry, the first empty entry aborting the run. */
  function AddrAll(xs: seq<string>): (r: Result<seq<string>, DeployError>)
    ensures r.Ok? <==> forall i :: 0 <= i < |xs| ==> xs[i] != []
    ensures r.Err? ==> r.error == EmptyAddress
    ensures r.Ok? ==> |r.value| == |xs| && forall i :: 0 <= i < |xs| ==> Addr(xs[i]) == Ok(r.value[i])
  {
    if xs == [] then Ok([])
    else
      match Addr(xs[0])
      case Err(e) => Err(e)
      case Ok(a) =>
        match AddrAll(xs[1..])
        case Err(e) => Err(e)
        case Ok(rest) =>
          var r := [a] + rest;
          assert forall i :: 1 <= i < |xs| ==> xs[i] == xs[1..][i - 1] && r[i] == rest[i - 1];
          Ok(r)
  }

  /** One issuance step; `t` and `mint` are `None` when the YAML omits them. */
  datatype ScheduleStep = ScheduleStep(t: Option<string>, mint: Option<string>, to: string)

  /** The `roles` section. A missing `owner` is given as "", which `addr`
      rejects exactly as it rejects `undefined`. */
  datatype RoleConfig = RoleConfig(
    owner: string,
    minters: Option<seq<string>>,
    complianceAdmins: Option<seq<string>>)

  /** The YAML token config as the scripts read it. `whitelistAllow` is `None`
      when `whitelist` or `whitelist.allow` is missing, `schedule` likewise for
      `issuance.schedule`. */
  datatype TokenConfig = TokenConfig(
    kind: Option<string>,
    name: string,
    symbol: string,
    decimals: Option<int>,
    cap: Option<string>,
    roles: Option<RoleConfig>,
    whitelistAllow: Option<seq<string>>,
    schedule: Option<seq<ScheduleStep>>)

  /** What a script does with a config, in order: the token's decimals, the owner
      and the cap, the minter and compliance-admin grants, the whitelist, and the
      mints with their amounts. */
  datatype DeployPlan = DeployPlan(
    decimals: int,
    owner: string,
    cap: int,
    minters: seq<string>,
    complianceAdmins: seq<string>,
    whitelist: seq<string>,
    mints: seq<ScheduleStep>,
    amounts: seq<int>)

  /** `BigInt(x)`: throws on a missing value and wherever `toBigInt` says so. */
  function BigIntOf(x: Option<string>, toBigInt: string -> Option<int>): (r: Result<int, DeployError>)
    ensures r.Ok? <==> x.Some? && toBigInt(x.value).Some?
    ensures r.Ok? ==> toBigInt(x.value) == Some(r.value)
    ensures r.Err? ==> r.error == InvalidBigInt
  {
    if x.Some? && toBigInt(x.value).Some? then Ok(toBigInt(x.value).value) else Err(InvalidBigInt)
  }

  /** The amount of each step, in order, the first unreadable one stopping the run. */
  function Amounts(steps: seq<ScheduleStep>, toBigInt: string -> Option<int>): (r: Result<seq<int>, DeployError>)
    ensures r.Ok? <==> forall i :: 0 <= i < |steps| ==> BigIntOf(steps[i].mint, toBigInt).Ok?
    ensures r.Err? ==> r.error == InvalidBigInt
    ensures r.Ok? ==> |r.value| == |steps|
    ensures r.Ok? ==> forall i :: 0 <= i < |steps| ==> BigIntOf(steps[i].mint, toBigInt) == Ok(r.value[i])
  {
    if steps == [] then Ok([])
    else
      match BigIntOf(steps[0].mint, toBigInt)
      case Err(e) => Err(e)
      case Ok(a) =>
        match Amounts(steps[1..], toBigInt)
        case Err(e) => Err(e)
        case Ok(rest) =>
          var r := [a] + rest;
          assert forall i :: 1 <= i < |steps| ==> steps[i] == steps[1..][i - 1] && r[i] == rest[i - 1];
          Ok(r)
  }

  /** The two copies of the script differ only in how they read a step's `t`. */
  datatype ScriptVariant =
    | ContractsScript    // `String(s.t || "")`
    | StandaloneScript   // `String(s.t)`, where a missing `t` prints as "undefined"

  /** The text the script lower-cases and compares with "immediate". */
  function StepKindText(v: ScriptVariant, t: Option<string>): string {
    match v
    case ContractsScript => t.GetOr("")
    case StandaloneScript => t.GetOr("undefined")
  }

  predicate IsImmediate(v: ScriptVariant, s: ScheduleStep) {
    Lower(StepKindText(v, s.t)) == "immediate"
  }

  /** The steps that are minted, in schedule order. */
  function ImmediateSteps(v: ScriptVariant, steps: seq<ScheduleStep>): (r: seq<ScheduleStep>)
    ensures |r| <= |steps|
    ensures forall i :: 0 <= i < |r| ==> r[i] in steps && IsImmediate(v, r[i])
    ensures forall i :: 0 <= i < |steps| && IsImmediate(v, steps[i]) ==> steps[i] in r
  {
    if steps == [] then []
    else
      var rest := ImmediateSteps(v, steps[1..]);
      assert forall i :: 1 <= i < |steps| ==> steps[i] == steps[1..][i - 1];
      if IsImmediate(v, steps[0]) then [steps[0]] + rest else rest
  }

  /** Selection works step by step: the selection of a concatenation is the
      concatenation of the selections, so schedule order is kept. */
  lemma {:induction false} ImmediateStepsAppend(v: ScriptVariant, a: seq<ScheduleStep>, b: seq<ScheduleStep>)
    ensures ImmediateSteps(v, a + b) == ImmediateSteps(v, a) + ImmediateSteps(v, b)
  {
    if a == [] {
      assert a + b == b;
    } else {
      assert (a + b)[0] == a[0];
      assert (a + b)[1..] == a[1..] + b;
      ImmediateStepsAppend(v, a[1..], b);
    }
  }

  /** A step with no `t` is never minted, in either copy of the script; a `t` of
      "Immediate" or "IMMEDIATE" is. */
  lemma MissingKindSkipped(v: ScriptVariant, mint: Option<string>, to: string)
    ensures !IsImmediate(v, ScheduleStep(None, mint, to))
    ensures IsImmediate(v, ScheduleStep(Some("IMMEDIATE"), mint, to))
  {
    var u := Lower("undefined");
    assert u[0] == 'u';
    var e := Lower("");
    assert |e| == 0;
  }

  /** Both copies of the script mint exactly the same steps. */
  lemma {:induction false} VariantsSelectAlike(steps: seq<ScheduleStep>)
    ensures ImmediateSteps(ContractsScript, steps) == ImmediateSteps(StandaloneScript, steps)
  {
    if steps != [] {
      var s := steps[0];
      if s.t.None? {
        MissingKindSkipped(ContractsScript, s.mint, s.to);
        MissingKindSkipped(StandaloneScript, s.mint, s.to);
      }
      assert IsImmediate(ContractsScript, s) == IsImmediate(StandaloneScript, s);
      VariantsSelectAlike(steps[1..]);
    }
  }

  /** Every immediate step's amount reads as a `BigInt`. */
  predicate MintsReadable(v: ScriptVariant, steps: seq<ScheduleStep>, toBigInt: string -> Option<int>) {
    forall i :: 0 <= i < |steps| && IsImmediate(v, steps[i]) ==> BigIntOf(steps[i].mint, toBigInt).Ok?
  }

  /** The run up to its end: the type check; `addr` on the owner (an error if
      there is no `roles` section); `BigInt` on the cap; `addr` on each minter
      and each compliance admin; `BigInt` on each immediate step's amount. The
      first failure stops the run. `decimals || 18` and the whitelist cannot
      fail. */
  function PlanDeploy(v: ScriptVariant, cfg: TokenConfig, toBigInt: string -> Option<int>): (r: Result<DeployPlan, DeployError>)
    ensures r == Err(UnsupportedType) <==> cfg.kind != Some("erc20_restricted")
    ensures r == Err(MissingRoles) <==> cfg.kind == Some("erc20_restricted") && cfg.roles.None?
    ensures r == Err(InvalidBigInt) ==>
      BigIntOf(cfg.cap, toBigInt).Err? || !MintsReadable(v, cfg.schedule.GetOr([]), toBigInt)
    ensures cfg.kind == Some("erc20_restricted") && cfg.roles.Some? && cfg.roles.value.owner == [] ==>
      r == Err(EmptyAddress)
    ensures
      (cfg.kind == Some("erc20_restricted") && cfg.roles.Some? && cfg.roles.value.owner != []
       && BigIntOf(cfg.cap, toBigInt).Err?) ==> r == Err(InvalidBigInt)
    ensures
      (&& cfg.kind == Some("erc20_restricted") && cfg.roles.Some? && cfg.roles.value.owner != []
       && BigIntOf(cfg.cap, toBigInt).Ok?
       && ((exists i :: 0 <= i < |cfg.roles.value.minters.GetOr([])| && cfg.roles.value.minters.GetOr([])[i] == [])
           || (exists i :: 0 <= i < |cfg.roles.value.complianceAdmins.GetOr([])| &&
                 cfg.roles.value.complianceAdmins.GetOr([])[i] == []))) ==> r == Err(EmptyAddress)
    ensures r == Err(EmptyAddress) ==>
      && cfg.roles.Some?
      && (|| cfg.roles.value.owner == []
          || (exists i :: 0 <= i < |cfg.roles.value.minters.GetOr([])| && cfg.roles.value.minters.GetOr([])[i] == [])
          || (exists i :: 0 <= i < |cfg.roles.value.complianceAdmins.GetOr([])| &&
                cfg.roles.value.complianceAdmins.GetOr([])[i] == []))
    ensures r.Ok? <==>
      && cfg.kind == Some("erc20_restricted")
      && cfg.roles.Some?
      && cfg.roles.value.owner != []
      && BigIntOf(cfg.cap, toBigInt).Ok?
      && (forall i :: 0 <= i < |cfg.roles.value.minters.GetOr([])| ==> cfg.roles.value.minters.GetOr([])[i] != [])
      && (forall i :: 0 <= i < |cfg.roles.value.complianceAdmins.GetOr([])| ==>
            cfg.roles.value.complianceAdmins.GetOr([])[i] != [])
      && MintsReadable(v, cfg.schedule.GetOr([]), toBigInt)
    ensures r.Ok? ==> r.value.decimals == (if cfg.decimals.None? || cfg.decimals == Some(0) then 18 else cfg.decimals.value)
    ensures r.Ok? ==> Addr(cfg.roles.value.owner) == Ok(r.value.owner)
    ensures r.Ok? ==> BigIntOf(cfg.cap, toBigInt) == Ok(r.value.cap)
    ensures r.Ok? ==> AddrAll(cfg.roles.value.minters.GetOr([])) == Ok(r.value.minters)
    ensures r.Ok? ==> AddrAll(cfg.roles.value.complianceAdmins.GetOr([])) == Ok(r.value.complianceAdmins)
    ensures r.Ok? ==> r.value.whitelist == cfg.whitelistAllow.GetOr([])
    ensures r.Ok? ==> r.value.mints == ImmediateSteps(v, cfg.schedule.GetOr([]))
    ensures r.Ok? ==> |r.value.amounts| == |r.value.mints|
    ensures r.Ok? ==> forall i :: 0 <= i < |r.value.mints| ==>
      BigIntOf(r.value.mints[i].mint, toBigInt) == Ok(r.value.amounts[i])
  {
    if cfg.kind != Some("erc20_restricted") then Err(UnsupportedType)
    else if cfg.roles.None? then Err(MissingRoles)
    else
      var roles := cfg.roles.value;
      match Addr(roles.owner)
      case Err(e) => Err(e)
      case Ok(owner) =>
        match BigIntOf(cfg.cap, toBigInt)
        case Err(e) => Err(e)
        case Ok(cap) =>
          match AddrAll(roles.minters.GetOr([]))
          case Err(e) => Err(e)
          case Ok(minters) =>
            match AddrAll(roles.complianceAdmins.GetOr([]))
            case Err(e) => Err(e)
            case Ok(admins) =>
              var mints := ImmediateSteps(v, cfg.schedule.GetOr([]));
              MintsReadableSelected(v, cfg.schedule.GetOr([]), toBigInt);
              match Amounts(mints, toBigInt)
              case Err(e) => Err(e)
              case Ok(amounts) =>
                var decimals := match cfg.decimals
                  case None => 18
                  case Some(d) => if d == 0 then 18 else d;
                Ok(DeployPlan(decimals, owner, cap, minters, admins,
                              cfg.whitelistAllow.GetOr([]), mints, amounts))
  }

  /** The amounts of the selected steps all read exactly when every immediate
      step's amount does. */
  lemma MintsReadableSelected(v: ScriptVariant, steps: seq<ScheduleStep>, toBigInt: string -> Option<int>)
    ensures Amounts(ImmediateSteps(v, steps), toBigInt).Ok? <==> MintsReadable(v, steps, toBigInt)
  {
    var sel := ImmediateSteps(v, steps);
    if MintsReadable(v, steps, toBigInt) {
      forall i | 0 <= i < |sel|
        ensures BigIntOf(sel[i].mint, toBigInt).Ok?
      {
        var j :| 0 <= j < |steps| && steps[j] == sel[i];
      }
    }
  }

  /** The two copies of the script plan the same deployment. */
  lemma VariantsPlanAlike(cfg: TokenConfig, toBigInt: string -> Option<int>)
    ensures PlanDeploy(ContractsScript, cfg, toBigInt) == PlanDeploy(StandaloneScript, cfg, toBigInt)
  {
    var steps := cfg.schedule.GetOr([]);
    VariantsSelectAlike(steps);
    assert ImmediateSteps(ContractsScript, steps) == ImmediateSteps(StandaloneScript, steps);
  }
}
