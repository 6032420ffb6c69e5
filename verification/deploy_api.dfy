/**
 * The token deploy endpoint of the API: how a request body is turned into a
 * validated config (YAML or JSON by content type), what the response is when
 * the deploy script fails (as written, and as the code evidently intends), and how the deployed addresses are read back out of
 * the script's log. The YAML and JSON parsers and the child process are inputs.
 */
module DeployApi {
  import opened Wrappers
  import opened Text
  import opened TokenSchema

  /** A request body: raw text (YAML or JSON) or an object already parsed by the JSON middleware. */
  datatype Body = TextBody(text: string) | ObjectBody(value: RawConfig)

  datatype Parser = YamlParser | JsonParser | NoParser

  /** A text parser: `None` when it throws or produces something that is not an object. */
  type Loader = string -> Option<RawConfig>

  /** Why a request is answered with status 400: a body no parser accepts, a
      body the schema rejects, or a deploy script that exited with a non-zero
      code (the error `execa` throws; its message text is not modelled). */
  datatype ApiError = Unparseable | Rejected(error: SchemaError) | ScriptFailed(exitCode: int)

  /** The parser a body goes through: text is YAML exactly when the content type
      contains "yaml" (case-sensitive, anywhere in the header), otherwise JSON. */
  function ChooseParser(body: Body, contentType: Option<string>): (p: Parser)
    ensures p == NoParser <==> body.ObjectBody?
    ensures p == YamlParser <==> body.TextBody? && Contains(contentType.GetOr(""), "yaml")
  {
    match body
    case ObjectBody(_) => NoParser
    case TextBody(_) => if Contains(contentType.GetOr(""), "yaml") then YamlParser else JsonParser
  }

  /** Without a content type, text goes to the JSON parser. */
  lemma NoContentTypeIsJson(t: string)
    ensures ChooseParser(TextBody(t), None) == JsonParser
  {
    ContainsHasFirstChar([], "yaml");
  }

  /** "application/x-yaml" selects the YAML parser. */
  lemma YamlContentType(t: string)
    ensures ChooseParser(TextBody(t), Some("application/x-yaml")) == YamlParser
  {
    var y := "application/x-yaml";
    assert "yaml" <= y[14..];
    ContainsSuffix(y, 14, "yaml");
  }

  /** The test is case-sensitive: "text/YAML" sends text to the JSON parser. */
  lemma UpperCaseYamlIsJson(t: string)
    ensures ChooseParser(TextBody(t), Some("text/YAML")) == JsonParser
  {
    var u := "text/YAML";
    ContainsHasFirstChar(u, "yaml");
    assert forall i :: 0 <= i < |u| ==> u[i] != 'y';
  }

  /** A prefix of a suffix is contained. */
  lemma {:induction false} ContainsSuffix(s: string, i: nat, sub: string)
    requires i <= |s| && sub <= s[i..]
    ensures Contains(s, sub)
  {
    if i > 0 {
      assert s[1..][i - 1..] == s[i..];
      ContainsSuffix(s[1..], i - 1, sub);
    }
  }

  /** Text containing `sub` contains its first character. */
  lemma {:induction false} ContainsHasFirstChar(s: string, sub: string)
    requires sub != []
    ensures Contains(s, sub) ==> sub[0] in s
  {
    if s != [] && !(sub <= s) {
      ContainsHasFirstChar(s[1..], sub);
    }
  }

  /** `parseBodyToConfig`: parse the body as the content type says, then validate. */
  function ParseBodyToConfig(body: Body, contentType: Option<string>, yamlLoad: Loader, jsonParse: Loader)
    : (r: Result<Config, ApiError>)
    ensures
      var loaded := match ChooseParser(body, contentType)
        case YamlParser => yamlLoad(body.text)
        case JsonParser => jsonParse(body.text)
        case NoParser => Some(body.value);
      && (loaded.None? <==> r == Err(Unparseable))
      && (loaded.Some? ==> r == match Parse(loaded.value)
            case Ok(c) => Ok(c)
            case Err(e) => Err(Rejected(e)))
  {
    var loaded := match body
      case TextBody(t) => if Contains(contentType.GetOr(""), "yaml") then yamlLoad(t) else jsonParse(t)
      case ObjectBody(v) => Some(v);
    match loaded
    case None => Err(Unparseable)
    case Some(raw) =>
      match Parse(raw)
      case Ok(c) => Ok(c)
      case Err(e) => Err(Rejected(e))
  }

  predicate IsHexDigit(c: char) {
    '0' <= c <= '9' || 'a' <= c <= 'f' || 'A' <= c <= 'F'
  }

  /** What the capture group `(0x[a-fA-F0-9]{40})` of a case-insensitive regex
      matches: "0x" or "0X" and forty hex digits. */
  predicate IsHexAddress(a: string) {
    |a| == 42 && a[0] == '0' && (a[1] == 'x' || a[1] == 'X')
    && forall i :: 2 <= i < 42 ==> IsHexDigit(a[i])
  }

  /** The first index at or after `i` that is not whitespace (or the end). */
  function SkipSpaces(s: string, i: nat): (j: nat)
    requires i <= |s|
    ensures i <= j <= |s|
    ensures forall k :: i <= k < j ==> IsSpace(s[k])
    ensures j == |s| || !IsSpace(s[j])
    decreases |s| - i
  {
    if i < |s| && IsSpace(s[i]) then SkipSpaces(s, i + 1) else i
  }

  /** The regex `key\s*(0x[a-fA-F0-9]{40})` with flag `i`, read literally: a match
      starting at `p` whose capture group starts at `j`. The key is given in lower case. */
  predicate RegexMatch(log: string, key: string, p: int, j: int) {
    && 0 <= p && p + |key| <= j && j + 42 <= |log|
    && Lower(log[p..p + |key|]) == key
    && (forall k :: p + |key| <= k < j ==> IsSpace(log[k]))
    && IsHexAddress(log[j..j + 42])
  }

  /** The match attempt at position `p`: the key ignoring case, the maximal run
      of whitespace, then the address. */
  function MatchAt(log: string, key: string, p: nat): (r: Option<string>)
    ensures r.Some? ==> IsHexAddress(r.value) && p + |key| <= |log|
  {
    if p + |key| <= |log| && Lower(log[p..p + |key|]) == key then
      var q := SkipSpaces(log, p + |key|);
      if q + 42 <= |log| && IsHexAddress(log[q..q + 42]) then Some(log[q..q + 42]) else None
    else None
  }

  /** Taking the whitespace run greedily loses no match: `MatchAt` succeeds
      exactly when the regex matches at `p`, and captures what the regex captures. */
  lemma MatchAtIsRegex(log: string, key: string, p: nat)
    ensures MatchAt(log, key, p).Some? <==> exists j :: RegexMatch(log, key, p, j)
    ensures forall j :: RegexMatch(log, key, p, j) ==> MatchAt(log, key, p) == Some(log[j..j + 42])
  {
    if p + |key| <= |log| && Lower(log[p..p + |key|]) == key {
      var q := SkipSpaces(log, p + |key|);
      forall j | RegexMatch(log, key, p, j) ensures j == q {
        assert !IsSpace(log[j]) by { assert log[j..j + 42][0] == log[j]; }
      }
      if q + 42 <= |log| && IsHexAddress(log[q..q + 42]) {
        assert RegexMatch(log, key, p, q);
      }
    }
  }

  /** The capture of the leftmost match at or after `p`, if any. */
  function FirstMatch(log: string, key: string, p: nat): (r: Option<string>)
    ensures r.None? <==> forall i :: p <= i <= |log| ==> MatchAt(log, key, i).None?
    ensures r.Some? ==>
      exists i :: p <= i <= |log| && MatchAt(log, key, i) == r
        && forall q :: p <= q < i ==> MatchAt(log, key, q).None?
    decreases |log| + 1 - p
  {
    if p > |log| then None
    else
      var m := MatchAt(log, key, p);
      if m.Some? then m
      else
        var r := FirstMatch(log, key, p + 1);
        assert r.Some? ==>
          exists i :: p <= i <= |log| && MatchAt(log, key, i) == r
            && forall q :: p <= q < i ==> MatchAt(log, key, q).None? by {
          if r.Some? {
            var i :| p + 1 <= i <= |log| && MatchAt(log, key, i) == r
              && forall q :: p + 1 <= q < i ==> MatchAt(log, key, q).None?;
            assert forall q :: p <= q < i ==> MatchAt(log, key, q).None?;
          }
        }
        r
  }

  /** `key.exec(stdout)?.[1] || ""` for a case-insensitive `key\s*(0x[a-fA-F0-9]{40})`. */
  function ExtractAddress(log: string, key: string): (r: string)
    ensures r == [] <==> forall p :: 0 <= p <= |log| ==> MatchAt(log, key, p).None?
    ensures r != [] ==> IsHexAddress(r)
    ensures r != [] ==>
      exists p :: 0 <= p <= |log| && MatchAt(log, key, p) == Some(r)
        && forall q :: 0 <= q < p ==> MatchAt(log, key, q).None?
  {
    match FirstMatch(log, key, 0)
    case None => []
    case Some(a) =>
      a
  }

  const RestrictorKey := "restrictor:"
  const TokenKey := "token:"

  /** The exit code and captured output of the deploy script. */
  datatype RunResult = RunResult(exitCode: int, stdout: string, stderr: string)

  datatype Response =
    | BadRequest(error: ApiError)                              // status 400
    | DeployFailed(stdout: string, stderr: string)             // status 500, error "deploy_failed"
    | Deployed(token: string, restrictor: string, stdout: string)

  /** The reply once the script has exited with code 0. */
  function Success(out: string): (resp: Response)
    ensures resp.Deployed? && resp.stdout == out
    ensures resp.token == ExtractAddress(out, TokenKey) && resp.restrictor == ExtractAddress(out, RestrictorKey)
    ensures resp.token == [] || IsHexAddress(resp.token)
    ensures resp.restrictor == [] || IsHexAddress(resp.restrictor)
  {
    Deployed(ExtractAddress(out, TokenKey), ExtractAddress(out, RestrictorKey), out)
  }

  /** `POST /api/tokens/deploy` as written: validate, run the script, read the
      addresses. `execa` is called without `reject: false`, so a non-zero exit
      makes `await child` throw and the `catch` answers 400; the
      `deploy_failed` branch is never reached. */
  function HandleDeploy(body: Body, contentType: Option<string>, yamlLoad: Loader, jsonParse: Loader,
                        run: Config -> RunResult): (resp: Response)
    ensures !resp.DeployFailed?
    ensures ParseBodyToConfig(body, contentType, yamlLoad, jsonParse).Err? ==>
      resp == BadRequest(ParseBodyToConfig(body, contentType, yamlLoad, jsonParse).error)
    ensures resp.BadRequest? <==>
      || ParseBodyToConfig(body, contentType, yamlLoad, jsonParse).Err?
      || run(ParseBodyToConfig(body, contentType, yamlLoad, jsonParse).value).exitCode != 0
    ensures ParseBodyToConfig(body, contentType, yamlLoad, jsonParse).Ok? &&
            run(ParseBodyToConfig(body, contentType, yamlLoad, jsonParse).value).exitCode != 0 ==>
      resp == BadRequest(ScriptFailed(run(ParseBodyToConfig(body, contentType, yamlLoad, jsonParse).value).exitCode))
    ensures resp.BadRequest? && resp.error.ScriptFailed? ==>
      && ParseBodyToConfig(body, contentType, yamlLoad, jsonParse).Ok?
      && resp.error.exitCode == run(ParseBodyToConfig(body, contentType, yamlLoad, jsonParse).value).exitCode
    ensures resp.Deployed? ==>
      && ParseBodyToConfig(body, contentType, yamlLoad, jsonParse).Ok?
      && resp == Success(run(ParseBodyToConfig(body, contentType, yamlLoad, jsonParse).value).stdout)
  {
    match ParseBodyToConfig(body, contentType, yamlLoad, jsonParse)
    case Err(e) => BadRequest(e)
    case Ok(cfg) =>
      var res := run(cfg);
      if res.exitCode != 0 then BadRequest(ScriptFailed(res.exitCode))
      else Success(res.stdout)
  }

  /** The endpoint as the `exitCode !== 0` branch shows it was meant to behave
      (`execa` with `reject: false`): a failed deploy is a 500 `deploy_failed`
      carrying both logs, and only a bad body is a 400. */
  function HandleDeployIntended(body: Body, contentType: Option<string>, yamlLoad: Loader, jsonParse: Loader,
                                run: Config -> RunResult): (resp: Response)
    ensures ParseBodyToConfig(body, contentType, yamlLoad, jsonParse).Err? <==> resp.BadRequest?
    ensures resp.BadRequest? ==> !resp.error.ScriptFailed?
    ensures resp.DeployFailed? <==>
      && ParseBodyToConfig(body, contentType, yamlLoad, jsonParse).Ok?
      && run(ParseBodyToConfig(body, contentType, yamlLoad, jsonParse).value).exitCode != 0
    ensures resp.DeployFailed? ==>
      var res := run(ParseBodyToConfig(body, contentType, yamlLoad, jsonParse).value);
      resp.stdout == res.stdout && resp.stderr == res.stderr
    ensures resp.Deployed? ==>
      resp == Success(run(ParseBodyToConfig(body, contentType, yamlLoad, jsonParse).value).stdout)
  {
    match ParseBodyToConfig(body, contentType, yamlLoad, jsonParse)
    case Err(e) => BadRequest(e)
    case Ok(cfg) =>
      var res := run(cfg);
      if res.exitCode != 0 then DeployFailed(res.stdout, res.stderr)
      else Success(res.stdout)
  }

  /** The discrepancy: for a valid body whose deploy exits with a non-zero code
      (1, say), the endpoint as written answers 400 where the intended reply is
      the 500 `deploy_failed` with the script's logs. */
  lemma FailedDeployAnswers400(body: Body, contentType: Option<string>, yamlLoad: Loader, jsonParse: Loader,
                               run: Config -> RunResult, code: int)
    requires ParseBodyToConfig(body, contentType, yamlLoad, jsonParse).Ok?
    requires run(ParseBodyToConfig(body, contentType, yamlLoad, jsonParse).value).exitCode == code != 0
    ensures HandleDeploy(body, contentType, yamlLoad, jsonParse, run) == BadRequest(ScriptFailed(code))
    ensures HandleDeployIntended(body, contentType, yamlLoad, jsonParse, run).DeployFailed?
  {
  }

  /** Apart from a failed deploy, the two agree: same 400 for a bad body, same
      addresses for a successful run. */
  lemma DeployVariantsAgree(body: Body, contentType: Option<string>, yamlLoad: Loader, jsonParse: Loader,
                            run: Config -> RunResult)
    requires ParseBodyToConfig(body, contentType, yamlLoad, jsonParse).Err?
      || run(ParseBodyToConfig(body, contentType, yamlLoad, jsonParse).value).exitCode == 0
    ensures HandleDeploy(body, contentType, yamlLoad, jsonParse, run) ==
      HandleDeployIntended(body, contentType, yamlLoad, jsonParse, run)
  {
  }

  /** A successful deploy whose log contains "token:" and an address reports
      a token address. */
  lemma DeployReportsToken(body: Body, contentType: Option<string>, yamlLoad: Loader, jsonParse: Loader,
                           run: Config -> RunResult, pre: string, spaces: string, a: string)
    requires ParseBodyToConfig(body, contentType, yamlLoad, jsonParse).Ok?
    requires run(ParseBodyToConfig(body, contentType, yamlLoad, jsonParse).value).exitCode == 0
    requires run(ParseBodyToConfig(body, contentType, yamlLoad, jsonParse).value).stdout == pre + TokenKey + spaces + a
    requires AllSpace(spaces) && IsHexAddress(a)
    ensures HandleDeploy(body, contentType, yamlLoad, jsonParse, run).Deployed?
    ensures IsHexAddress(HandleDeploy(body, contentType, yamlLoad, jsonParse, run).token)
  {
    assert Lower(TokenKey) == TokenKey;
    KeyThenAddressFound(pre, TokenKey, spaces, a);
  }

  /** The address is found wherever the key occurs, in any letter case, followed
      by any amount of whitespace. */
  lemma {:induction false} KeyThenAddressFound(pre: string, key: string, spaces: string, a: string)
    requires Lower(key) == key
    requires AllSpace(spaces) && IsHexAddress(a)
    ensures ExtractAddress(pre + key + spaces + a, key) != []
  {
    var log := pre + key + spaces + a;
    var p := |pre|;
    var j := |pre| + |key| + |spaces|;
    assert log[p..p + |key|] == key;
    assert log[j..j + 42] == a;
    assert forall k :: p + |key| <= k < j ==> log[k] == spaces[k - p - |key|];
    assert RegexMatch(log, key, p, j);
    MatchAtIsRegex(log, key, p);
  }
}
