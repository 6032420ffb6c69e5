/**
 * How the API servers of lego01 and lego04 pick the listening port and the
 * server URL they announce, from `NEXT_PUBLIC_API_BASE` (and, in lego04,
 * `API_PORT`). The WHATWG URL parser is a parameter: it either rejects the
 * text or yields the protocol and the explicit port (`None` for `u.port === ""`).
 */
module ServerUrl {
  import opened Wrappers
  import opened Text
  import opened Js

  /** `s.replace(/\/+$/g, '')`: the maximal run of '/' at the end removed. */
  function StripTrailingSlashes(s: string): (r: string)
    ensures r <= s
    ensures r == [] || r[|r| - 1] != '/'
    ensures forall k :: |r| <= k < |s| ==> s[k] == '/'
  {
    if s != [] && s[|s| - 1] == '/' then StripTrailingSlashes(s[..|s| - 1]) else s
  }

  /** Stripping twice strips nothing more. */
  lemma StripIdempotent(s: string)
    ensures StripTrailingSlashes(StripTrailingSlashes(s)) == StripTrailingSlashes(s)
  {
  }

  /** The result is determined by the two properties that define it: any prefix
      of `s` that does not end in '/' and is followed only by slashes is the
      stripped string. */
  lemma {:induction false} StripUnique(s: string, r: string)
    requires r <= s && (r == [] || r[|r| - 1] != '/')
    requires forall k :: |r| <= k < |s| ==> s[k] == '/'
    ensures StripTrailingSlashes(s) == r
    decreases |s|
  {
    if |s| > |r| {
      assert s[|s| - 1] == '/';
      assert r <= s[..|s| - 1];
      StripUnique(s[..|s| - 1], r);
    } else {
      assert r == s;
    }
  }

  /** What the URL parser reports, for a text it accepts. */
  datatype Url = Url(protocol: string, port: Option<nat>)

  type UrlParser = string -> Option<Url>

  /** Port and announced URL. */
  datatype Bootstrap01 = Bootstrap01(port: nat, serverUrl: string)

  /** `NEXT_PUBLIC_API_BASE?.trim()` is truthy. */
  predicate HasBase(env: Option<string>) {
    env.Some? && Trim(env.value) != []
  }

  /** The port a parsed URL implies: its explicit port, else 443 for https and 80 otherwise. */
  function UrlPort(u: Url): (p: nat)
    ensures u.port.Some? ==> p == u.port.value
    ensures u.port.None? ==> (p == 443 <==> u.protocol == "https:")
    ensures u.port.None? ==> (p == 80 <==> u.protocol != "https:")
  {
    match u.port
    case Some(n) => n
    case None => if u.protocol == "https:" then 443 else 80
  }

  /** lego01 `bootstrap`: the port starts at 0 and is set only when the base URL
      parses; the URL is the stripped base whenever the base is non-blank. */
  function Lego01(env: Option<string>, parseUrl: UrlParser): (r: Bootstrap01)
    ensures !HasBase(env) ==> r == Bootstrap01(0, "http://localhost:0/v1")
    ensures HasBase(env) ==> r.serverUrl == StripTrailingSlashes(Trim(env.value))
    ensures HasBase(env) && parseUrl(Trim(env.value)).None? ==> r.port == 0
    ensures HasBase(env) && parseUrl(Trim(env.value)).Some? ==> r.port == UrlPort(parseUrl(Trim(env.value)).value)
  {
    if !HasBase(env) then
      var port := 0;
      Bootstrap01(port, "http://localhost:" + NatToDecimal(port) + "/v1")
    else
      var base := Trim(env.value);
      match parseUrl(base)
      case Some(u) => Bootstrap01(UrlPort(u), StripTrailingSlashes(base))
      case None => Bootstrap01(0, StripTrailingSlashes(base))
  }

  /** The announced URL never ends in '/' and is the trimmed base less its
      trailing slashes, whatever the parser says. */
  lemma Lego01UrlShape(env: Option<string>, p1: UrlParser, p2: UrlParser)
    requires HasBase(env)
    ensures Lego01(env, p1).serverUrl == Lego01(env, p2).serverUrl
    ensures
      var u := Lego01(env, p1).serverUrl;
      var base := Trim(env.value);
      && (u == [] || u[|u| - 1] != '/')
      && u <= base
      && forall k :: |u| <= k < |base| ==> base[k] == '/'
  {
  }

  /** 2^53: below it in magnitude every integer is a double whose shortest
      round-trip text is its exact decimal. */
  const MaxExactInteger: real := 9007199254740992.0

  /** An integer that `Number.prototype.toString` prints digit for digit. */
  predicate ExactInteger(n: JsNumber) {
    IsInteger(n) && -MaxExactInteger < n.r < MaxExactInteger
  }

  /** `${n}` for a number: integers below 2^53 in magnitude in decimal, the
      non-finite values by name. Every other finite value (a fraction, or an
      integer large enough that the shortest round-trip digits or the exponent
      form apply) prints as the parameter `otherText` says. */
  function NumberText(n: JsNumber, otherText: real -> string): (t: string)
    ensures n == NaN ==> t == "NaN"
    ensures n == Infinity ==> t == "Infinity"
    ensures n == NegInfinity ==> t == "-Infinity"
    ensures ExactInteger(n) ==> t == IntToDecimal(n.r.Floor)
    ensures n.Finite? && !ExactInteger(n) ==> t == otherText(n.r)
  {
    match n
    case NaN => "NaN"
    case Infinity => "Infinity"
    case NegInfinity => "-Infinity"
    case Finite(r) => if ExactInteger(n) then IntToDecimal(r.Floor) else otherText(r)
  }

  datatype Bootstrap04 = Bootstrap04(port: JsNumber, serverUrl: string)

  /** lego04 `bootstrap`: the port is `Number(API_PORT)` (`apiPort` is the raw
      environment value, `Undefined` when unset); the URL is the stripped base
      in both branches of the parse, or a localhost URL naming the port. */
  function Lego04(env: Option<string>, apiPort: JsValue, parseNumber: string -> JsNumber,
                  parseUrl: UrlParser, otherText: real -> string): (r: Bootstrap04)
    ensures r.port == ToNumber(apiPort, parseNumber)
    ensures !HasBase(env) ==>
      r.serverUrl == "http://localhost:" + NumberText(ToNumber(apiPort, parseNumber), otherText) + "/v1"
    ensures HasBase(env) ==> r.serverUrl == StripTrailingSlashes(Trim(env.value))
  {
    var port := ToNumber(apiPort, parseNumber);
    if !HasBase(env) then
      Bootstrap04(port, "http://localhost:" + NumberText(port, otherText) + "/v1")
    else
      var base := Trim(env.value);
      match parseUrl(base)
      case Some(_) => Bootstrap04(port, StripTrailingSlashes(base))
      case None => Bootstrap04(port, StripTrailingSlashes(base))
  }

  /** Whether the base parses as a URL makes no difference to lego04. */
  lemma Lego04ParseIrrelevant(env: Option<string>, apiPort: JsValue, parseNumber: string -> JsNumber,
                              p1: UrlParser, p2: UrlParser, otherText: real -> string)
    ensures Lego04(env, apiPort, parseNumber, p1, otherText) == Lego04(env, apiPort, parseNumber, p2, otherText)
  {
  }

  /** With neither variable set, the computed port is `NaN` and the server
      URL is "http://localhost:NaN/v1" (the `listen` call that would receive
      that port is outside the model). */
  lemma Lego04Unconfigured(parseNumber: string -> JsNumber, parseUrl: UrlParser, otherText: real -> string)
    ensures Lego04(None, Undefined, parseNumber, parseUrl, otherText) ==
      Bootstrap04(NaN, "http://localhost:NaN/v1")
  {
  }

  /** Without a base, a port that reads as a TCP port number is announced in
      plain decimal, whatever `otherText` would print. */
  lemma Lego04NamesPort(env: Option<string>, apiPort: JsValue, parseNumber: string -> JsNumber,
                        parseUrl: UrlParser, otherText: real -> string, p: nat)
    requires !HasBase(env) && p < 65536
    requires ToNumber(apiPort, parseNumber) == Finite(p as real)
    ensures Lego04(env, apiPort, parseNumber, parseUrl, otherText).serverUrl ==
      "http://localhost:" + NatToDecimal(p) + "/v1"
  {
    assert (p as real).Floor == p;
  }

  /** A whitespace-only base counts as absent. */
  lemma BlankBaseIgnored(env: string)
    requires AllSpace(env)
    ensures !HasBase(Some(env))
  {
    TrimEmpty(env);
  }
}
