/**
 * The upload controller of upload-system-info.js: configuration read from
 * the process environment, the endpoint URL, the PUT request with the agent
 * key in a header (and optionally in the body), and the bounded fixed-delay
 * retry loop.  The network is injected: the i-th call of `fetch` answers
 * `responses(i)`, the DNS lookup answers `dnsResolves`, and a sleep is
 * recorded rather than waited for.
 */
module Upload {
  import opened Wrappers
  import opened Json
  import Text
  import Uri

  /** `process.env`: a variable that is not set has no entry. */
  type Env = map<string, string>

  /** What `uploadSystemInfo` throws: an `Error` with a message, or `undefined`. */
  datatype Failure = Thrown(message: string) | ThrownUndefined

  const InvalidSystemInfo := Thrown("systemInfo inv\U{00ED}lido")
  const BaseUrlMissing := Thrown("SERVER_BASE_URL no configurado")
  const AgentKeyMissing := Thrown("AGENT_KEY no configurado")
  const FetchUnavailable := Thrown("No se encontr\U{00F3} fetch global ni node-fetch.")

  // ---------------------------------------------------------------------
  // Reading the environment

  /** The variable's value, or "" when it is not set (`process.env[name] || ""`). */
  function EnvValue(env: Env, name: string): string {
    if name in env then env[name] else ""
  }

  /** A setting that `readEnvString` treats as absent: unset, or nothing but white space. */
  predicate Blank(env: Env, name: string) {
    Text.Trim(EnvValue(env, name)) == ""
  }

  /** `readEnvString`: the trimmed value when it is not blank, else the default. */
  function ReadEnvString(env: Env, name: string, def: string): (r: string)
    ensures !Blank(env, name) ==> r == Text.Trim(env[name]) && r != ""
    ensures Blank(env, name) ==> r == def
  {
    var v := Text.Trim(EnvValue(env, name));
    if v != "" then v else def
  }

  /** With an empty default, `readEnvString` is empty exactly when the setting is blank. */
  lemma ReadEnvStringEmpty(env: Env, name: string)
    ensures ReadEnvString(env, name, "") == "" <==> Blank(env, name)
  {
    if Blank(env, name) {} else {}
  }

  /**
   * `readEnvNumber`: `Number(value)` when that is finite, else the default.
   * `toNumber` stands for `Number` on a string (None: not finite); an unset
   * variable is `Number(undefined)`, which is NaN.
   */
  function ReadEnvNumber(env: Env, name: string, def: real, toNumber: string -> Option<real>): (r: real)
    ensures name !in env ==> r == def
    ensures name in env && toNumber(env[name]).None? ==> r == def
    ensures name in env && toNumber(env[name]).Some? ==> r == toNumber(env[name]).value
  {
    if name in env && toNumber(env[name]).Some? then toNumber(env[name]).value else def
  }

  /** Case-insensitive (ASCII) equality with "true". */
  predicate IsTrueIgnoringCase(s: string) {
    |s| == 4 && forall k :: 0 <= k < 4 ==> s[k] == "true"[k] || s[k] == "TRUE"[k]
  }

  /** `SEND_AGENT_KEY_IN_BODY`: the trimmed value (default "false"), lower-cased, is "true". */
  function SendKeyInBody(env: Env): bool {
    Text.AsciiLower(ReadEnvString(env, "SEND_AGENT_KEY_IN_BODY", "false")) == "true"
  }

  lemma LowerIsTrue(v: string)
    ensures Text.AsciiLower(v) == "true" <==> IsTrueIgnoringCase(v)
  {
    var low := Text.AsciiLower(v);
    if low == "true" {
      forall k | 0 <= k < 4 ensures v[k] == "true"[k] || v[k] == "TRUE"[k] {
        assert low[k] == "true"[k];
      }
    }
    if IsTrueIgnoringCase(v) {
      assert low == "true";
    }
  }

  /** The key goes into the body exactly when the trimmed setting is "true" in any letter case. */
  lemma SendKeyInBodyIff(env: Env)
    ensures SendKeyInBody(env) <==> IsTrueIgnoringCase(Text.Trim(EnvValue(env, "SEND_AGENT_KEY_IN_BODY")))
  {
    var name := "SEND_AGENT_KEY_IN_BODY";
    var v := ReadEnvString(env, name, "false");
    if Blank(env, name) {
      assert v == "false";
      LowerIsTrue(v);
    } else {
      assert name in env;
      assert v == Text.Trim(EnvValue(env, name));
      LowerIsTrue(v);
    }
  }

  /** `AGENT_ID`: the host name when it is unset, empty or "auto"; otherwise the value as it is (not trimmed). */
  function AgentId(env: Env, hostname: string): (r: string)
    ensures "AGENT_ID" !in env || env["AGENT_ID"] == "" || env["AGENT_ID"] == "auto" ==> r == hostname
    ensures "AGENT_ID" in env && env["AGENT_ID"] != "" && env["AGENT_ID"] != "auto" ==> r == env["AGENT_ID"]
  {
    if "AGENT_ID" in env && env["AGENT_ID"] == "auto" then hostname
    else if "AGENT_ID" in env && env["AGENT_ID"] != "" then env["AGENT_ID"]
    else hostname
  }

  datatype Config = Config(
    baseUrl: string,
    agentKey: string,
    headerName: string,
    sendKeyInBody: bool,
    maxRetries: real,
    retryDelayMs: real,
    agentId: string)

  /** The settings `uploadSystemInfo` reads, with their defaults. */
  function DeriveConfig(env: Env, hostname: string, toNumber: string -> Option<real>): Config {
    Config(
      ReadEnvString(env, "SERVER_BASE_URL", ""),
      ReadEnvString(env, "AGENT_KEY", ""),
      ReadEnvString(env, "AGENT_KEY_HEADER_NAME", "x-agent-key"),
      SendKeyInBody(env),
      ReadEnvNumber(env, "MAX_RETRIES", 5.0, toNumber),
      ReadEnvNumber(env, "RETRY_DELAY_MS", 3000.0, toNumber),
      AgentId(env, hostname))
  }

  /**
   * The checks before any network activity: the payload must be an object
   * (or an array), then the base URL and then the key must not be blank.
   */
  function Prepare(systemInfo: Json, env: Env, hostname: string, toNumber: string -> Option<real>): (r: Result<Config, Failure>)
    ensures !IsObject(systemInfo) ==> r == Err(InvalidSystemInfo)
    ensures IsObject(systemInfo) && Blank(env, "SERVER_BASE_URL") ==> r == Err(BaseUrlMissing)
    ensures IsObject(systemInfo) && !Blank(env, "SERVER_BASE_URL") && Blank(env, "AGENT_KEY") ==> r == Err(AgentKeyMissing)
    ensures r.Ok? <==> IsObject(systemInfo) && !Blank(env, "SERVER_BASE_URL") && !Blank(env, "AGENT_KEY")
    ensures r.Ok? ==> r.value == DeriveConfig(env, hostname, toNumber) && r.value.baseUrl != "" && r.value.agentKey != ""
  {
    ReadEnvStringEmpty(env, "SERVER_BASE_URL");
    ReadEnvStringEmpty(env, "AGENT_KEY");
    if !IsObject(systemInfo) then Err(InvalidSystemInfo)
    else if ReadEnvString(env, "SERVER_BASE_URL", "") == "" then Err(BaseUrlMissing)
    else if ReadEnvString(env, "AGENT_KEY", "") == "" then Err(AgentKeyMissing)
    else Ok(DeriveConfig(env, hostname, toNumber))
  }

  // ---------------------------------------------------------------------
  // Key masking

  function Min(a: nat, b: nat): nat { if a < b then a else b }

  /** `maskKey`: the first three and last three characters around "***" (fewer for a short key); "" for "". */
  function MaskKey(key: string): (r: string)
    ensures key == "" <==> r == ""
    ensures key != "" ==> var m := Min(3, |key|);
      && |r| == 2 * m + 3
      && r[..m] == key[..m] && r[m..m + 3] == "***" && r[m + 3..] == key[|key| - m..]
  {
    if key == "" then "" else
      var m := Min(3, |key|);
      var r := key[..m] + "***" + key[|key| - m..];
      assert r[..m] == key[..m] && r[m..m + 3] == "***" && r[m + 3..] == key[|key| - m..];
      r
  }

  /** Keys of at least three characters share a mask exactly when they share their first and last three characters. */
  lemma MaskRevealsOnlyTheEnds(a: string, b: string)
    requires |a| >= 3 && |b| >= 3
    ensures MaskKey(a) == MaskKey(b) <==> a[..3] == b[..3] && a[|a| - 3..] == b[|b| - 3..]
  {
    var ma, mb := MaskKey(a), MaskKey(b);
    if ma == mb {
      assert a[..3] == ma[..3] == b[..3];
      assert a[|a| - 3..] == ma[6..] == b[|b| - 3..];
    }
  }

  // ---------------------------------------------------------------------
  // The endpoint

  /** `baseUrl.replace(/\/+$/, "")`: `s` without the run of '/' at its end. */
  function TrimTrailingSlashes(s: string): (r: string)
    ensures |r| <= |s| && r == s[..|r|]
    ensures forall k :: |r| <= k < |s| ==> s[k] == '/'
    ensures r == [] || r[|r| - 1] != '/'
  {
    if |s| > 0 && s[|s| - 1] == '/' then TrimTrailingSlashes(s[..|s| - 1]) else s
  }

  const AgentsPath := "/api/v1/agents/"
  const SystemInfoPath := "/system-info"

  /** `buildEndpointUrl`. */
  function BuildEndpointUrl(baseUrl: string, agentId: string): string {
    TrimTrailingSlashes(baseUrl) + AgentsPath + Uri.EncodeURIComponent(agentId) + SystemInfoPath
  }

  /** A worked example: one trailing slash is dropped and the space in the id is escaped. */
  lemma EndpointExample()
    ensures BuildEndpointUrl("http://h:3000/", "my id") == "http://h:3000" + "/api/v1/agents/" + "my%20id" + "/system-info"
  {
    ExampleBase();
    ExampleSegment();
  }

  lemma ExampleBase()
    ensures TrimTrailingSlashes("http://h:3000/") == "http://h:3000"
  {
    var base := "http://h:3000";
    assert (base + "/")[..|base|] == base;
    assert TrimTrailingSlashes(base + "/") == base;
  }

  lemma ExampleSegment()
    ensures Uri.EncodeURIComponent("my id") == "my%20id"
  {
    Uri.EncodeSpace();
    assert Uri.EncodeURIComponent("d") == "d";
    assert Uri.EncodeURIComponent("id") == "id";
    assert Uri.EncodeURIComponent(" id") == "%20id";
    assert Uri.EncodeURIComponent("y id") == "y%20id";
  }

  /** A trailing slash on the base URL does not change the endpoint. */
  lemma EndpointIgnoresTrailingSlash(baseUrl: string, agentId: string)
    ensures BuildEndpointUrl(baseUrl + "/", agentId) == BuildEndpointUrl(baseUrl, agentId)
  {
    assert (baseUrl + "/")[..|baseUrl|] == baseUrl;
  }

  /**
   * The endpoint is the base URL without its trailing slashes, the agents
   * path, one path segment from which the agent id can be decoded, and the
   * system-info path.
   */
  lemma EndpointParts(baseUrl: string, agentId: string)
    ensures var prefix := TrimTrailingSlashes(baseUrl); var segment := Uri.EncodeURIComponent(agentId);
      && BuildEndpointUrl(baseUrl, agentId) == prefix + AgentsPath + segment + SystemInfoPath
      && baseUrl == prefix + baseUrl[|prefix|..]
      && (forall k :: |prefix| <= k < |baseUrl| ==> baseUrl[k] == '/')
      && (prefix == [] || prefix[|prefix| - 1] != '/')
      && '/' !in segment
      && Uri.DecodeURIComponent(segment) == Some(agentId)
  {
    var prefix := TrimTrailingSlashes(baseUrl);
    assert baseUrl == prefix + baseUrl[|prefix|..];
    Uri.DecodeEncode(agentId);
    var segment := Uri.EncodeURIComponent(agentId);
    assert '/' !in segment by {
      forall k | 0 <= k < |segment| ensures segment[k] != '/' {
        assert Uri.IsUnescaped(segment[k]) || segment[k] == '%' || Uri.IsUpperHex(segment[k]);
      }
    }
  }

  // ---------------------------------------------------------------------
  // The request

  datatype Request = Request(url: string, verb: string, headers: map<string, string>, body: Json)

  /**
   * The own enumerable properties `{...payload}` copies: an object's fields;
   * an array's elements, and a string's characters, under "0", "1", ...;
   * nothing for null, booleans and numbers.
   */
  function Spread(payload: Json): (r: map<string, Json>)
    ensures payload.JObj? ==> r == payload.fields
    ensures payload.JArr? ==> forall i :: 0 <= i < |payload.items| ==>
      Text.NatToString(i) in r && r[Text.NatToString(i)] == payload.items[i]
    ensures payload.JArr? ==> forall k :: k in r ==> exists i :: 0 <= i < |payload.items| && k == Text.NatToString(i)
    ensures payload.JStr? ==> forall i :: 0 <= i < |payload.s| ==>
      Text.NatToString(i) in r && r[Text.NatToString(i)] == JStr([payload.s[i]])
    ensures payload.JStr? ==> forall k :: k in r ==> exists i :: 0 <= i < |payload.s| && k == Text.NatToString(i)
    ensures payload.JNull? || payload.JBool? || payload.JNum? ==> r == map[]
  {
    match payload
    case JObj(fields) => fields
    case JArr(items) => SpreadItems(items, |items|)
    case JStr(chars) => SpreadItems(seq(|chars|, i requires 0 <= i < |chars| => JStr([chars[i]])), |chars|)
    case _ => map[]
  }

  function SpreadItems(items: seq<Json>, n: nat): (r: map<string, Json>)
    requires n <= |items|
    ensures forall i :: 0 <= i < n ==> Text.NatToString(i) in r && r[Text.NatToString(i)] == items[i]
    ensures forall k :: k in r ==> exists i :: 0 <= i < n && k == Text.NatToString(i)
  {
    if n == 0 then map[]
    else
      var r := SpreadItems(items, n - 1)[Text.NatToString(n - 1) := items[n - 1]];
      assert forall i :: 0 <= i < n - 1 ==> Text.NatToString(i) != Text.NatToString(n - 1) by {
        forall i | 0 <= i < n - 1 ensures Text.NatToString(i) != Text.NatToString(n - 1) {
          if Text.NatToString(i) == Text.NatToString(n - 1) { Text.NatToStringInjective(i, n - 1); }
        }
      }
      r
  }

  /** The headers of `sendToServer`: JSON content type, then the key under the configured name (which wins on a clash). */
  function Headers(cfg: Config): (h: map<string, string>)
    ensures h.Keys == {"Content-Type", cfg.headerName}
    ensures h[cfg.headerName] == cfg.agentKey
    ensures cfg.headerName != "Content-Type" ==> h["Content-Type"] == "application/json"
  {
    map["Content-Type" := "application/json"][cfg.headerName := cfg.agentKey]
  }

  /** The body of `sendToServer`: the payload, or a copy of its properties with `agentKey` set. */
  function Body(cfg: Config, payload: Json): (b: Json)
    ensures !cfg.sendKeyInBody ==> b == payload
    ensures cfg.sendKeyInBody ==>
      && b.JObj?
      && b.fields.Keys == Spread(payload).Keys + {"agentKey"}
      && b.fields["agentKey"] == JStr(cfg.agentKey)
      && forall k :: k in Spread(payload) && k != "agentKey" ==> b.fields[k] == Spread(payload)[k]
  {
    if cfg.sendKeyInBody then JObj(Spread(payload)["agentKey" := JStr(cfg.agentKey)]) else payload
  }

  function BuildRequest(cfg: Config, payload: Json): Request {
    Request(BuildEndpointUrl(cfg.baseUrl, cfg.agentId), "PUT", Headers(cfg), Body(cfg, payload))
  }

  // ---------------------------------------------------------------------
  // One attempt

  /** What one `fetch` call does: answer with a status and a body text (None: reading it failed), or reject. */
  datatype Response =
    | Responded(status: nat, text: Option<string>)
    | Rejected(message: string)
    | NoFetch  // neither a global fetch nor node-fetch

  /** `res.ok`: the status is in 200..299. */
  predicate Delivered(r: Response) {
    r.Responded? && 200 <= r.status < 300
  }

  /** The error `sendToServer` throws for a failed attempt. */
  function SendError(r: Response): Failure {
    match r
    case Responded(status, text) =>
      var shown := if text.Some? && text.value != "" then text.value else "sin cuerpo";
      Thrown("HTTP " + Text.NatToString(status) + ": " + shown)
    case Rejected(message) => Thrown(message)
    case NoFetch => FetchUnavailable
  }

  // ---------------------------------------------------------------------
  // The retry loop, specified

  /** How many times `for (let i = 1; i <= maxRetries; i++)` runs. */
  function AttemptBudget(maxRetries: real): (n: nat)
    ensures n == 0 <==> maxRetries < 1.0
    ensures n > 0 ==> n as real <= maxRetries < (n + 1) as real
  {
    if maxRetries < 1.0 then 0 else maxRetries.Floor
  }

  /** How many of the attempts 1..k are followed by a sleep (`i < maxRetries`). */
  function SleepsTaken(k: nat, maxRetries: real): nat {
    if k == 0 then 0 else SleepsTaken(k - 1, maxRetries) + (if (k as real) < maxRetries then 1 else 0)
  }

  /** The first attempt among 1..n whose response is a success, if any. */
  function FirstDelivered(responses: nat -> Response, n: nat): (r: Option<nat>)
    ensures r.Some? ==> 1 <= r.value <= n && Delivered(responses(r.value))
    ensures r.Some? ==> forall j :: 1 <= j < r.value ==> !Delivered(responses(j))
    ensures r.None? ==> forall j :: 1 <= j <= n ==> !Delivered(responses(j))
  {
    FirstDeliveredFrom(responses, 1, n)
  }

  function FirstDeliveredFrom(responses: nat -> Response, i: nat, n: nat): (r: Option<nat>)
    requires i >= 1
    ensures r.Some? ==> i <= r.value <= n && Delivered(responses(r.value))
    ensures r.Some? ==> forall j :: i <= j < r.value ==> !Delivered(responses(j))
    ensures r.None? ==> forall j :: i <= j <= n ==> !Delivered(responses(j))
    decreases n + 1 - i
  {
    if i > n then None
    else if Delivered(responses(i)) then Some(i)
    else FirstDeliveredFrom(responses, i + 1, n)
  }

  /** Up to the budget, every attempt but the last one possible is followed by a sleep. */
  lemma {:induction false} SleepsTakenCount(k: nat, maxRetries: real)
    requires k <= AttemptBudget(maxRetries)
    ensures SleepsTaken(k, maxRetries) == if k == 0 then 0 else k - 1 + (if (k as real) < maxRetries then 1 else 0)
  {
    if k > 1 {
      SleepsTakenCount(k - 1, maxRetries);
      assert ((k - 1) as real) < maxRetries;
    }
  }

  /**
   * A sender that always fails, with MAX_RETRIES = n >= 1: all n attempts are
   * made, none succeeds, and only the n - 1 gaps between them are slept.
   */
  lemma AlwaysFailing(responses: nat -> Response, n: nat)
    requires n >= 1
    requires forall j :: 1 <= j <= n ==> !Delivered(responses(j))
    ensures AttemptBudget(n as real) == n
    ensures FirstDelivered(responses, n) == None
    ensures SleepsTaken(n, n as real) == n - 1
  {
    SleepsTakenCount(n, n as real);
  }

  /**
   * Attempts 1..k fail and attempt k + 1 succeeds, within the budget: the
   * loop stops at attempt k + 1 after k sleeps.
   */
  lemma SucceedsAfter(responses: nat -> Response, maxRetries: real, k: nat)
    requires k + 1 <= AttemptBudget(maxRetries)
    requires forall j :: 1 <= j <= k ==> !Delivered(responses(j))
    requires Delivered(responses(k + 1))
    ensures FirstDelivered(responses, AttemptBudget(maxRetries)) == Some(k + 1)
    ensures SleepsTaken(k, maxRetries) == k
  {
    var r := FirstDelivered(responses, AttemptBudget(maxRetries));
    assert r.Some? && r.value == k + 1;
    SleepsTakenCount(k, maxRetries);
    if k > 0 {
      assert (k as real) < ((k + 1) as real) <= maxRetries;
    }
  }

  /**
   * A MAX_RETRIES that is not a whole number (say 2.5) is a JavaScript
   * number the loop allows: it then sleeps after its last attempt too.
   */
  lemma FractionalBudgetSleepsAfterLast(maxRetries: real)
    requires maxRetries >= 1.0
    requires AttemptBudget(maxRetries) as real != maxRetries
    ensures SleepsTaken(AttemptBudget(maxRetries), maxRetries) == AttemptBudget(maxRetries)
  {
    SleepsTakenCount(AttemptBudget(maxRetries), maxRetries);
  }

  // ---------------------------------------------------------------------
  // The upload

  /**
   * The `for` loop of `uploadSystemInfo`: attempt i (from 1 while i <= maxRetries)
   * sends `request`; the first success returns Ok(true); a failure is
   * remembered and followed by a sleep of `delayMs` only if i < maxRetries;
   * when the loop ends the last failure is thrown (`undefined` if there was
   * no attempt). `attempts` lists every attempt; a `NoFetch` attempt sends
   * nothing, because `sendToServer` throws before it calls `fetch`.
   */
  method SendWithRetries(request: Request, maxRetries: real, delayMs: real, responses: nat -> Response)
    returns (outcome: Result<bool, Failure>, attempts: seq<Request>, sleeps: seq<real>)
    ensures forall j :: 0 <= j < |attempts| ==> attempts[j] == request
    ensures forall j :: 0 <= j < |sleeps| ==> sleeps[j] == delayMs
    ensures var n := AttemptBudget(maxRetries);
      match FirstDelivered(responses, n)
      case Some(k) =>
        outcome == Ok(true) && |attempts| == k && |sleeps| == SleepsTaken(k - 1, maxRetries)
      case None =>
        && outcome == Err(if n == 0 then ThrownUndefined else SendError(responses(n)))
        && |attempts| == n && |sleeps| == SleepsTaken(n, maxRetries)
  {
    attempts, sleeps := [], [];
    ghost var n := AttemptBudget(maxRetries);
    var lastErr := ThrownUndefined;
    var i := 1;
    while i as real <= maxRetries
      invariant 1 <= i <= n + 1
      invariant |attempts| == i - 1 && forall j :: 0 <= j < |attempts| ==> attempts[j] == request
      invariant forall j :: 0 <= j < |sleeps| ==> sleeps[j] == delayMs
      invariant |sleeps| == SleepsTaken(i - 1, maxRetries)
      invariant forall j :: 1 <= j < i ==> !Delivered(responses(j))
      invariant lastErr == if i == 1 then ThrownUndefined else SendError(responses(i - 1))
      decreases n + 1 - i
    {
      attempts := attempts + [request];
      var response := responses(i);
      if Delivered(response) {
        outcome := Ok(true);
        assert FirstDelivered(responses, n) == Some(i);
        return;
      }
      lastErr := SendError(response);
      if (i as real) < maxRetries {
        sleeps := sleeps + [delayMs];
      }
      i := i + 1;
    }
    assert FirstDelivered(responses, n) == None;
    outcome := Err(lastErr);
  }

  /**
   * `uploadSystemInfo(systemInfo)`: the checks of `Prepare`, and then, only
   * if they pass, the DNS warning and the retry loop with the request built
   * from the configuration. Returns the outcome (Ok(true) or what is
   * thrown), every attempted request, every sleep taken (its delay) and whether
   * the DNS warning was logged; the DNS result affects nothing else.
   */
  method UploadSystemInfo(
    systemInfo: Json, env: Env, hostname: string, toNumber: string -> Option<real>,
    dnsResolves: bool, responses: nat -> Response)
    returns (outcome: Result<bool, Failure>, attempts: seq<Request>, sleeps: seq<real>, dnsWarning: bool)
    ensures match Prepare(systemInfo, env, hostname, toNumber)
      case Err(e) => outcome == Err(e) && attempts == [] && sleeps == [] && !dnsWarning
      case Ok(cfg) =>
        var n := AttemptBudget(cfg.maxRetries);
        && dnsWarning == !dnsResolves
        && (forall j :: 0 <= j < |attempts| ==> attempts[j] == BuildRequest(cfg, systemInfo))
        && (forall j :: 0 <= j < |sleeps| ==> sleeps[j] == cfg.retryDelayMs)
        && match FirstDelivered(responses, n)
           case Some(k) =>
             outcome == Ok(true) && |attempts| == k && |sleeps| == SleepsTaken(k - 1, cfg.maxRetries)
           case None =>
             && outcome == Err(if n == 0 then ThrownUndefined else SendError(responses(n)))
             && |attempts| == n && |sleeps| == SleepsTaken(n, cfg.maxRetries)
  {
    var prepared := Prepare(systemInfo, env, hostname, toNumber);
    if prepared.Err? {
      outcome, attempts, sleeps, dnsWarning := Err(prepared.error), [], [], false;
      return;
    }
    var cfg := prepared.value;
    var request := BuildRequest(cfg, systemInfo);
    dnsWarning := !dnsResolves;
    outcome, attempts, sleeps := SendWithRetries(request, cfg.maxRetries, cfg.retryDelayMs, responses);
  }
}
