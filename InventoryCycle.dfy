/**
 * One run of the inventory (`main` in index.js): collect the software list,
 * the hardware description and, on Windows, the BIOS record; stamp the
 * payload with UTC and Mexico City times; save it; upload it.  The outside
 * world (the shell, systeminformation, WMI, the clock, the file system, the
 * network) comes in as parameters.
 */
module InventoryCycle {
  import opened Wrappers
  import opened Json
  import SoftwareInventory
  import Upload
  import Text

  const TimeZone := "America/Mexico_City"

  /**
   * The software step of `main`: whatever goes wrong (unsupported platform,
   * failing command, parser error) is caught and leaves the list empty.
   */
  function SoftwareApps(platform: string, run: string -> Result<string, string>, parse: string -> Option<Json>): seq<Json> {
    match SoftwareInventory.CommandAndParser(platform)
    case Err(_) => []
    case Ok(found) =>
      match run(SoftwareInventory.Command(found))
      case Err(_) => []
      case Ok(stdout) =>
        match SoftwareInventory.RunParser(found, stdout, parse)
        case Err(_) => []
        case Ok(apps) => apps
  }

  /** The `try { ... } catch` around the software step. */
  method CollectSoftware(platform: string, run: string -> Result<string, string>, parse: string -> Option<Json>) returns (apps: seq<Json>)
    ensures apps == SoftwareApps(platform, run, parse)
  {
    apps := [];
    var found := SoftwareInventory.CommandAndParser(platform);
    if found.Ok? {
      var stdout := run(SoftwareInventory.Command(found.value));
      if stdout.Ok? {
        var parsed := SoftwareInventory.RunParser(found.value, stdout.value, parse);
        if parsed.Ok? {
          apps := parsed.value;
        }
      }
    }
  }

  /** On Linux the step fails only when the command does: then every non-blank line of its output is one entry. */
  lemma LinuxSoftware(run: string -> Result<string, string>, parse: string -> Option<Json>)
    ensures run(SoftwareInventory.Command(SoftwareInventory.Linux)).Err? ==> SoftwareApps("linux", run, parse) == []
    ensures run(SoftwareInventory.Command(SoftwareInventory.Linux)).Ok? ==>
      var packages := SoftwareInventory.ParseLinux(run(SoftwareInventory.Command(SoftwareInventory.Linux)).value);
      && |SoftwareApps("linux", run, parse)| == |packages|
      && forall i :: 0 <= i < |packages| ==> SoftwareApps("linux", run, parse)[i] == SoftwareInventory.LinuxJson(packages[i])
  {
    assert SoftwareInventory.CommandAndParser("linux") == Ok(SoftwareInventory.Linux);
  }

  /**
   * On Windows the step gives no software when the command fails or the
   * parser throws; otherwise one entry per parsed record, in order.
   */
  lemma WindowsSoftware(run: string -> Result<string, string>, parse: string -> Option<Json>)
    ensures run(SoftwareInventory.Command(SoftwareInventory.Windows)).Err? ==> SoftwareApps("win32", run, parse) == []
    ensures run(SoftwareInventory.Command(SoftwareInventory.Windows)).Ok? ==>
      var stdout := run(SoftwareInventory.Command(SoftwareInventory.Windows)).value;
      && (SoftwareInventory.ParseWindows(stdout, parse).Err? ==> SoftwareApps("win32", run, parse) == [])
      && (SoftwareInventory.ParseWindows(stdout, parse).Ok? ==>
            var apps := SoftwareInventory.ParseWindows(stdout, parse).value;
            && |SoftwareApps("win32", run, parse)| == |apps|
            && forall i :: 0 <= i < |apps| ==> SoftwareApps("win32", run, parse)[i] == SoftwareInventory.WindowsJson(apps[i]))
  {
    assert SoftwareInventory.CommandAndParser("win32") == Ok(SoftwareInventory.Windows);
    var out := run(SoftwareInventory.Command(SoftwareInventory.Windows));
    if out.Ok? {
      var parsed := SoftwareInventory.RunParser(SoftwareInventory.Windows, out.value, parse);
      assert SoftwareApps("win32", run, parse) == if parsed.Ok? then parsed.value else [];
    }
  }

  /** One null entry in the Windows output empties the whole list, however many named entries there are. */
  lemma WindowsNullEntryEmpties(run: string -> Result<string, string>, parse: string -> Option<Json>)
    requires run(SoftwareInventory.Command(SoftwareInventory.Windows)).Ok?
    requires var stdout := run(SoftwareInventory.Command(SoftwareInventory.Windows)).value;
      Text.Trim(stdout) != "" && parse(stdout).Some? && JNull in SoftwareInventory.Entries(parse(stdout).value)
    ensures SoftwareApps("win32", run, parse) == []
  {
    WindowsSoftware(run, parse);
  }

  /**
   * On macOS the step gives no software when the command fails or the
   * parser throws; otherwise one entry per parsed record, in order.
   */
  lemma MacSoftware(run: string -> Result<string, string>, parse: string -> Option<Json>)
    ensures run(SoftwareInventory.Command(SoftwareInventory.MacOS)).Err? ==> SoftwareApps("darwin", run, parse) == []
    ensures run(SoftwareInventory.Command(SoftwareInventory.MacOS)).Ok? ==>
      var stdout := run(SoftwareInventory.Command(SoftwareInventory.MacOS)).value;
      && (SoftwareInventory.ParseMac(stdout, parse).Err? ==> SoftwareApps("darwin", run, parse) == [])
      && (SoftwareInventory.ParseMac(stdout, parse).Ok? ==>
            var apps := SoftwareInventory.ParseMac(stdout, parse).value;
            && |SoftwareApps("darwin", run, parse)| == |apps|
            && forall i :: 0 <= i < |apps| ==> SoftwareApps("darwin", run, parse)[i] == SoftwareInventory.MacJson(apps[i]))
  {
    assert SoftwareInventory.CommandAndParser("darwin") == Ok(SoftwareInventory.MacOS);
    var out := run(SoftwareInventory.Command(SoftwareInventory.MacOS));
    if out.Ok? {
      var parsed := SoftwareInventory.RunParser(SoftwareInventory.MacOS, out.value, parse);
      assert SoftwareApps("darwin", run, parse) == if parsed.Ok? then parsed.value else [];
    }
  }

  /** An unsupported platform never runs a command and has no software. */
  lemma UnsupportedPlatformSoftware(platform: string, run: string -> Result<string, string>, parse: string -> Option<Json>)
    requires platform != "win32" && platform != "darwin" && platform != "linux"
    ensures SoftwareApps(platform, run, parse) == []
  {
    assert SoftwareInventory.CommandAndParser(platform).Err?;
  }

  /** `collectBiosIfWindows`: null on every platform but Windows, else what the WMI query answers. */
  function CollectBios(platform: string, biosQuery: Result<Json, string>): (r: Result<Json, string>)
    ensures r.Err? ==> platform == "win32"
    ensures platform == "win32" ==> r == biosQuery
    ensures platform != "win32" ==> r == Ok(JNull) && !Truthy(r.value)
  {
    if platform != "win32" then Ok(JNull) else biosQuery
  }

  /** `if (bios) hardware.bios = bios`: the hardware description, with the BIOS record added when there is a truthy one. */
  function WithBios(hardware: map<string, Json>, bios: Json): (h: map<string, Json>)
    ensures h.Keys == if Truthy(bios) then hardware.Keys + {"bios"} else hardware.Keys
    ensures Truthy(bios) ==> h["bios"] == bios
    ensures forall k :: k in hardware && k != "bios" ==> h[k] == hardware[k]
    ensures !Truthy(bios) ==> h == hardware
  {
    if Truthy(bios) then hardware["bios" := bios] else hardware
  }

  /**
   * `formatToParts(now).reduce((a, p) => { a[p.type] = p.value; return a; }, {})`
   * as a value: each part in turn overwrites the value stored under its type.
   */
  function PartsMap(parts: seq<(string, string)>): map<string, string> {
    if parts == [] then map[]
    else PartsMap(parts[..|parts| - 1])[parts[|parts| - 1].0 := parts[|parts| - 1].1]
  }

  /** Every part type present, each with the value of its last occurrence. */
  lemma {:induction false} PartsMapSpec(parts: seq<(string, string)>)
    ensures forall t :: t in PartsMap(parts) <==> exists i :: 0 <= i < |parts| && parts[i].0 == t
    ensures forall i :: 0 <= i < |parts| && (forall j :: i < j < |parts| ==> parts[j].0 != parts[i].0) ==> PartsMap(parts)[parts[i].0] == parts[i].1
  {
    if parts != [] {
      var init := parts[..|parts| - 1];
      PartsMapSpec(init);
      forall t | t in PartsMap(parts) ensures exists i :: 0 <= i < |parts| && parts[i].0 == t {
        if t != parts[|parts| - 1].0 {
          assert PartsMap(parts) == PartsMap(init)[parts[|parts| - 1].0 := parts[|parts| - 1].1];
          assert t in PartsMap(init);
          var i :| 0 <= i < |init| && init[i].0 == t;
          assert parts[i] == init[i];
        }
      }
      forall t | (exists i :: 0 <= i < |parts| && parts[i].0 == t) ensures t in PartsMap(parts) {
        var i :| 0 <= i < |parts| && parts[i].0 == t;
        if i < |init| { assert init[i] == parts[i]; }
      }
      forall i | 0 <= i < |parts| && (forall j :: i < j < |parts| ==> parts[j].0 != parts[i].0)
        ensures PartsMap(parts)[parts[i].0] == parts[i].1
      {
        if i < |init| {
          assert init[i] == parts[i];
          assert forall j :: i < j < |init| ==> init[j] == parts[j];
        }
      }
    }
  }

  /** The reduce itself, one part at a time. */
  method CollectParts(parts: seq<(string, string)>) returns (m: map<string, string>)
    ensures m == PartsMap(parts)
  {
    m := map[];
    var k := 0;
    while k < |parts|
      invariant 0 <= k <= |parts|
      invariant m == PartsMap(parts[..k])
    {
      assert parts[..k + 1][..k] == parts[..k];
      m := m[parts[k].0 := parts[k].1];
      k := k + 1;
    }
    assert parts[..k] == parts;
  }

  /** A template slot: the part's value, or "undefined" when the part is missing. */
  function Slot(parts: map<string, string>, name: string): string {
    if name in parts then parts[name] else "undefined"
  }

  /** `${year}-${month}-${day}T${hour}:${minute}:${second}`. */
  function LocalTimestamp(parts: map<string, string>): string {
    Slot(parts, "year") + "-" + Slot(parts, "month") + "-" + Slot(parts, "day") + "T" +
    Slot(parts, "hour") + ":" + Slot(parts, "minute") + ":" + Slot(parts, "second")
  }

  /** With a four-digit year and two-digit other parts the stamp has the ISO 8601 shape YYYY-MM-DDTHH:MM:SS. */
  lemma LocalTimestampShape(parts: map<string, string>)
    requires "year" in parts && "month" in parts && "day" in parts && "hour" in parts && "minute" in parts && "second" in parts
    requires |parts["year"]| == 4 && |parts["month"]| == 2 && |parts["day"]| == 2
    requires |parts["hour"]| == 2 && |parts["minute"]| == 2 && |parts["second"]| == 2
    ensures var r := LocalTimestamp(parts);
      && |r| == 19
      && r[4] == '-' && r[7] == '-' && r[10] == 'T' && r[13] == ':' && r[16] == ':'
      && r[..4] == parts["year"] && r[5..7] == parts["month"] && r[8..10] == parts["day"]
      && r[11..13] == parts["hour"] && r[14..16] == parts["minute"] && r[17..] == parts["second"]
  {
    var r := LocalTimestamp(parts);
    var y, mo, d, h, mi, s := parts["year"], parts["month"], parts["day"], parts["hour"], parts["minute"], parts["second"];
    assert r == y + "-" + mo + "-" + d + "T" + h + ":" + mi + ":" + s;
    assert r[..4] == y;
    assert r[5..7] == mo;
    assert r[8..10] == d;
    assert r[11..13] == h;
    assert r[14..16] == mi;
    assert r[17..] == s;
  }

  /** The `agent` block of the payload. */
  function Agent(collectedAtUtc: string, collectedAtLocal: string, hostname: string, platform: string, release: string): map<string, Json> {
    map[
      "collectedAtUtc" := JStr(collectedAtUtc), "collectedAtLocal" := JStr(collectedAtLocal),
      "timeZone" := JStr(TimeZone), "host" := JStr(hostname), "platform" := JStr(platform), "release" := JStr(release)]
  }

  /** The payload: agent metadata, hardware, and the software list with its length. */
  function SystemInfo(agent: map<string, Json>, hardware: map<string, Json>, apps: seq<Json>): Json {
    JObj(map[
      "agent" := JObj(agent),
      "hardware" := JObj(hardware),
      "software" := JObj(map["count" := JNum(|apps| as real), "apps" := JArr(apps)])])
  }

  /** The payload is an object, so the upload never rejects it; its software count is the length of its list. */
  lemma SystemInfoWellFormed(agent: map<string, Json>, hardware: map<string, Json>, apps: seq<Json>, env: Upload.Env, hostname: string, toNumber: string -> Option<real>)
    ensures var info := SystemInfo(agent, hardware, apps);
      && Upload.Prepare(info, env, hostname, toNumber) != Err(Upload.InvalidSystemInfo)
      && info.fields["software"].fields["count"] == JNum(|info.fields["software"].fields["apps"].items| as real)
  {
    var info := SystemInfo(agent, hardware, apps);
    assert IsObject(info);
    Upload.ReadEnvStringEmpty(env, "SERVER_BASE_URL");
    Upload.ReadEnvStringEmpty(env, "AGENT_KEY");
  }

  /** The payload `main` builds from what it collected. */
  function Payload(
    platform: string, hostname: string, release: string,
    run: string -> Result<string, string>, parse: string -> Option<Json>,
    hardware: map<string, Json>, bios: Json, collectedAtUtc: string, localParts: seq<(string, string)>): Json
  {
    SystemInfo(
      Agent(collectedAtUtc, LocalTimestamp(PartsMap(localParts)), hostname, platform, release),
      WithBios(hardware, bios),
      SoftwareApps(platform, run, parse))
  }

  /** The TypeError of `err.message` when what was thrown is `undefined`. */
  const UndefinedMessage := "Cannot read properties of undefined (reading 'message')"

  /**
   * The `catch (err)` around the upload: logging `err.message` is harmless
   * for a thrown Error, but throws a TypeError, which escapes `main`, when
   * the upload threw `undefined`.
   */
  function UploadCatch(outcome: Result<bool, Upload.Failure>): (escaped: Option<string>)
    ensures escaped.Some? <==> outcome == Err(Upload.ThrownUndefined)
    ensures escaped.Some? ==> escaped.value == UndefinedMessage
  {
    if outcome == Err(Upload.ThrownUndefined) then Some(UndefinedMessage) else None
  }

  /**
   * Steps 1 to 3 of `main`: the software list (failures caught), the
   * hardware and BIOS queries (either failure rejects), and the payload.
   */
  method Collect(
    platform: string, hostname: string, release: string,
    run: string -> Result<string, string>, parse: string -> Option<Json>,
    hardware: Result<map<string, Json>, string>, biosQuery: Result<Json, string>,
    collectedAtUtc: string, localParts: seq<(string, string)>)
    returns (collected: Result<Json, string>)
    ensures collected.Ok? <==> hardware.Ok? && CollectBios(platform, biosQuery).Ok?
    ensures hardware.Err? ==> collected == Err(hardware.error)
    ensures hardware.Ok? && platform == "win32" && biosQuery.Err? ==> collected == Err(biosQuery.error)
    ensures collected.Ok? ==>
      collected.value == Payload(platform, hostname, release, run, parse, hardware.value, CollectBios(platform, biosQuery).value, collectedAtUtc, localParts)
  {
    // Software: any failure is caught and leaves the list empty.
    var apps := CollectSoftware(platform, run, parse);

    // Hardware and BIOS together: either failure rejects `main`.
    var bios := CollectBios(platform, biosQuery);
    if hardware.Err? {
      return Err(hardware.error);
    }
    if bios.Err? {
      return Err(bios.error);
    }
    var described := WithBios(hardware.value, bios.value);

    // Metadata.
    var parts := CollectParts(localParts);
    var agent := Agent(collectedAtUtc, LocalTimestamp(parts), hostname, platform, release);
    collected := Ok(SystemInfo(agent, described, apps));
  }

  /**
   * Step 5 of `main`: the upload inside its `try { ... } catch`. What
   * escapes the catch is None, except when the upload made no attempt and
   * threw `undefined`.
   */
  method UploadLogged(
    info: Json, env: Upload.Env, hostname: string, toNumber: string -> Option<real>,
    dnsResolves: bool, responses: nat -> Upload.Response)
    returns (outcome: Result<bool, Upload.Failure>, attempts: seq<Upload.Request>, escaped: Option<string>)
    ensures escaped.Some? ==> escaped.value == UndefinedMessage
    ensures escaped.Some? <==> outcome == Err(Upload.ThrownUndefined)
    ensures match Upload.Prepare(info, env, hostname, toNumber)
      case Err(e) => outcome == Err(e) && attempts == [] && escaped.None?
      case Ok(cfg) =>
        && (forall j :: 0 <= j < |attempts| ==> attempts[j] == Upload.BuildRequest(cfg, info))
        && (outcome.Ok? <==> Upload.FirstDelivered(responses, Upload.AttemptBudget(cfg.maxRetries)).Some?)
        && (escaped.Some? <==> Upload.AttemptBudget(cfg.maxRetries) == 0)
  {
    var sleeps, dnsWarning;
    outcome, attempts, sleeps, dnsWarning := Upload.UploadSystemInfo(info, env, hostname, toNumber, dnsResolves, responses);
    escaped := UploadCatch(outcome);
  }

  /**
   * One run of `main`. It rejects when the hardware query, the Windows
   * BIOS query or the file write fails; then nothing is uploaded.
   * Otherwise the payload is built as above, written, and uploaded; a
   * failed upload is only logged, except when no attempt was made at all
   * (MAX_RETRIES below 1): the upload then throws `undefined`, reading its
   * `message` in the catch throws, and `main` rejects after all.
   * `saveError` is None when the file write succeeds; `collectedAtUtc` and
   * `localParts` are the clock's readings.
   */
  method RunInventory(
    platform: string, hostname: string, release: string,
    run: string -> Result<string, string>, parse: string -> Option<Json>,
    hardware: Result<map<string, Json>, string>, biosQuery: Result<Json, string>,
    collectedAtUtc: string, localParts: seq<(string, string)>, saveError: Option<string>,
    env: Upload.Env, toNumber: string -> Option<real>, dnsResolves: bool, responses: nat -> Upload.Response)
    returns (result: Result<Json, string>, uploaded: Option<Result<bool, Upload.Failure>>, attempts: seq<Upload.Request>)
    ensures uploaded.Some? <==> hardware.Ok? && CollectBios(platform, biosQuery).Ok? && saveError.None?
    ensures uploaded.None? ==> result.Err? && attempts == []
    ensures hardware.Err? ==> result == Err(hardware.error)
    ensures hardware.Ok? && platform == "win32" && biosQuery.Err? ==> result == Err(biosQuery.error)
    ensures hardware.Ok? && CollectBios(platform, biosQuery).Ok? && saveError.Some? ==> result == Err(saveError.value)
    ensures uploaded.Some? ==>
      var info := Payload(platform, hostname, release, run, parse, hardware.value, CollectBios(platform, biosQuery).value, collectedAtUtc, localParts);
      && (result.Ok? ==> result.value == info)
      && (result.Err? <==> uploaded.value == Err(Upload.ThrownUndefined))
      && (result.Err? ==> result.error == UndefinedMessage)
      && match Upload.Prepare(info, env, hostname, toNumber)
         case Err(e) => uploaded.value == Err(e) && attempts == [] && result.Ok?
         case Ok(cfg) =>
           && (forall j :: 0 <= j < |attempts| ==> attempts[j] == Upload.BuildRequest(cfg, info))
           && (uploaded.value.Ok? <==> Upload.FirstDelivered(responses, Upload.AttemptBudget(cfg.maxRetries)).Some?)
           && (result.Err? <==> Upload.AttemptBudget(cfg.maxRetries) == 0)
  {
    uploaded, attempts := None, [];
    var collected := Collect(platform, hostname, release, run, parse, hardware, biosQuery, collectedAtUtc, localParts);
    if collected.Err? {
      result := Err(collected.error);
      return;
    }
    var info := collected.value;

    // Save locally; a failing write rejects `main` before the upload.
    if saveError.Some? {
      result := Err(saveError.value);
      return;
    }

    var outcome, requests, escaped := UploadLogged(info, env, hostname, toNumber, dnsResolves, responses);
    uploaded, attempts := Some(outcome), requests;
    if escaped.Some? {
      result := Err(escaped.value);
    } else {
      result := Ok(info);
    }
  }
}
