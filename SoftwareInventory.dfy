/**
 * The software inventory of index.js: the command to run for each platform
 * and the parser that turns its standard output into records.  Running the
 * command is left to the caller; `JSON.parse` is a parameter (None: it throws).
 */
module SoftwareInventory {
  import opened Wrappers
  import opened Json
  import Text

  datatype Platform = Windows | MacOS | Linux

  const WindowsCommand :=
    "powershell -NoProfile -Command " +
    "\"$regPaths = @(" +
    "'HKLM:\\Software\\Microsoft\\Windows\\CurrentVersion\\Uninstall\\*'," +
    "'HKLM:\\Software\\WOW6432Node\\Microsoft\\Windows\\CurrentVersion\\Uninstall\\*'," +
    "'HKCU:\\Software\\Microsoft\\Windows\\CurrentVersion\\Uninstall\\*'," +
    "'HKCU:\\Software\\WOW6432Node\\Microsoft\\Windows\\CurrentVersion\\Uninstall\\*'" +
    ");" +
    "$regApps = Get-ItemProperty -Path $regPaths -ErrorAction SilentlyContinue | " +
    "Where-Object { $_.DisplayName } | " +
    "Select-Object @{Name='Name';Expression={$_.DisplayName}}," +
    "@{Name='Version';Expression={$_.DisplayVersion}}," +
    "Publisher, InstallLocation," +
    "@{Name='Source';Expression={'win32-registry'}};" +
    "$storeApps = Get-AppxPackage | " +
    "Select-Object @{Name='Name';Expression={$_.Name}}," +
    "@{Name='Version';Expression={$_.Version}}," +
    "Publisher, PackageFamilyName," +
    "@{Name='Source';Expression={'ms-store'}};" +
    "$all = $regApps + $storeApps;" +
    "$all | ConvertTo-Json -Depth 4\""

  const MacCommand := "system_profiler SPApplicationsDataType -json"

  const LinuxCommand :=
    "bash -lc 'if command -v dpkg-query >/dev/null 2>&1; then " +
    "dpkg-query -W -f=\"${binary:Package}\\t${Version}\\n\"; " +
    "elif command -v rpm >/dev/null 2>&1; then " +
    "rpm -qa --qf \"%{NAME}\\t%{VERSION}-%{RELEASE}\\n\"; " +
    "else echo \"UNSUPPORTED\"; fi'"

  const UnsupportedPlatform := "Unsupported platform"

  /** The command whose output the parser of each platform reads. */
  function Command(platform: Platform): string {
    match platform
    case Windows => WindowsCommand
    case MacOS => MacCommand
    case Linux => LinuxCommand
  }

  /** `getCommandAndParser` for the value of `os.platform()`: which command and parser go with it. */
  function CommandAndParser(platform: string): (r: Result<Platform, string>)
    ensures r.Err? <==> platform != "win32" && platform != "darwin" && platform != "linux"
    ensures r.Err? ==> r.error == UnsupportedPlatform
    ensures r.Ok? ==> (r.value == Windows <==> platform == "win32")
    ensures r.Ok? ==> (r.value == MacOS <==> platform == "darwin")
    ensures r.Ok? ==> (r.value == Linux <==> platform == "linux")
  {
    if platform == "win32" then Ok(Windows)
    else if platform == "darwin" then Ok(MacOS)
    else if platform == "linux" then Ok(Linux)
    else Err(UnsupportedPlatform)
  }

  /** The TypeError of reading a property of null. */
  function NullRead(property: string): string {
    "Cannot read properties of null (reading '" + property + "')"
  }

  const NotAnArray := "apps.map is not a function"
  const InvalidJson := "Unexpected token in JSON"

  // ---------------------------------------------------------------------
  // Linux: `dpkg-query` / `rpm` lines "name<TAB>version"

  datatype LinuxPackage = LinuxPackage(name: string, version: Option<string>)

  /** `const [name, version] = l.split("\t")`: the text before the first tab and, if there is a tab, the text up to the next one. */
  function LineRecord(line: string): LinuxPackage {
    var cols := Text.Split(line, '\t');
    LinuxPackage(cols[0], if |cols| > 1 then Some(cols[1]) else None)
  }

  /**
   * The name is the text before the first tab and holds no tab; there is
   * no version exactly when the line has no tab, and then the name is the
   * whole line; otherwise the version follows the first tab and runs up to
   * the second tab or the end of the line.
   */
  lemma LineRecordSpec(line: string)
    ensures var p := LineRecord(line);
      && '\t' !in p.name
      && (p.version.None? <==> '\t' !in line)
      && (p.version.None? ==> p.name == line)
      && (p.version.Some? ==>
            var v := p.version.value; var e := |p.name| + 1 + |v|;
            && '\t' !in v && e <= |line|
            && line[..|p.name|] == p.name && line[|p.name|] == '\t' && line[|p.name| + 1..e] == v
            && (e == |line| || line[e] == '\t'))
  {
    var cols := Text.Split(line, '\t');
    if |cols| == 1 {
      assert line == cols[0];
    } else {
      var tail := Text.Join(cols[1..], '\t');
      assert line == cols[0] + ['\t'] + tail;
      assert '\t' in line by { assert line[|cols[0]|] == '\t'; }
      var rest: string := if |cols| == 2 then [] else ['\t'] + Text.Join(cols[2..], '\t');
      assert cols[1..][1..] == cols[2..];
      assert tail == cols[1] + rest;
      assert line == cols[0] + ['\t'] + cols[1] + rest;
      var e := |cols[0]| + 1 + |cols[1]|;
      assert line[|cols[0]| + 1..e] == cols[1];
      assert e < |line| ==> line[e] == rest[0];
    }
  }

  function TrimEach(lines: seq<string>): (r: seq<string>)
    ensures |r| == |lines|
    ensures forall i :: 0 <= i < |lines| ==> r[i] == Text.Trim(lines[i])
  {
    if lines == [] then [] else [Text.Trim(lines[0])] + TrimEach(lines[1..])
  }

  /** `.filter(Boolean)` on strings: the non-empty ones, in order. */
  function DropEmpty(lines: seq<string>): (r: seq<string>)
    ensures |r| <= |lines|
    ensures forall i :: 0 <= i < |r| ==> r[i] != ""
    ensures forall x :: x in r <==> x in lines && x != ""
  {
    if lines == [] then []
    else if lines[0] == "" then DropEmpty(lines[1..])
    else [lines[0]] + DropEmpty(lines[1..])
  }

  function Records(lines: seq<string>): (r: seq<LinuxPackage>)
    ensures |r| == |lines|
    ensures forall i :: 0 <= i < |lines| ==> r[i] == LineRecord(lines[i])
  {
    if lines == [] then [] else [LineRecord(lines[0])] + Records(lines[1..])
  }

  /** The Linux parser: split on "\n", trim each line, drop the empty ones, split each on tabs. */
  function ParseLinux(stdout: string): seq<LinuxPackage> {
    Records(DropEmpty(TrimEach(Text.Split(stdout, '\n'))))
  }

  /** What one line contributes: nothing if it is blank, else the record of its trimmed text. */
  function LineContribution(line: string): seq<LinuxPackage> {
    var t := Text.Trim(line);
    if t == "" then [] else [LineRecord(t)]
  }

  lemma {:induction false} PipelineOfLines(lines: seq<string>, l: string)
    ensures Records(DropEmpty(TrimEach([l] + lines))) == LineContribution(l) + Records(DropEmpty(TrimEach(lines)))
  {
    assert ([l] + lines)[1..] == lines;
    assert TrimEach([l] + lines) == [Text.Trim(l)] + TrimEach(lines);
    var rest := DropEmpty(TrimEach(lines));
    if Text.Trim(l) != "" {
      assert Records([Text.Trim(l)] + rest)[1..] == Records(rest);
    }
  }

  /**
   * One record per line that is not blank, in the order of the lines: the
   * output for a first line `l` followed by "\n" and the rest is what `l`
   * contributes followed by the output for the rest; a last line without
   * "\n" contributes alone.
   */
  lemma ParseLinuxByLine(l: string, rest: string)
    requires '\n' !in l
    ensures ParseLinux(l) == LineContribution(l)
    ensures ParseLinux(l + "\n" + rest) == LineContribution(l) + ParseLinux(rest)
  {
    Text.OnePieceSplit(l, '\n');
    PipelineOfLines([], l);
    var pieces := [l] + Text.Split(rest, '\n');
    assert pieces[1..] == Text.Split(rest, '\n');
    assert Text.Join(pieces, '\n') == l + "\n" + rest;
    Text.SplitUnique(l + "\n" + rest, '\n', pieces);
    PipelineOfLines(Text.Split(rest, '\n'), l);
  }

  /** The record of a trimmed, non-empty line has a non-empty name: the line cannot start with a tab. */
  lemma TrimmedLineName(line: string)
    requires Text.Trim(line) != ""
    ensures LineRecord(Text.Trim(line)).name != ""
  {
    var t := Text.Trim(line);
    Text.TrimSpec(line);
    assert !Text.IsJsSpace(t[0]);
    LineRecordSpec(t);
    assert Text.IsJsSpace('\t');
  }

  /** Every Linux record has a non-empty name without tabs (trimming removed any leading tab). */
  lemma LinuxNames(stdout: string)
    ensures forall p :: p in ParseLinux(stdout) ==> p.name != "" && '\t' !in p.name
  {
    var lines := Text.Split(stdout, '\n');
    var trimmed := TrimEach(lines);
    var kept := DropEmpty(trimmed);
    forall p | p in ParseLinux(stdout) ensures p.name != "" && '\t' !in p.name {
      var i :| 0 <= i < |kept| && p == LineRecord(kept[i]);
      assert kept[i] in trimmed;
      var j :| 0 <= j < |lines| && kept[i] == trimmed[j];
      TrimmedLineName(lines[j]);
      LineRecordSpec(kept[i]);
    }
  }

  // ---------------------------------------------------------------------
  // `.filter(a => a.name)`, shared by the Windows and macOS parsers

  /** The records whose name, as `name` reads it, is truthy, in their order. */
  function Named<T(!new)>(apps: seq<T>, name: T -> Json): (r: seq<T>)
    ensures |r| <= |apps|
    ensures forall a :: a in r <==> a in apps && Truthy(name(a))
  {
    if apps == [] then []
    else if Truthy(name(apps[0])) then [apps[0]] + Named(apps[1..], name)
    else Named(apps[1..], name)
  }

  /** The filter keeps every record with a truthy name as many times as it occurs, and no other. */
  lemma {:induction false} NamedCounts<T(!new)>(apps: seq<T>, name: T -> Json)
    ensures forall a :: multiset(Named(apps, name))[a] == if Truthy(name(a)) then multiset(apps)[a] else 0
  {
    if apps != [] {
      NamedCounts(apps[1..], name);
      assert apps == [apps[0]] + apps[1..];
    }
  }

  /** The filter keeps the order: filtering a concatenation is concatenating the filtered parts. */
  lemma {:induction false} NamedAppend<T(!new)>(xs: seq<T>, ys: seq<T>, name: T -> Json)
    ensures Named(xs + ys, name) == Named(xs, name) + Named(ys, name)
  {
    if xs != [] {
      var zs := xs + ys;
      assert zs[0] == xs[0];
      assert zs[1..] == xs[1..] + ys;
      NamedAppend(xs[1..], ys, name);
      var rest := Named(xs[1..], name);
      if Truthy(name(xs[0])) {
        assert Named(zs, name) == [xs[0]] + (rest + Named(ys, name));
        assert Named(xs, name) == [xs[0]] + rest;
        assert [xs[0]] + (rest + Named(ys, name)) == ([xs[0]] + rest) + Named(ys, name);
      } else {
        assert Named(zs, name) == rest + Named(ys, name);
        assert Named(xs, name) == rest;
      }
    } else {
      assert xs + ys == ys;
    }
  }

  // ---------------------------------------------------------------------
  // Windows: ConvertTo-Json output of registry and Store entries

  datatype WindowsApp = WindowsApp(
    name: Json, version: Json, source: Json, publisher: Json, installLocation: Json, packageFamilyName: Json)

  /** `Array.isArray(data) ? data : [data]`. */
  function Entries(data: Json): seq<Json> {
    if data.JArr? then data.items else [data]
  }

  /** The record of one entry: each property, or null where it is missing or falsy. */
  function WindowsRecord(app: Json): WindowsApp
    requires app != JNull
  {
    WindowsApp(
      OrNull(Prop(app, "Name")), OrNull(Prop(app, "Version")), OrNull(Prop(app, "Source")),
      OrNull(Prop(app, "Publisher")), OrNull(Prop(app, "InstallLocation")), OrNull(Prop(app, "PackageFamilyName")))
  }

  function WindowsName(app: WindowsApp): Json { app.name }

  /** `.map(app => ...)`: throws on the first null entry, whose `Name` cannot be read. */
  function WindowsRecords(entries: seq<Json>): (r: Result<seq<WindowsApp>, string>)
    ensures r.Err? <==> JNull in entries
    ensures r.Err? ==> r.error == NullRead("Name")
    ensures r.Ok? ==> |r.value| == |entries| && forall i :: 0 <= i < |entries| ==> r.value[i] == WindowsRecord(entries[i])
  {
    if entries == [] then Ok([])
    else if entries[0] == JNull then Err(NullRead("Name"))
    else
      match WindowsRecords(entries[1..])
      case Err(e) => Err(e)
      case Ok(rest) => Ok([WindowsRecord(entries[0])] + rest)
  }

  /** The records of a list of entries: `.map(...)` then `.filter(a => a.name)`. */
  function WindowsFromEntries(entries: seq<Json>): Result<seq<WindowsApp>, string> {
    match WindowsRecords(entries)
    case Err(e) => Err(e)
    case Ok(apps) => Ok(Named(apps, WindowsName))
  }

  /** What one entry contributes once it is not null: its record if its name is truthy, else nothing. */
  function WindowsContribution(x: Json): seq<WindowsApp>
    requires x != JNull
  {
    if Truthy(WindowsRecord(x).name) then [WindowsRecord(x)] else []
  }

  /**
   * The records entry by entry, in order and with repetitions: no entries
   * give none; a null first entry throws; otherwise the first entry's
   * contribution comes before the records of the rest.
   */
  lemma WindowsByEntry(x: Json, rest: seq<Json>)
    ensures WindowsFromEntries([]) == Ok([])
    ensures x == JNull ==> WindowsFromEntries([x] + rest) == Err(NullRead("Name"))
    ensures x != JNull ==> (WindowsFromEntries([x] + rest) ==
      match WindowsFromEntries(rest)
      case Err(e) => Err(e)
      case Ok(apps) => Ok(WindowsContribution(x) + apps))
  {
    assert ([x] + rest)[1..] == rest;
    if x != JNull {
      match WindowsRecords(rest)
      case Err(_) =>
      case Ok(records) =>
        assert WindowsRecords([x] + rest) == Ok([WindowsRecord(x)] + records);
        NamedAppend([WindowsRecord(x)], records, WindowsName);
        assert [WindowsRecord(x)][1..] == [];
    }
  }

  /**
   * The Windows parser. Blank output and output that is not JSON give no
   * records; a single JSON value is treated as a list of one; only records
   * with a truthy name are kept; a null entry throws.
   */
  function ParseWindows(stdout: string, parse: string -> Option<Json>): (r: Result<seq<WindowsApp>, string>)
    ensures Text.Trim(stdout) == "" ==> r == Ok([])
    ensures parse(stdout).None? ==> r == Ok([])
    ensures r.Err? <==> Text.Trim(stdout) != "" && parse(stdout).Some? && JNull in Entries(parse(stdout).value)
    ensures r.Ok? ==> forall a :: a in r.value ==> Truthy(a.name)
  {
    if stdout == "" || Text.Trim(stdout) == "" then Ok([])
    else
      match parse(stdout)
      case None => Ok([])
      case Some(data) => WindowsFromEntries(Entries(data))
  }

  /**
   * The records are exactly those of the entries with a truthy `Name`:
   * every such entry gives its record, every record comes from one, and
   * each record occurs as often as among the entries' records.
   */
  lemma WindowsRecordsExact(stdout: string, parse: string -> Option<Json>)
    requires Text.Trim(stdout) != "" && parse(stdout).Some?
    requires ParseWindows(stdout, parse).Ok?
    ensures var entries := Entries(parse(stdout).value); var apps := ParseWindows(stdout, parse).value;
      && (forall x :: x in entries && x != JNull && Truthy(OrNull(Prop(x, "Name"))) ==> WindowsRecord(x) in apps)
      && (forall a :: a in apps ==> exists x :: x in entries && x != JNull && a == WindowsRecord(x))
      && (forall a :: multiset(apps)[a] == if Truthy(a.name) then multiset(WindowsRecords(entries).value)[a] else 0)
  {
    var entries := Entries(parse(stdout).value);
    var all := WindowsRecords(entries).value;
    assert ParseWindows(stdout, parse).value == Named(all, WindowsName);
    NamedCounts(all, WindowsName);
    forall x | x in entries && x != JNull && Truthy(OrNull(Prop(x, "Name")))
      ensures WindowsRecord(x) in ParseWindows(stdout, parse).value
    {
      var i :| 0 <= i < |entries| && entries[i] == x;
      assert all[i] == WindowsRecord(x);
    }
    forall a | a in ParseWindows(stdout, parse).value
      ensures exists x :: x in entries && x != JNull && a == WindowsRecord(x)
    {
      var i :| 0 <= i < |all| && all[i] == a;
      assert entries[i] in entries;
    }
  }

  /** A single JSON value that is not an array is one entry. */
  lemma WindowsSingleValue(stdout: string, parse: string -> Option<Json>)
    requires Text.Trim(stdout) != "" && parse(stdout).Some? && !parse(stdout).value.JArr?
    ensures var d := parse(stdout).value;
      ParseWindows(stdout, parse) ==
        if d == JNull then Err(NullRead("Name"))
        else if Truthy(OrNull(Prop(d, "Name"))) then Ok([WindowsRecord(d)])
        else Ok([])
  {
    var d := parse(stdout).value;
    assert Entries(d) == [d];
    if d != JNull {
      assert JNull !in [d];
      var r := WindowsRecords([d]);
      assert r.Ok? && |r.value| == 1 && r.value[0] == WindowsRecord(d);
      assert r.value == [WindowsRecord(d)];
    }
  }

  // ---------------------------------------------------------------------
  // macOS: system_profiler SPApplicationsDataType -json

  datatype MacApp = MacApp(name: Json, version: Json, path: Json, lastModified: Json)

  function MacRecord(app: Json): MacApp
    requires app != JNull
  {
    MacApp(OrNull(Prop(app, "_name")), OrNull(Prop(app, "version")), OrNull(Prop(app, "path")), OrNull(Prop(app, "lastModified")))
  }

  function MacName(app: MacApp): Json { app.name }

  function MacRecords(entries: seq<Json>): (r: Result<seq<MacApp>, string>)
    ensures r.Err? <==> JNull in entries
    ensures r.Err? ==> r.error == NullRead("_name")
    ensures r.Ok? ==> |r.value| == |entries| && forall i :: 0 <= i < |entries| ==> r.value[i] == MacRecord(entries[i])
  {
    if entries == [] then Ok([])
    else if entries[0] == JNull then Err(NullRead("_name"))
    else
      match MacRecords(entries[1..])
      case Err(e) => Err(e)
      case Ok(rest) => Ok([MacRecord(entries[0])] + rest)
  }

  function MacFromEntries(items: seq<Json>): Result<seq<MacApp>, string> {
    match MacRecords(items)
    case Err(e) => Err(e)
    case Ok(records) => Ok(Named(records, MacName))
  }

  function MacContribution(x: Json): seq<MacApp>
    requires x != JNull
  {
    if Truthy(MacRecord(x).name) then [MacRecord(x)] else []
  }

  /** The macOS records application by application, in order and with repetitions. */
  lemma MacByEntry(x: Json, rest: seq<Json>)
    ensures MacFromEntries([]) == Ok([])
    ensures x == JNull ==> MacFromEntries([x] + rest) == Err(NullRead("_name"))
    ensures x != JNull ==> (MacFromEntries([x] + rest) ==
      match MacFromEntries(rest)
      case Err(e) => Err(e)
      case Ok(apps) => Ok(MacContribution(x) + apps))
  {
    assert ([x] + rest)[1..] == rest;
    if x != JNull {
      match MacRecords(rest)
      case Err(_) =>
      case Ok(records) =>
        assert MacRecords([x] + rest) == Ok([MacRecord(x)] + records);
        NamedAppend([MacRecord(x)], records, MacName);
        assert [MacRecord(x)][1..] == [];
    }
  }

  /** `json.SPApplicationsDataType || []`: None when the value is falsy or missing, else the value. */
  function ApplicationsValue(json: Json): (r: Option<Json>)
    requires json != JNull
    ensures r.Some? <==> Prop(json, "SPApplicationsDataType").Some? && Truthy(Prop(json, "SPApplicationsDataType").value)
    ensures r.Some? ==> r == Prop(json, "SPApplicationsDataType") && Truthy(r.value)
  {
    var v := Prop(json, "SPApplicationsDataType");
    if v.Some? && Truthy(v.value) then v else None
  }

  /**
   * The macOS parser. Output that is not JSON throws, and so does a null
   * document; a missing or falsy `SPApplicationsDataType` gives no records,
   * any other value that is not an array throws; only records with a truthy
   * name are kept.
   */
  function ParseMac(stdout: string, parse: string -> Option<Json>): (r: Result<seq<MacApp>, string>)
    ensures parse(stdout).None? ==> r == Err(InvalidJson)
    ensures parse(stdout) == Some(JNull) ==> r == Err(NullRead("SPApplicationsDataType"))
    ensures (parse(stdout).Some? && parse(stdout).value != JNull && ApplicationsValue(parse(stdout).value).None?) ==> r == Ok([])
    ensures r.Err? <==>
      || parse(stdout).None? || parse(stdout) == Some(JNull)
      || (ApplicationsValue(parse(stdout).value).Some?
          && (!ApplicationsValue(parse(stdout).value).value.JArr? || JNull in ApplicationsValue(parse(stdout).value).value.items))
    ensures r.Ok? ==> forall a :: a in r.value ==> Truthy(a.name)
  {
    match parse(stdout)
    case None => Err(InvalidJson)
    case Some(json) =>
      if json == JNull then Err(NullRead("SPApplicationsDataType"))
      else
        match ApplicationsValue(json)
        case None => Ok([])
        case Some(apps) =>
          if !apps.JArr? then Err(NotAnArray)
          else MacFromEntries(apps.items)
  }

  /** The macOS records are exactly those of the applications with a truthy `_name`, each as often as among all records. */
  lemma MacRecordsExact(stdout: string, parse: string -> Option<Json>, items: seq<Json>)
    requires parse(stdout).Some? && parse(stdout).value.JObj?
    requires ApplicationsValue(parse(stdout).value) == Some(JArr(items))
    requires ParseMac(stdout, parse).Ok?
    ensures var apps := ParseMac(stdout, parse).value;
      && (forall x :: x in items && x != JNull && Truthy(OrNull(Prop(x, "_name"))) ==> MacRecord(x) in apps)
      && (forall a :: a in apps ==> exists x :: x in items && x != JNull && a == MacRecord(x))
      && (forall a :: multiset(apps)[a] == if Truthy(a.name) then multiset(MacRecords(items).value)[a] else 0)
  {
    var all := MacRecords(items).value;
    assert ParseMac(stdout, parse).value == Named(all, MacName);
    NamedCounts(all, MacName);
    forall x | x in items && x != JNull && Truthy(OrNull(Prop(x, "_name")))
      ensures MacRecord(x) in ParseMac(stdout, parse).value
    {
      var i :| 0 <= i < |items| && items[i] == x;
      assert all[i] == MacRecord(x);
    }
    forall a | a in ParseMac(stdout, parse).value
      ensures exists x :: x in items && x != JNull && a == MacRecord(x)
    {
      var i :| 0 <= i < |all| && all[i] == a;
      assert items[i] in items;
    }
  }

  // ---------------------------------------------------------------------
  // Records as they go into the payload

  /** A package as `JSON.stringify` writes it: an undefined version is left out. */
  function LinuxJson(p: LinuxPackage): Json {
    match p.version
    case None => JObj(map["name" := JStr(p.name)])
    case Some(v) => JObj(map["name" := JStr(p.name), "version" := JStr(v)])
  }

  function WindowsJson(a: WindowsApp): Json {
    JObj(map[
      "name" := a.name, "version" := a.version, "source" := a.source, "publisher" := a.publisher,
      "installLocation" := a.installLocation, "packageFamilyName" := a.packageFamilyName])
  }

  function MacJson(a: MacApp): Json {
    JObj(map["name" := a.name, "version" := a.version, "path" := a.path, "lastModified" := a.lastModified])
  }

  /** The parser chosen by `CommandAndParser`, applied to the command's output. */
  function RunParser(platform: Platform, stdout: string, parse: string -> Option<Json>): (r: Result<seq<Json>, string>)
    ensures platform == Linux ==> r.Ok? && |r.value| == |ParseLinux(stdout)|
    ensures platform == Linux ==> forall i :: 0 <= i < |ParseLinux(stdout)| ==> r.value[i] == LinuxJson(ParseLinux(stdout)[i])
    ensures platform == Windows ==> (r.Ok? <==> ParseWindows(stdout, parse).Ok?)
    ensures platform == Windows && r.Ok? ==> |r.value| == |ParseWindows(stdout, parse).value|
    ensures platform == Windows && r.Ok? ==> forall i :: 0 <= i < |r.value| ==> r.value[i] == WindowsJson(ParseWindows(stdout, parse).value[i])
    ensures platform == MacOS ==> (r.Ok? <==> ParseMac(stdout, parse).Ok?)
    ensures platform == MacOS && r.Ok? ==> |r.value| == |ParseMac(stdout, parse).value|
    ensures platform == MacOS && r.Ok? ==> forall i :: 0 <= i < |r.value| ==> r.value[i] == MacJson(ParseMac(stdout, parse).value[i])
  {
    match platform
    case Linux =>
      var ps := ParseLinux(stdout);
      Ok(seq(|ps|, i requires 0 <= i < |ps| => LinuxJson(ps[i])))
    case Windows =>
      (match ParseWindows(stdout, parse)
       case Err(e) => Err(e)
       case Ok(apps) => Ok(seq(|apps|, i requires 0 <= i < |apps| => WindowsJson(apps[i]))))
    case MacOS =>
      (match ParseMac(stdout, parse)
       case Err(e) => Err(e)
       case Ok(apps) => Ok(seq(|apps|, i requires 0 <= i < |apps| => MacJson(apps[i]))))
  }
}
