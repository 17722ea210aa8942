# System inventory agent: collection cycle and upload, in Dafny

This project models the core of a desktop inventory agent. The agent works in three steps:

- It lists the installed software with a platform-specific shell command and parser: PowerShell registry and Store query on Windows, `system_profiler` on macOS, `dpkg-query`/`rpm` on Linux.
- It adds the hardware description and, on Windows, the BIOS record, and stamps the result with UTC and Mexico City times.
- It uploads the payload with `PUT {SERVER_BASE_URL}/api/v1/agents/{agentId}/system-info`. This applies an environment-driven configuration and a fixed-delay retry loop.

The project has seven modules:

| module | models |
|---|---|
| `Wrappers` | `Option` and `Result` |
| `Json` | JSON values, JavaScript truthiness, `x.p \|\| null` |
| `Text` | JavaScript `trim` and its white-space set, `split` on one character, ASCII `toLowerCase`, decimal rendering of naturals |
| `Uri` | `encodeURIComponent`, plus a reference decoder it is proved against |
| `Upload` | the upload client |
| `SoftwareInventory` | the command/parser pairs |
| `InventoryCycle` | `main` |

The outside world enters as parameters. These are:

- the shell (`run`);
- `JSON.parse` (`parse`, where `None` means it throws) and `Number` (`toNumber`, where `None` means the result is not finite);
- the systeminformation and WMI results;
- the clock's readings;
- the outcome of the file write;
- the DNS lookup result;
- `process.env`;
- the host name;
- the server's answer to each attempt (`responses(i)` for attempt `i`).

## Model

| member | source | states |
|---|---|---|
| Json.OrNull | index.js:109-114 | `x \|\| null` is truthy exactly when the property is present and truthy, and then it is the property's value; otherwise it is null |
| Json.Prop | index.js:109 | reading one of the property names the agent reads from a non-null value yields a value exactly when the value is an object holding that key (no other value has such a property, own or inherited) |
| Text.Trim | upload-system-info.js:40 | no contract of its own; stated by TrimSpec and TrimIdempotent |
| Text.TrimSpec | upload-system-info.js:40 | `trim` returns a contiguous slice of its input with only white space around it, neither end of it white space, and it is empty iff the input is all white space |
| Text.TrimIdempotent | index.js:154 | trimming twice is trimming once |
| Text.Split | index.js:153 | `split` yields at least one piece, no piece contains the separator, and joining the pieces with it gives back the input |
| Text.SplitUnique | index.js:157 | the split is the only separator-free decomposition of the input |
| Text.AsciiLower | upload-system-info.js:102 | lower-casing keeps the length and maps every character independently |
| Text.NatToStringInjective | upload-system-info.js:77 | distinct indices render to distinct keys, so spreading an array keeps every element |
| Uri.EncodeURIComponent | upload-system-info.js:48-50 | the encoding is at least as long as the input and uses only unreserved characters, `%` and upper-case hex digits |
| Uri.Utf8RoundTrip | upload-system-info.js:48-50 | the UTF-8 bytes of any scalar value decode back to it |
| Uri.DecodeEncode | upload-system-info.js:48-50 | decoding the encoding of any string gives back the string |
| Uri.EncodeInjective | upload-system-info.js:48-50 | distinct agent ids give distinct path segments |
| Uri.EncodeCharIdentity | upload-system-info.js:48-50 | a character is kept as it is exactly when it is unreserved; any other character becomes an escape of at least three characters starting with `%` |
| Uri.EncodeSpace | upload-system-info.js:48-50 | a space in an agent id is sent as `%20` |
| Uri.EncodeUpperEscapes | upload-system-info.js:48-50 | every `%` of the encoding is followed by two upper-case hexadecimal digits, so escapes are never written in lower case |
| Upload.ReadEnvString | upload-system-info.js:39-41 | the trimmed value when it is not blank, else the default; a non-blank result is never empty |
| Upload.ReadEnvStringEmpty | upload-system-info.js:39-41 | with an empty default the result is empty iff the variable is missing or blank |
| Upload.ReadEnvNumber | upload-system-info.js:34-37 | the converted value when it is finite, else the default, also when the variable is missing |
| Upload.SendKeyInBody | upload-system-info.js:101-102 | no contract of its own; stated by SendKeyInBodyIff |
| Upload.SendKeyInBodyIff | upload-system-info.js:101-102 | the key goes in the body iff the trimmed variable is "true" in any letter case |
| Upload.AgentId | upload-system-info.js:107-110 | a missing, empty or "auto" `AGENT_ID` gives the host name; any other value is used untrimmed |
| Upload.DeriveConfig | upload-system-info.js:98-110 | no contract of its own: the base URL and key default to "", the header name to `x-agent-key`, the body flag to "false", MAX_RETRIES to 5, RETRY_DELAY_MS to 3000 ms and the agent id to the host name; each setting is stated by ReadEnvString, ReadEnvNumber, SendKeyInBodyIff and AgentId, and the whole by Prepare |
| Upload.Prepare | upload-system-info.js:93-113 | the three checks in order (non-object payload, blank base URL, blank key) with their messages; otherwise the configuration with the documented defaults, and a non-empty base URL and key |
| Upload.MaskKey | upload-system-info.js:43-45 | empty iff the key is empty; otherwise at most the first three characters, `***`, and at most the last three |
| Upload.MaskRevealsOnlyTheEnds | upload-system-info.js:43-45 | for keys of at least three characters, two masks agree iff the first three and last three characters agree |
| Upload.TrimTrailingSlashes | upload-system-info.js:48 | `replace(/\/+$/, "")` keeps a prefix and removes only slashes, and the result does not end in a slash |
| Upload.BuildEndpointUrl | upload-system-info.js:47-51 | no contract of its own; stated by EndpointParts, EndpointIgnoresTrailingSlash and EndpointExample |
| Upload.EndpointIgnoresTrailingSlash | upload-system-info.js:47-51 | a base URL with or without a trailing slash gives the same endpoint |
| Upload.EndpointParts | upload-system-info.js:47-51 | the endpoint is the base URL without trailing slashes, then the agents path, the encoded id and `/system-info`; the segment holds no `/` and decodes to the agent id |
| Upload.EndpointExample | upload-system-info.js:47-51 | the base URL "http://h:3000/" and the id "my id" give `http://h:3000/api/v1/agents/my%20id/system-info` |
| Upload.Spread | upload-system-info.js:77 | spreading an object copies its fields; spreading an array gives keys "0".."n-1" for its elements, and a string gives those keys for its characters; null, booleans and numbers spread to nothing |
| Upload.Headers | upload-system-info.js:72-75 | exactly Content-Type and the configured header, which holds the key; Content-Type is JSON unless the header name overrides it |
| Upload.Body | upload-system-info.js:77 | without the flag the payload is sent as is; with it, the spread payload with `agentKey` added and every other field kept |
| Upload.BuildRequest | upload-system-info.js:79-83 | no contract of its own: the PUT to BuildEndpointUrl with Headers and Body, whose contracts state its parts; UploadSystemInfo states that every attempt sends it |
| Upload.SendError | upload-system-info.js:70-87 | no contract of its own: a non-2xx answer throws `HTTP <status>: <text>`, with `sin cuerpo` when the body is empty or cannot be read; a rejected `fetch` throws the rejection's message; a missing fetch throws "No se encontró fetch global ni node-fetch.". SendWithRetries states that exhaustion throws this error of the last attempt |
| Upload.Delivered | upload-system-info.js:85 | no contract of its own: `res.ok`, a response with a status from 200 to 299; FirstDelivered and SendWithRetries stop at the first such attempt |
| Upload.AttemptBudget | upload-system-info.js:128 | the loop runs floor(MAX_RETRIES) times, and not at all below 1 |
| Upload.FirstDelivered | upload-system-info.js:85-88 | the first attempt with a 2xx status, none before it succeeded, or none within the budget |
| Upload.SleepsTakenCount | upload-system-info.js:143 | after k attempts the loop has slept k-1 times, plus once more if k is still below MAX_RETRIES |
| Upload.AlwaysFailing | upload-system-info.js:126-147 | with an integral budget n and a server that never succeeds: n attempts, no success, n-1 pauses |
| Upload.SucceedsAfter | upload-system-info.js:128-139 | when the first k attempts fail and attempt k+1 succeeds within the budget, the upload ends at attempt k+1 after k pauses |
| Upload.FractionalBudgetSleepsAfterLast | upload-system-info.js:143 | with a non-integral MAX_RETRIES of at least 1, the loop also pauses after its last attempt |
| Upload.SendWithRetries | upload-system-info.js:126-147 | attempts the same request until the first success; pauses by the configured delay as the loop does; on exhaustion throws the last attempt's error, or `undefined` when no attempt was made |
| Upload.UploadSystemInfo | upload-system-info.js:93-148 | a rejected configuration attempts nothing; otherwise every request attempted is the PUT built from the configuration and the payload, the DNS result only sets a warning, and the retry outcome is as above |
| SoftwareInventory.CommandAndParser | index.js:70-164 | "win32", "darwin" and "linux" select the Windows, macOS and Linux pair; any other platform fails with "Unsupported platform" |
| SoftwareInventory.Command | index.js:75-149 | no contract of its own: the PowerShell registry and Store query, `system_profiler SPApplicationsDataType -json` and the dpkg-query/rpm script; CommandAndParser selects the platform, and CollectSoftware, LinuxSoftware, WindowsSoftware and MacSoftware run its command |
| SoftwareInventory.ParseLinux | index.js:151-159 | no contract of its own; stated by ParseLinuxByLine, LineRecordSpec and LinuxNames |
| SoftwareInventory.LineRecordSpec | index.js:157-158 | the name is the text before the first tab; no version iff the line has no tab; otherwise the version is the text between the first tab and the next tab or the end |
| SoftwareInventory.ParseLinuxByLine | index.js:151-159 | one record per non-blank line, in the order of the lines, each from the trimmed line |
| SoftwareInventory.LinuxNames | index.js:151-159 | every Linux record has a non-empty name without tabs |
| SoftwareInventory.Entries | index.js:106 | no contract of its own; stated by WindowsSingleValue and the Err-iff of ParseWindows |
| SoftwareInventory.WindowsRecord | index.js:108-115 | no contract of its own: the six properties, each read as `x.p \|\| null`; stated by OrNull, WindowsRecords and WindowsRecordsExact |
| SoftwareInventory.WindowsRecords | index.js:107-115 | one record per entry, in order; throws iff an entry is null |
| SoftwareInventory.ParseWindows | index.js:97-117 | blank output or output that is not JSON gives no records; throws iff an entry is null; every record kept has a truthy name |
| SoftwareInventory.WindowsRecordsExact | index.js:106-116 | the records kept are exactly those of the entries with a truthy `Name`, each as often as it occurs among the entries' records |
| SoftwareInventory.Named | index.js:116 | the filter `.filter(a => a.name)` of both parsers keeps at most its input, and only records with a truthy name |
| SoftwareInventory.NamedCounts | index.js:116 | the filter keeps each record with a truthy name exactly as often as it occurs, and drops every other |
| SoftwareInventory.NamedAppend | index.js:116 | filtering a concatenation is concatenating the filtered parts, so order is kept |
| SoftwareInventory.WindowsByEntry | index.js:106-116 | entry by entry: no entries give no records; a null entry throws reading `Name`; otherwise the entry contributes its record when the name is truthy, in front of the rest's records, unless the rest throws |
| SoftwareInventory.WindowsSingleValue | index.js:106 | a JSON value that is not an array is treated as a list of one |
| SoftwareInventory.ApplicationsValue | index.js:128 | `json.SPApplicationsDataType \|\| []` yields a value exactly when the property is present and truthy, and then it is that property's value |
| SoftwareInventory.ParseMac | index.js:126-137 | output that is not JSON throws; a null document throws; a missing or falsy application list gives no records; it throws exactly in those first two cases or when the truthy list is not an array or holds a null; every record kept has a truthy name |
| SoftwareInventory.MacRecord | index.js:130-135 | no contract of its own: the four properties, each read as `x.p \|\| null`; stated by OrNull, MacRecords and MacRecordsExact |
| SoftwareInventory.MacRecords | index.js:129-135 | one record per application, in order; throws iff an application is null |
| SoftwareInventory.MacRecordsExact | index.js:129-136 | the records kept are exactly those of the applications with a truthy `_name`, each as often as it occurs among the applications' records |
| SoftwareInventory.MacByEntry | index.js:129-136 | application by application: none give no records; a null one throws reading `_name`; otherwise it contributes its record when the name is truthy, in front of the rest's records, unless the rest throws |
| SoftwareInventory.LinuxJson | index.js:157-158 | no contract of its own: `{ name, version }` as written to the payload, with an undefined version left out; RunParser and LinuxSoftware state that each package becomes one |
| SoftwareInventory.WindowsJson | index.js:108-115 | no contract of its own: the six fields of the record; RunParser and WindowsSoftware state that each record becomes one |
| SoftwareInventory.MacJson | index.js:130-135 | no contract of its own: the four fields of the record; RunParser and MacSoftware state that each record becomes one |
| SoftwareInventory.RunParser | index.js:195-197 | the chosen parser's records as payload entries, one for one; only the Windows and macOS parsers can fail |
| InventoryCycle.SoftwareApps | index.js:193-200 | no contract of its own; stated per platform by LinuxSoftware, WindowsSoftware, MacSoftware and UnsupportedPlatformSoftware, and CollectSoftware computes it |
| InventoryCycle.LinuxSoftware | index.js:192-200 | on Linux a failing command leaves the list empty; otherwise the list has one entry per package record |
| InventoryCycle.WindowsSoftware | index.js:192-200 | on Windows a failing command or a throwing parser leaves the list empty; otherwise the list has one entry per parsed record, in order |
| InventoryCycle.WindowsNullEntryEmpties | index.js:106-116 | one null entry in the Windows output empties the whole list, whatever the other entries are |
| InventoryCycle.MacSoftware | index.js:192-200 | on macOS a failing command or a throwing parser leaves the list empty; otherwise the list has one entry per parsed record, in order |
| InventoryCycle.UnsupportedPlatformSoftware | index.js:192-200 | an unsupported platform has an empty software list |
| InventoryCycle.CollectSoftware | index.js:193-200 | the software step, with every failure caught and leaving the list empty |
| InventoryCycle.CollectBios | index.js:171-182 | on Windows the WMI query's result, failure included; on every other platform null, which never fails |
| InventoryCycle.WithBios | index.js:208 | a truthy BIOS record is added under `bios` and the other hardware fields are kept; a falsy one leaves the hardware unchanged |
| InventoryCycle.PartsMapSpec | index.js:225-228 | the reduce holds every part type that occurs, each with its last value |
| InventoryCycle.CollectParts | index.js:225-228 | the reduce loop computes that map |
| InventoryCycle.LocalTimestamp | index.js:230-232 | no contract of its own; stated by LocalTimestampShape |
| InventoryCycle.LocalTimestampShape | index.js:230-232 | with a four-digit year and two-digit other parts, the local stamp has the shape YYYY-MM-DDTHH:MM:SS with those parts in place |
| InventoryCycle.Agent | index.js:235-242 | no contract of its own: the agent object with the two stamps, the fixed time zone `America/Mexico_City`, the host, the platform and the release |
| InventoryCycle.SystemInfo | index.js:234-248 | no contract of its own; stated by SystemInfoWellFormed |
| InventoryCycle.SystemInfoWellFormed | index.js:234-248 | the payload is an object, so the upload's payload check always passes, and its software count equals the length of its list |
| InventoryCycle.Payload | index.js:192-248 | no contract of its own: the payload built from the agent stamp, the hardware with its BIOS, and the software list; Collect and RunInventory state that it is the payload saved and uploaded |
| InventoryCycle.Collect | index.js:192-248 | the payload is built iff the hardware query and the Windows BIOS query succeed, with the hardware error reported first; the payload is the one specified by `Payload` |
| InventoryCycle.UploadCatch | index.js:254-258 | the catch around the upload escapes exactly when the upload threw `undefined`, with the TypeError of reading `message` on it |
| InventoryCycle.UploadLogged | index.js:254-258 | a rejected configuration attempts nothing and is only logged; otherwise every attempt is the configured PUT, success iff an attempt within the budget is delivered, and the run escapes the catch iff the budget is zero |
| InventoryCycle.RunInventory | index.js:188-258 | rejects when the hardware query, the Windows BIOS query or the file write fails, and then uploads nothing; otherwise uploads the payload; an upload failure is only logged, except that a zero attempt budget (MAX_RETRIES below 1, including an empty value) throws `undefined`, and reading its `message` in the catch rejects the run with a TypeError |

## Left out

- Network, `fetch`, `node-fetch` and DNS: every attempt's answer is a parameter (`responses`), and so is the lookup (`dnsResolves`). A URL that `new URL` rejects is a failed lookup, left to the caller.
- Sleeping: the model records the delay passed to `sleep`, not the waiting. Node's clamping of delays below 1 ms or above 2147483647 ms to 1 ms, and its truncation of fractional delays, are not modelled.
- Console output (attempt numbers, masked key, endpoint). `MaskKey` models the masked text but nothing prints it.
- `dotenv`, the command-line entry point `runCli` and `module.exports`: these are loading and wiring, outside the upload logic.
- `Number()` and `JSON.parse` are parameters. `JSON.stringify` is not modelled: the body is the JSON value it would write.
- JSON objects are maps, so key order is not modelled, nor the byte layout of the written file.
- Numbers are reals: MAX_RETRIES and RETRY_DELAY_MS as JavaScript numbers, with no floating-point rounding of the loop counter.
- `Intl.DateTimeFormat` and `Date.toISOString`: the formatted parts and the UTC stamp are parameters.
- `fs.writeFileSync`, `app.getPath` and the output path: only whether the write throws (`saveError`) is modelled.
- `child_process.exec` and its 10 MB buffer limit: the command's outcome is the `run` parameter.
- systeminformation and WMI: their results are parameters. `Promise.all` rejects with whichever query fails first in time; the model has no timing, and when both fail it reports the hardware error.
- The exact text of the JavaScript engine's own error messages (JSON syntax errors, `map` not a function) is not modelled. `main` only logs these messages.
- Upload.MaskKey: JavaScript's `slice` counts UTF-16 code units, while the model slices by Unicode scalar values, so keys with characters outside the Basic Multilingual Plane mask differently ("🔑abcdef" masks as "🔑a***def" in JavaScript, since the emoji is two code units). Dafny strings hold scalar values only, so a lone surrogate, and the `URIError` that `encodeURIComponent` throws on one, cannot be represented.
- Upload.Spread: a string spreads one key per scalar value, where JavaScript gives one per UTF-16 code unit; the two agree on text inside the Basic Multilingual Plane.
- Text.AsciiLower: lower-cases A-Z only. Other characters pass through, which is exact for the comparison with "true" it serves.
- Upload.Headers: header names are compared exactly, not case-insensitively as HTTP does.
- Electron's `main.js` and `preload.js` (window and IPC wiring) are not part of this model.
