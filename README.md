# Developer environment diagnostics: a Dafny model

This project models the server side of a small Next.js dashboard. The
dashboard reports which developer tools are installed on the host, and
which versions. It also reports host telemetry, signs users in through an
OAuth callback, and serves its pages in six languages.

The model covers:

- **The diagnostics route** (`CheckRoute`, `VersionExtraction`, `JsStrings`).
  - The fixed table of seven tools.
  - The fallback chain that probes one tool: it tries the commands in order, the first success wins, and only a failure of the last command is reported.
  - The version extraction. It applies the pattern `v?\d+(?:\.\d+){1,2}` (case-insensitive) and falls back to the trimmed text. It is proved to return the leftmost-longest version token.
  - The report: every tool in table order, plus a host summary.
  - `runToolCheck` is an imperative loop. A ghost trace records the commands it ran, and the loop is proved equal to a recursive specification of the chain.
- **The host telemetry route** (`SystemRoute`, `Host`).
  - The platform-version probe, chosen per platform, with a fallback to platform and release.
  - The nested loops that collect the external network addresses. They are proved equal to a flattening specification, with a membership characterisation and an order (append) law.
  - The uptime split into days, hours and minutes. Lemmas prove its ranges and that it round-trips.
  - Memory and CPU counts.
- **The auth callback** (`AuthCallback`).
  - The choice of redirect target.
  - Exchanging the code only when one is given.
  - The mapping from auth-hook event to session action.
  - The hook's constant `synced` answer.
- **Localisation** (`I18nRouting`, `I18nRequest`).
  - The locale table and its labels.
  - Normalising the requested locale.
  - Choosing the message catalog.

The host is an input. The `os` module's values for one request are an
`OsSnapshot`. Running a shell command is an `Exec`: a function from the
command string to its outcome, either completion with both streams or
failure with a message and an optional stderr. So a command is assumed to
behave the same way each time it is run during one request.

### Behaviour of the code worth noting

- After a failure, `runToolCheck` tests whether the command is the last one by comparing strings (`command === tool.commands[tool.commands.length - 1]`, `src/app/api/check/route.ts:109`), not by position.
  - `CheckRoute.DistinctCommandsRunByPosition` proves that the two readings agree when a tool's commands are distinct, which `CheckRoute.ToolChecksWellFormed` shows for the shipped table.
  - `CheckRoute.RepeatedLastCommandStopsEarly` exhibits a list with a repeated command on which they differ.
- When every command fails, the error is the last command's `message` as it is (`src/app/api/check/route.ts:117`), which may be empty. `CheckRoute.ProbeResultAllFailing` states that the error is that message.
- Only the platform-version probe (`src/app/api/system/route.ts:61-74`) and the telemetry `GET` (`src/app/api/system/route.ts:139-149`) catch. `runToolCheck` catches only the rejection of `execAsync` (`src/app/api/check/route.ts:91-120`).

## Model

| member | source | states |
|---|---|---|
| JsStrings.Trim | src/app/api/check/route.ts:97 | `String.prototype.trim` never lengthens its input; `JsStrings.TrimSpec` states what it removes |
| JsStrings.TrimSpec | src/app/api/check/route.ts:97 | `String.prototype.trim`: the result is the piece of the input after the leading whitespace; everything cut from either end is whitespace; it has no whitespace at either end; it is empty exactly when the input is all whitespace |
| JsStrings.TrimStartSpec | src/app/api/check/route.ts:97 | removes exactly the leading whitespace: the result is a suffix, starts with non-whitespace, and everything removed is whitespace |
| JsStrings.TrimEndSpec | src/app/api/check/route.ts:97 | removes exactly the trailing whitespace: the result is a prefix, ends with non-whitespace, and everything removed is whitespace |
| JsStrings.TrimmedIsFixed | src/app/api/check/route.ts:97 | a string with no whitespace at its ends is left unchanged by trimming |
| JsStrings.TrimIdempotent | src/app/api/check/route.ts:97 | trimming twice is trimming once |
| VersionExtraction.DigitsFromSpec | src/app/api/check/route.ts:78 | `\d+` is greedy: the run it takes is all digits and cannot be extended by another digit |
| VersionExtraction.DotGroupFrom | src/app/api/check/route.ts:78 | a group `\.\d+` matches exactly where a dot is followed by a digit |
| VersionExtraction.MatchAt | src/app/api/check/route.ts:78 | the backtracking match of the pattern at one position: a non-empty length that stays within the text; `VersionExtraction.MatchAtCorrect` states that it is the longest word of the pattern there |
| VersionExtraction.FindMatch | src/app/api/check/route.ts:85 | `String.prototype.match` scans forward: a match it reports starts at or after the scan's start and is what the pattern matches there |
| VersionExtraction.FindMatchLeftmost | src/app/api/check/route.ts:85 | the reported match starts at the first position where the pattern matches, and no match means no position from the scan's start matches |
| VersionExtraction.FindMatchSkips | src/app/api/check/route.ts:85 | positions holding neither a digit nor `v`/`V` cannot start a match and are skipped |
| VersionExtraction.ExtractVersion | src/app/api/check/route.ts:80-87 | no input or an empty one gives none; any result is non-empty and a piece of the input |
| VersionExtraction.MatchAtCorrect | src/app/api/check/route.ts:78 | the pattern matched at a position gives the longest version token there (optional `v`/`V`, digit groups joined by one or two dots); no match means no token starts there |
| VersionExtraction.MatchIsToken | src/app/api/check/route.ts:78 | what the pattern matches at a position is a version token |
| VersionExtraction.MatchIsLongest | src/app/api/check/route.ts:78 | no longer piece at that position is a version token |
| VersionExtraction.MatchShape | src/app/api/check/route.ts:78 | a match is a run of digits, a dot and digits, and optionally one more dot and digits; it is followed by no digit, and a two-group match by no further `.digit` |
| VersionExtraction.GroupsFormDottedNumber | src/app/api/check/route.ts:78 | two or three digit groups joined by single dots form a dotted number with one dot per join |
| VersionExtraction.GroupsAreMaximal | src/app/api/check/route.ts:78 | groups that the scanner cannot extend leave no longer dotted number at the same start |
| VersionExtraction.NoMatchNoToken | src/app/api/check/route.ts:78 | where the pattern does not match, no version token starts |
| VersionExtraction.FindMatchIsLeftmostLongest | src/app/api/check/route.ts:85 | the match is the leftmost-longest version token of the text |
| VersionExtraction.FindMatchGivesLeftmostLongest | src/app/api/check/route.ts:85 | whatever the scan reports is the leftmost-longest word of the pattern in the text |
| VersionExtraction.TokenIsFound | src/app/api/check/route.ts:85 | a text holding a word of the pattern anywhere is matched |
| VersionExtraction.ExtractVersionFindsLeftmostLongest | src/app/api/check/route.ts:80-87 | when the text holds a version token, the extracted version is its leftmost-longest one |
| VersionExtraction.ExtractVersionOfTokenText | src/app/api/check/route.ts:80-87 | a text holding a word of the pattern has a leftmost-longest one, and that word is the extracted version |
| VersionExtraction.ExtractVersionFallsBackToTrim | src/app/api/check/route.ts:86 | when the text holds no version token, the result is the trimmed text, or none when that is empty |
| VersionExtraction.NoTokenInPiece | src/app/api/check/route.ts:86 | a piece of a text without version tokens has none either, so the trimmed fallback holds none |
| VersionExtraction.TokenExtractsItself | src/app/api/check/route.ts:80-87 | a version token extracts to itself |
| VersionExtraction.ExtractVersionIdempotent | src/app/api/check/route.ts:80-87 | extracting from an extracted version gives it back |
| VersionExtraction.ExtractVersionOfNothing | src/app/api/check/route.ts:81-83 | no text, empty text and blank text give no version |
| VersionExtraction.ExtractVersionOfPythonBanner | src/app/api/check/route.ts:80-87 | `Python 3.11.4` gives `3.11.4` |
| VersionExtraction.ExtractVersionOfTaggedVersion | src/app/api/check/route.ts:78 | the leading `v` is kept: `v9.4.0` gives `v9.4.0` |
| VersionExtraction.ExtractVersionOfFourGroups | src/app/api/check/route.ts:78 | at most three groups are taken: `1.2.3.4` gives `1.2.3` |
| VersionExtraction.ExtractVersionOfPlainText | src/app/api/check/route.ts:86 | text with no digit and no `v` falls back to its trimmed form |
| VersionExtraction.ExtractVersionOfFreeText | src/app/api/check/route.ts:86 | `unknown-build` is reported as it is |
| CheckRoute.ToolChecksWellFormed | src/app/api/check/route.ts:37-76 | seven tools with distinct ids, each with a non-empty list of distinct commands |
| CheckRoute.Succeeded | src/app/api/check/route.ts:97-105 | a success is installed with no error; the output is the trimmed combined streams, or none when blank; the version is extracted from that output |
| CheckRoute.FailedLast | src/app/api/check/route.ts:106-119 | a last failure is not installed, has no version, carries the message as its error, and carries the trimmed stderr as output (none when stderr is missing, empty when it is blank) |
| CheckRoute.NothingRun | src/app/api/check/route.ts:123-129 | with no command run, the tool is missing, with no version, no output, and the error `No commands executed` |
| CheckRoute.ResultOf | src/app/api/check/route.ts:97-129 | the result copies the tool; it is installed exactly after a success, an installed tool has no error, and a missing tool has no version and carries an error |
| CheckRoute.RunFrom | src/app/api/check/route.ts:89-130 | the chain runs no command, and reports that none ran, exactly when no command is left |
| CheckRoute.ProbeResult | src/app/api/check/route.ts:89-130 | the result copies the tool; a tool is installed only when one of its commands completed; a tool without commands gives the `No commands executed` result |
| CheckRoute.RunFromRunsInOrder | src/app/api/check/route.ts:90-121 | the commands the chain runs are a contiguous run of the list, from the start point on |
| CheckRoute.ChainReaches | src/app/api/check/route.ts:90-121 | after commands that all fell through, the chain's outcome is the outcome from the next command, and what it ran is those commands followed by what runs from there |
| CheckRoute.RunToolCheck | src/app/api/check/route.ts:89-130 | the loop returns the result of the chain's outcome after running exactly the chain's commands |
| CheckRoute.RunFromFallsThrough | src/app/api/check/route.ts:106-121 | the chain moves past a command only when it failed and is not equal to the last command |
| CheckRoute.RunFromDecided | src/app/api/check/route.ts:97-121 | from any command still in the list, the last command run decides the outcome: its success, or its failure when it is equal to the last command |
| CheckRoute.FirstSuccessWins | src/app/api/check/route.ts:97-105 | when the first command succeeds, only it runs and its success is the result |
| CheckRoute.AllFailing | src/app/api/check/route.ts:106-119 | when every command fails, the outcome is the last command's failure, with its message and stderr, and the chain stopped at a command equal to the last one |
| CheckRoute.ProbeResultAllFailing | src/app/api/check/route.ts:106-119 | when every command fails, the tool is reported missing with the last command's message as error and its trimmed stderr as output |
| CheckRoute.DistinctCommandsRunByPosition | src/app/api/check/route.ts:109 | with distinct commands, the string test for the last command agrees with the positional one |
| CheckRoute.RunByPositionSucceeds | src/app/api/check/route.ts:90-121 | read by position, the chain succeeds exactly when some command from the start point on completes |
| CheckRoute.ProbeResultInstalled | src/app/api/check/route.ts:89-130 | with distinct commands, as in the shipped table, a tool is installed exactly when one of its commands completes |
| CheckRoute.RepeatedLastCommandStopsEarly | src/app/api/check/route.ts:109 | with `[a, b, a]`, a failing first `a` ends the chain before `b` can succeed, where a positional test would have reached `b` |
| CheckRoute.SummarizeHost | src/app/api/check/route.ts:132-149 | the host summary copies the snapshot, counts the CPUs and takes the first CPU's model, which is absent exactly when there is no CPU |
| CheckRoute.CheckTools | src/app/api/check/route.ts:152 | one result per tool, in the tools' order, each the tool's chain result |
| CheckRoute.Get | src/app/api/check/route.ts:151-158 | seven results in table order plus the host summary; when every command fails, every tool is reported missing with an error |
| Host.PrimaryCpuModel | src/app/api/system/route.ts:111 | the first CPU's model, absent exactly when there is no CPU |
| SystemRoute.FallbackVersion | src/app/api/system/route.ts:73 | platform, a space, then release |
| SystemRoute.PlatformVersionOf | src/app/api/system/route.ts:58-74 | the platform version is empty exactly on an unsupported platform or when the linux or win32 command answers with blank output; on darwin and on every failure it is never empty |
| SystemRoute.PlatformVersion | src/app/api/system/route.ts:58-74 | the `try` block computes the platform version: per platform, the probe's trimmed output (with `macOS ` in front on darwin), or platform and release when the probe fails; empty on other platforms |
| SystemRoute.CollectNetworkInterfaces | src/app/api/system/route.ts:84-99 | the nested loops produce the external address list |
| SystemRoute.ExternalOfMembership | src/app/api/system/route.ts:89-97 | an interface contributes exactly its non-internal addresses |
| SystemRoute.ExternalAddressesMembership | src/app/api/system/route.ts:87-99 | the list holds exactly the non-internal addresses, each with its interface's name; interfaces whose address list is undefined contribute nothing |
| SystemRoute.ExternalAddressesSound | src/app/api/system/route.ts:87-99 | every listed address is a non-internal address of some interface, reported with that interface's name |
| SystemRoute.ExternalAddressesComplete | src/app/api/system/route.ts:87-99 | every non-internal address of every interface with an address list is listed |
| SystemRoute.ExternalAddressesAppend | src/app/api/system/route.ts:87-99 | interfaces contribute in enumeration order: the list for two runs of interfaces is the first run's list followed by the second's |
| SystemRoute.SplitUptime | src/app/api/system/route.ts:121-123 | the hours of the split are below 24 and its minutes below 60 |
| SystemRoute.SplitUptimeBounds | src/app/api/system/route.ts:121-123 | hours are below 24 and minutes below 60, and days, hours and minutes account for the uptime to within less than a minute |
| SystemRoute.SplitUptimeRoundTrip | src/app/api/system/route.ts:121-123 | any days/hours/minutes in range, plus under a minute of seconds, splits back to itself |
| SystemRoute.GetSystemInfo | src/app/api/system/route.ts:49-137 | the telemetry copies the snapshot, counts the CPUs, takes the first model, has the platform version `PlatformVersionOf` gives, has used plus free memory equal to the total, splits the uptime within range, and lists exactly the external addresses |
| AuthCallback.RedirectTarget | src/app/api/auth/callback/route.ts:15-24 | the target always starts with `/`; a parameter starting with `/` is used as it is; anything else gives `/zh` |
| AuthCallback.RedirectTargetIdempotent | src/app/api/auth/callback/route.ts:21-24 | a produced target is accepted unchanged when passed back |
| AuthCallback.RedirectTargetKeepsProtocolRelative | src/app/api/auth/callback/route.ts:22 | `//example.com/` passes the test and is redirected to as it is |
| AuthCallback.HandleCallback | src/app/api/auth/callback/route.ts:17-32 | the code is exchanged exactly when it is present and non-empty; the redirect is the chosen target |
| AuthCallback.SyncAction | src/app/api/auth/callback/route.ts:38-51 | the session is stored exactly on sign-in or token refresh with a session present; sign-out happens exactly on sign-out or user deletion |
| AuthCallback.HandleHook | src/app/api/auth/callback/route.ts:34-54 | the answer is `synced` whatever the event |
| I18nRouting.LocaleTableConsistent | src/i18n/routing.ts:1-15 | six distinct locales, with the default `zh` among them; exactly one label per locale, and no two labels alike |
| I18nRequest.NormalizeLocale | src/i18n/request.ts:29-31 | the result is a supported locale: the requested one when supported, the default otherwise |
| I18nRequest.NormalizeLocaleIdempotent | src/i18n/request.ts:29-31 | normalising a normalised locale changes nothing |
| I18nRequest.MessagesModule | src/i18n/request.ts:9-26 | a supported locale loads the catalog named after it; any other loads the default locale's |
| I18nRequest.MessagesModuleInjective | src/i18n/request.ts:9-26 | distinct supported locales load distinct catalogs |
| I18nRequest.GetRequestConfig | src/i18n/request.ts:28-39 | the config's locale is the normalised locale and its messages are that locale's catalog |

## Left out

- Floating-point telemetry is not modelled, because it is presentation-time arithmetic on the same raw counters:
  - the CPU speed in GHz
  - the CPU usage percentage, which is NaN on a host reporting no CPUs
  - the GB strings
  - the memory percentage
  - the rounded load averages
  - Node's process memory figures
- SystemRoute.SplitUptime: the uptime is taken as whole seconds. Node may report a fractional uptime, whose `Math.floor` split gives the same values as its integer part.
- CheckRoute.SummarizeHost: `uptimeSeconds` is copied from `os.uptime()`, which may be fractional; `OsSnapshot.uptime` keeps whole seconds only.
- The HTTP layer is not modelled: `NextResponse`, JSON serialisation, and the 500 answer of the telemetry route when the snapshot itself cannot be read.
- URL resolution of the redirect against the request origin is not modelled. The model stops at the path string, and `AuthCallback.RedirectTargetKeepsProtocolRelative` records that a `//host` target passes the check.
- The Supabase client calls (`exchangeCodeForSession`, `setSession`, `signOut`) are left out. The model returns which call is made and with what.
- AuthCallback.HandleHook: the hook answers `synced` only when `request.json()` gives a non-null object and the Supabase call settles (`src/app/api/auth/callback/route.ts:36-47`); a parse failure, a `null` payload or a rejected call throws instead, and the model takes the parsed event as given.
- The message catalogs' contents are not modelled. The model names the catalog module that is imported.
- `Promise.all` runs the seven probes concurrently. The model runs them one after another. This is equivalent under the model's `Exec`, where a command's outcome does not depend on the others.
- `execAsync`'s options (UTF-8 decoding, the 1 MiB output buffer) are left out. Exceeding the buffer appears in the model as a failed outcome.
- No timeout is set on `execAsync`, so a command that never ends keeps `GET` waiting. In the model every `Exec` outcome settles.
- `Object.entries` enumeration order of the interfaces is taken as given by the snapshot.
- `middleware.ts`, the navigation helpers and the UI components are not part of this model.
