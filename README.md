# rpos utilities, modelled in Dafny

A model of `lib/utils.ts` from the rpos repository: the static `utils` facade that
reads the board serial from `/proc/cpuinfo`, looks up an interface address,
detects a restricted (Windows or macOS) host, runs commands through a
platform-guarded `execSync`/`spawn`, and logs through a levelled console logger.

Every host facility becomes an input:
- the output `child_process.execSync` would produce, or the error it would throw (`Launcher.Outcome`);
- whether `child_process.spawn` would start the process or throw (`Launcher.SpawnOutcome`);
- the table `os.networkInterfaces()` returns (`Network.InterfaceTable`);
- the platform string `process.platform`.

The modules follow the pieces of the file:
- `Logging`: the `logLevel` enum and the `utils.log` object. `Logger` is a class whose
  `level` callers assign and whose `output` is the sequence of `console.log` calls
  made so far, each with a colour tag.
- `Platform`: `NotPi`.
- `Launcher`: `ExecSync` and `Spawn`. Each logs at Debug, then either returns the
  inert result or hands the request to the host. `ExecResult` and `SpawnResult`
  are their pure specifications.
- `Serial`: the pattern `Serial[\t]*: ([0-9a-f]{16})`. `MatchesAt` is a reference
  definition: the text holds "Serial", n tabs, ": " and 16 lowercase hex digits at a
  position. `MatchAt`/`ExtractSerial` compute the first match and are proved against
  it. `GetSerial` is the try/catch with its sentinel and its error line.
- `Network`: `GetIpAddress`, a loop proved against `LastAddress`. `LastAddress` is in
  turn characterised as "the last entry of the family".
- `Wrappers`: `Option` (null) and `Result` (a value or a thrown error's message).

Facts about the code that the model makes explicit:
- The sentinel `"ERROR000000000"` is 14 characters long (lib/utils.ts:45), so it never looks like a serial.
- The four log gates are uniform: each emits when `level > S - 1` for its own severity S
  (lib/utils.ts:69, 75, 81, 85). So `warn` also prints at level Info (`Logging.UniformThresholds`).
- The pattern accepts TABs only between `Serial` and `:`. A line written with spaces,
  `Serial          : 0000000031a2b3c4`, does not match and yields the sentinel
  (`Serial.SpacesDoNotMatch`). The same line with tabs, as `/proc/cpuinfo` writes it,
  yields the serial (`Serial.CpuinfoLineExample`), and the first Serial line wins
  (`Serial.LeadingSerialLineWins`).
- The initial value `"0000000000000000"` is overwritten on every path. The same string
  comes back only when the text itself carries an all-zero serial
  (`Serial.InitialValueOnlyFromText`).

## Model

| member | source | states |
|---|---|---|
| `Logging.Level.Ord` | lib/utils.ts:10-16 | the enum's numeric values: at most 4, and 0 exactly for None |
| `Logging.Logger.constructor` | lib/utils.ts:66-67 | the logger starts at level Error with nothing printed |
| `Logging.Logger.Error` | lib/utils.ts:68-73 | leaves `level` alone; appends one red line exactly when the level enables Error (any level but None), else nothing |
| `Logging.Logger.Warn` | lib/utils.ts:74-79 | leaves `level` alone; appends one yellow line exactly when the level is Warn or above |
| `Logging.Logger.Info` | lib/utils.ts:80-83 | leaves `level` alone; appends one undecorated line exactly when the level is Info or above |
| `Logging.Logger.Debug` | lib/utils.ts:84-89 | leaves `level` alone; appends one green line exactly when the level is Debug |
| `Logging.TagOf` | lib/utils.ts:70-87 | red marks exactly error lines, yellow exactly warn lines, green exactly debug lines |
| `Logging.Enabled` | lib/utils.ts:69-85 | nothing is enabled at level None or for severity None; a severity is enabled at its own level |
| `Logging.Emission` | lib/utils.ts:68-89 | one call prints at most one line, exactly when its severity is enabled, carrying its severity's tag, the message and the arguments |
| `Logging.GateIsAtLeastSeverity` | lib/utils.ts:68-89 | the source's gate `level > S - 1` is the same test as "level at least S" |
| `Logging.NoneIsSilent` | lib/utils.ts:69 | at level None no call prints |
| `Logging.DefaultPrintsOnlyErrors` | lib/utils.ts:67-73 | at the default level Error exactly the `error` calls print |
| `Logging.EnabledMonotone` | lib/utils.ts:68-89 | raising the level never silences a message that printed before |
| `Logging.UniformThresholds` | lib/utils.ts:74-89 | warn prints at Warn, Info and Debug; info at Info and Debug; debug at Debug only; error at every level but None |
| `Logging.CountEmission` | lib/utils.ts:68-89 | one call prints at most one line, of its severity's colour, and only when enabled |
| `Platform.NotPi` | lib/utils.ts:62-64 | true iff the platform string is "win" or "darwin" followed by anything |
| `Platform.KnownPlatforms` | lib/utils.ts:63 | win32 and darwin are restricted; linux, freebsd, android and cygwin are not (prefix test only) |
| `Launcher.ExecResult` | lib/utils.ts:93 | on a restricted platform the result is ""; elsewhere it is the host's output, or its error propagated |
| `Launcher.ExecSync` | lib/utils.ts:91-94 | logs `execSync('<cmd>')` at Debug first, leaves the level alone, and returns `ExecResult` |
| `Launcher.RestrictedExecIgnoresHost` | lib/utils.ts:93 | on a restricted platform the result is "" whatever the host would have done: nothing is run |
| `Launcher.SpawnResult` | lib/utils.ts:95-103 | a missing `args` throws; otherwise the handle is inert on a restricted platform; elsewhere it is live for this command, arguments and options when the host starts it, or the host's error propagated |
| `Launcher.Spawn` | lib/utils.ts:95-103 | a missing `args` throws before anything is logged; otherwise it logs the spawn line at Debug first and returns `SpawnResult` |
| `Launcher.MissingArgsFailsEverywhere` | lib/utils.ts:96-97 | `args.join()` runs before the platform test, so a missing `args` fails the same way on every platform, whatever the host would do |
| `Launcher.RestrictedSpawnIgnoresHost` | lib/utils.ts:97-98 | on a restricted platform the inert handle comes back whatever the host would have done: nothing is launched |
| `Launcher.Join` | lib/utils.ts:92 | `join` of no parts is "", of one part is that part, of more starts with the first part and the separator |
| `Launcher.RenderOptions` | lib/utils.ts:96 | the rendered options read "undefined" exactly when no options object is passed |
| `Launcher.ExecMessage` | lib/utils.ts:92 | the debug line is `execSync('` + command + `')` |
| `Launcher.SpawnMessage` | lib/utils.ts:96 | the debug line starts `spawn('` + command + `', [`; with no arguments it is `spawn('<cmd>', [], <options>)` |
| `Network.FamilyOrDefault` | lib/utils.ts:52 | a missing or empty family becomes "IPv4"; any other family is kept |
| `Network.EntriesOf` | lib/utils.ts:53 | an interface missing from the table has no entries; a present one has its own list |
| `Network.LastAddress` | lib/utils.ts:51-59 | any address found belongs to an entry of the requested family |
| `Network.GetIpAddress` | lib/utils.ts:50-60 | the loop's result is the last address of the wanted family among the named interface's entries (none for an absent interface) |
| `Network.LastAddressIsLastMatch` | lib/utils.ts:54-59 | the result is `a` iff some entry of the family has address `a` and no later entry has the family |
| `Network.LastAddressFound` | lib/utils.ts:54-59 | an address found belongs to an entry of the family after which no entry has the family |
| `Network.LastAddressReturnsLast` | lib/utils.ts:54-59 | when entry j has the family and no later entry does, its address is the result |
| `Network.LastAddressNone` | lib/utils.ts:51-59 | null comes back iff no entry has the family |
| `Network.AbsentInterfaceHasNoAddress` | lib/utils.ts:53 | an interface missing from the table yields null |
| `Network.DefaultFamilyIsIPv4` | lib/utils.ts:52 | no family, or "", gives the same answer as "IPv4" |
| `Network.LastOfTwoIPv4Wins` | lib/utils.ts:54-58 | with two IPv4 entries on eth0 the second address is returned |
| `Serial.TabRun` | lib/utils.ts:42 | `[\t]*` consumes the maximal run of tabs: all tabs, then end of text or a non-tab |
| `Serial.MatchAt` | lib/utils.ts:42 | a match at one position captures 16 lowercase hex digits |
| `Serial.FirstMatchFrom` | lib/utils.ts:42 | whatever the unanchored search returns is 16 lowercase hex digits |
| `Serial.MatchAtSound` | lib/utils.ts:42 | a match found at a position is an occurrence of the pattern there |
| `Serial.MatchAtComplete` | lib/utils.ts:42 | every occurrence of the pattern at a position is found there, with exactly its digits |
| `Serial.MatchAtIsOccurrence` | lib/utils.ts:42 | at one position, the match captures `d` iff the pattern occurs there with digits `d` |
| `Serial.ExtractSerialIsFirstOccurrence` | lib/utils.ts:42 | `match(...)[1]` is `d` iff the leftmost occurrence of the pattern captures `d` |
| `Serial.ExtractSerialNone` | lib/utils.ts:42 | `match` returns null iff the pattern occurs nowhere in the text |
| `Serial.ExtractSerial` | lib/utils.ts:42 | whatever `match(...)[1]` returns is 16 lowercase hex digits; the empty text has no match |
| `Serial.ReadSerial` | lib/utils.ts:40-42 | on the target platform, for completed output, the try block succeeds iff the pattern matches, and then with exactly the extracted digits; on a restricted platform it throws the no-match error; a command failure is passed through |
| `Serial.SerialTrace` | lib/utils.ts:41-46 | getSerial prints at most two lines: the green execSync debug line and the red "Failed to read serial" line; on success no red line |
| `Serial.SerialOf` | lib/utils.ts:37-48 | the result is the sentinel or 16 lowercase hex digits; it is the sentinel iff the try block threw; on the target platform, completed output with a match gives exactly the extracted digits |
| `Serial.SerialIsFirstOccurrence` | lib/utils.ts:37-48 | on the target platform, for completed output, `getSerial` returns `d` (not the sentinel) iff the first occurrence of the pattern in the output captures `d` |
| `Serial.GetSerial` | lib/utils.ts:37-48 | returns `SerialOf`; prints the execSync debug line, then on failure the "Failed to read serial" error line with the exception's message |
| `Serial.OneErrorLineIffSentinel` | lib/utils.ts:43-46 | exactly one red line is printed (when the level prints errors) iff the sentinel is returned, else none |
| `Serial.RestrictedPlatformGivesSentinel` | lib/utils.ts:41-46 | on a restricted platform the text is "", which has no match, so the sentinel is returned |
| `Serial.InitialValueOnlyFromText` | lib/utils.ts:39-47 | the initial all-zero value is returned only when the command's output itself carries that serial |
| `Serial.CpuinfoLineExample` | lib/utils.ts:42 | a cpuinfo line `Serial<TAB><TAB>: 0000000031a2b3c4` yields that serial |
| `Serial.LeadingSerialLineWins` | lib/utils.ts:42 | a text that starts with "Serial", any number of tabs, ": " and 16 lowercase hex digits yields those digits whatever follows, later Serial lines included |
| `Serial.SpacesDoNotMatch` | lib/utils.ts:42 | the same line written with spaces instead of tabs has no match |

## Left out

- `utils.cleanup` (lib/utils.ts:105-128): it only registers process signal and exit handlers and calls `process.exit`. It is runtime event plumbing with no data logic.
- `DummyProcess` and `DummyReadable` (lib/utils.ts:18-34): the inert handle is the `Launcher.Handle.Inert` variant. Its streams and its no-op `kill`/`send`/`disconnect` are EventEmitter and stream plumbing and are not modelled.
- Running commands (`child_process.execSync`, `child_process.spawn`), `os.networkInterfaces()` and `process.platform` are host calls. What they return or throw is a parameter (`Launcher.Outcome`, `Launcher.SpawnOutcome`). A live handle is represented by the request it was made for.
- cli-color decoration and `console.log`'s `%s` substitution are console I/O. A printed line is its colour tag, its message and its arguments, unformatted.
- `execSync` on a real host returns a Buffer, which `getSerial` converts with `toString()`. The model takes the decoded text.
- The message of the TypeError that `null[1]` throws depends on the JavaScript engine. The model uses one fixed text (`Serial.NoMatchMessage`), and likewise for `args.join()` on a missing `args`.
- `Logging.Logger`: `level` is typed as the five-value enum. JavaScript would also accept any other number there; such levels are not modelled.
- `Network.GetIpAddress`: families are compared as strings. The numeric `family` some Node versions report is not modelled, nor are interface names that hit `Object.prototype` properties.
- `Launcher.RenderOptions` renders a missing options object as "undefined" and any object as "[object Object]". A `null` options value is not distinguished.
