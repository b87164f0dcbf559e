/**
 * `utils.execSync` and `utils.spawn` of lib/utils.ts: both log the call at Debug
 * level, then either do nothing (restricted platform) or hand the request to
 * the host. What the host would do is a parameter.
 */
module Launcher {
  import opened Wrappers
  import Logging
  import Platform

  /** What `child_process.execSync` does when it runs a command: its output, or the message it throws. */
  datatype Outcome = Completed(stdout: string) | Failed(message: string)

  /** What `child_process.spawn` does with a request when it is actually called: start the process, or throw. */
  datatype SpawnOutcome = Started | Refused(message: string)

  /** The `options` object passed to spawn, as key/value settings. */
  type SpawnOptions = map<string, string>

  /** A process handle: the inert stand-in (`DummyProcess`) or the live handle the host returns for a request. */
  datatype Handle = Inert | Live(cmd: string, args: seq<string>, options: Option<SpawnOptions>)

  /** `Array.prototype.join`: the parts separated by `sep`. */
  function Join(parts: seq<string>, sep: string): (joined: string)
    ensures parts == [] ==> joined == ""
    ensures |parts| == 1 ==> joined == parts[0]
    ensures |parts| > 1 ==> parts[0] + sep <= joined
    decreases |parts|
  {
    if |parts| == 0 then ""
    else if |parts| == 1 then parts[0]
    else parts[0] + sep + Join(parts[1..], sep)
  }

  /** How a template literal renders the options argument. */
  function RenderOptions(options: Option<SpawnOptions>): (text: string)
    ensures text == "undefined" <==> options.None?
  {
    if options.None? then "undefined" else "[object Object]"
  }

  /** The debug line `execSync` logs: `["execSync('", cmd, "')"].join('')`. */
  function ExecMessage(cmd: string): (line: string)
    ensures line == "execSync('" + cmd + "')"
  {
    var parts := ["execSync('", cmd, "')"];
    assert parts[1..][1..] == ["')"];
    assert Join(parts[1..], "") == cmd + "" + "')";
    Join(parts, "")
  }

  /** The debug line `spawn` logs. */
  function SpawnMessage(cmd: string, args: seq<string>, options: Option<SpawnOptions>): (line: string)
    ensures "spawn('" + cmd + "', [" <= line
    ensures args == [] ==> line == "spawn('" + cmd + "', [], " + RenderOptions(options) + ")"
  {
    var head := "spawn('" + cmd + "', [";
    var line := head + (Join(args, ",") + "], " + RenderOptions(options) + ")");
    assert line == "spawn('" + cmd + "', [" + Join(args, ",") + "], " + RenderOptions(options) + ")";
    line
  }

  /** The TypeError `args.join()` throws when `args` is missing. */
  const MissingArgsMessage := "Cannot read properties of undefined (reading 'join')"

  /** What `execSync` returns or throws. */
  function ExecResult(platform: string, host: Outcome): (r: Result<string, string>)
    ensures Platform.NotPi(platform) ==> r == Success("")
    ensures !Platform.NotPi(platform) ==> (r.Success? <==> host.Completed?)
    ensures !Platform.NotPi(platform) && host.Completed? ==> r.value == host.stdout
    ensures !Platform.NotPi(platform) && host.Failed? ==> r.error == host.message
  {
    if Platform.NotPi(platform) then Success("")
    else match host
      case Completed(out) => Success(out)
      case Failed(message) => Failure(message)
  }

  /** What `spawn` returns or throws. */
  function SpawnResult(platform: string, cmd: string, args: Option<seq<string>>, options: Option<SpawnOptions>,
                       host: SpawnOutcome): (r: Result<Handle, string>)
    ensures args.None? ==> r == Failure(MissingArgsMessage)
    ensures args.Some? && Platform.NotPi(platform) ==> r == Success(Inert)
    ensures args.Some? && !Platform.NotPi(platform) ==> (r.Success? <==> host.Started?)
    ensures args.Some? && !Platform.NotPi(platform) && host.Started? ==> r.value == Live(cmd, args.value, options)
    ensures args.Some? && !Platform.NotPi(platform) && host.Refused? ==> r.error == host.message
  {
    match args
    case None => Failure(MissingArgsMessage)
    case Some(a) =>
      if Platform.NotPi(platform) then Success(Inert)
      else match host
        case Started => Success(Live(cmd, a, options))
        case Refused(message) => Failure(message)
  }

  method ExecSync(log: Logging.Logger, platform: string, cmd: string, host: Outcome) returns (r: Result<string, string>)
    modifies log`output
    ensures log.level == old(log.level)
    ensures log.output == old(log.output) + Logging.Emission(log.level, Logging.Level.Debug, ExecMessage(cmd), [])
    ensures r == ExecResult(platform, host)
  {
    log.Debug(ExecMessage(cmd), []);
    if Platform.NotPi(platform) {
      r := Success("");
    } else {
      match host
      case Completed(out) => r := Success(out);
      case Failed(message) => r := Failure(message);
    }
  }

  method Spawn(log: Logging.Logger, platform: string, cmd: string, args: Option<seq<string>>, options: Option<SpawnOptions>,
               host: SpawnOutcome) returns (r: Result<Handle, string>)
    modifies log`output
    ensures log.level == old(log.level)
    ensures args.None? ==> log.output == old(log.output)
    ensures args.Some? ==> log.output == old(log.output) + Logging.Emission(log.level, Logging.Level.Debug, SpawnMessage(cmd, args.value, options), [])
    ensures r == SpawnResult(platform, cmd, args, options, host)
  {
    if args.None? {
      return Failure(MissingArgsMessage);
    }
    log.Debug(SpawnMessage(cmd, args.value, options), []);
    if Platform.NotPi(platform) {
      r := Success(Inert);
    } else {
      match host
      case Started => r := Success(Live(cmd, args.value, options));
      case Refused(message) => r := Failure(message);
    }
  }

  /** On a restricted platform `execSync` yields "" whatever the host would have done: nothing is run. */
  lemma RestrictedExecIgnoresHost(platform: string, host1: Outcome, host2: Outcome)
    requires Platform.NotPi(platform)
    ensures ExecResult(platform, host1) == ExecResult(platform, host2) == Success("")
  {
  }

  /** A missing `args` fails before the platform is looked at, on every platform. */
  lemma MissingArgsFailsEverywhere(p1: string, p2: string, cmd: string, options: Option<SpawnOptions>,
                                    host1: SpawnOutcome, host2: SpawnOutcome)
    ensures SpawnResult(p1, cmd, None, options, host1) == SpawnResult(p2, cmd, None, options, host2)
    ensures SpawnResult(p1, cmd, None, options, host1).Failure?
  {
  }

  /** On a restricted platform `spawn` hands back the inert handle whatever the host would have done: nothing is launched. */
  lemma RestrictedSpawnIgnoresHost(platform: string, cmd: string, args: seq<string>, options: Option<SpawnOptions>,
                                   host1: SpawnOutcome, host2: SpawnOutcome)
    requires Platform.NotPi(platform)
    ensures SpawnResult(platform, cmd, Some(args), options, host1) == SpawnResult(platform, cmd, Some(args), options, host2)
    ensures SpawnResult(platform, cmd, Some(args), options, host1) == Success(Inert)
  {
  }
}
