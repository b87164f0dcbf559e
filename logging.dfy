/**
 * The levelled console logger `utils.log` of lib/utils.ts: one mutable `level`
 * and four emit operations, each printing only when `level` is above the
 * severity just below its own. Console output is modelled as the sequence of
 * `console.log` calls made so far; cli-color decoration becomes a tag.
 */
module Logging {

  /** The `logLevel` enum, ordered by its numeric values. */
  datatype Level = None | Error | Warn | Info | Debug {
    function Ord(): (n: nat)
      ensures n <= 4
      ensures n == 0 <==> this == None
    {
      match this
      case None => 0
      case Error => 1
      case Warn => 2
      case Info => 3
      case Debug => 4
    }
  }

  /** The colour applied to a printed message (`info` prints it undecorated). */
  datatype Tag = Red | Yellow | Plain | Green

  /** One `console.log` call: the decorated message and the format arguments after it. */
  datatype Entry = Entry(tag: Tag, message: string, args: seq<string>)

  /** The colour each severity's messages get. */
  function TagOf(severity: Level): (tag: Tag)
    ensures tag == Red <==> severity == Level.Error
    ensures tag == Yellow <==> severity == Level.Warn
    ensures tag == Green <==> severity == Level.Debug
  {
    match severity
    case Error => Red
    case Warn => Yellow
    case Debug => Green
    case _ => Plain
  }

  /** A message of `severity` (one of Error .. Debug) is printed when the level is at least that severity. */
  predicate Enabled(level: Level, severity: Level)
    ensures Enabled(level, severity) ==> level != Level.None && severity != Level.None
    ensures severity != Level.None && severity == level ==> Enabled(level, severity)
  {
    1 <= severity.Ord() <= level.Ord()
  }

  /** What a call of severity `severity` adds to the console at `level`. */
  function Emission(level: Level, severity: Level, message: string, args: seq<string>): (lines: seq<Entry>)
    ensures |lines| <= 1
    ensures lines != [] <==> Enabled(level, severity)
    ensures forall e :: e in lines ==> e.tag == TagOf(severity) && e.message == message && e.args == args
  {
    if Enabled(level, severity) then [Entry(TagOf(severity), message, args)] else []
  }

  /** Number of console lines carrying `tag`. */
  function CountTag(out: seq<Entry>, tag: Tag): nat
  {
    if out == [] then 0
    else CountTag(out[..|out| - 1], tag) + (if out[|out| - 1].tag == tag then 1 else 0)
  }

  lemma {:induction false} CountTagAppend(a: seq<Entry>, b: seq<Entry>, tag: Tag)
    ensures CountTag(a + b, tag) == CountTag(a, tag) + CountTag(b, tag)
    decreases |b|
  {
    if b != [] {
      assert (a + b)[..|a + b| - 1] == a + b[..|b| - 1];
      CountTagAppend(a, b[..|b| - 1], tag);
    } else {
      assert a + b == a;
    }
  }

  /** A single call prints one line of its severity's colour, or nothing. */
  lemma CountEmission(level: Level, severity: Level, message: string, args: seq<string>, tag: Tag)
    ensures CountTag(Emission(level, severity, message, args), tag) ==
      if Enabled(level, severity) && TagOf(severity) == tag then 1 else 0
  {
    var e := Emission(level, severity, message, args);
    if e != [] {
      assert e[..0] == [];
    }
  }

  /** The source's gate `level > S - 1` is the same test as `Enabled(level, S)`. */
  lemma GateIsAtLeastSeverity(level: Level, severity: Level)
    requires severity != Level.None
    ensures Enabled(level, severity) <==> level.Ord() > severity.Ord() - 1
  {
  }

  /** At level None nothing is printed. */
  lemma NoneIsSilent(severity: Level)
    ensures !Enabled(Level.None, severity)
  {
  }

  /** At the default level Error only `error` prints. */
  lemma DefaultPrintsOnlyErrors(severity: Level)
    ensures Enabled(Level.Error, severity) <==> severity == Level.Error
  {
  }

  /** Raising the level never silences a message that printed before. */
  lemma EnabledMonotone(lower: Level, higher: Level, severity: Level)
    requires lower.Ord() <= higher.Ord()
    ensures Enabled(lower, severity) ==> Enabled(higher, severity)
  {
  }

  /** The four thresholds are uniform: `warn` also prints at Info, `info` prints at Info and Debug. */
  lemma UniformThresholds(level: Level)
    ensures Enabled(level, Level.Warn) <==> level in {Level.Warn, Level.Info, Level.Debug}
    ensures Enabled(level, Level.Info) <==> level in {Level.Info, Level.Debug}
    ensures Enabled(level, Level.Debug) <==> level == Level.Debug
    ensures Enabled(level, Level.Error) <==> level != Level.None
  {
  }

  /** The object `utils.log`. Callers assign `level` directly. */
  class Logger {
    var level: Level
    var output: seq<Entry>

    constructor ()
      ensures level == Level.Error && output == []
    {
      level := Level.Error;
      output := [];
    }

    method Error(message: string, args: seq<string>)
      modifies this`output
      ensures level == old(level)
      ensures output == old(output) + Emission(level, Level.Error, message, args)
    {
      if level.Ord() > Level.None.Ord() {
        output := output + [Entry(Red, message, args)];
      }
    }

    method Warn(message: string, args: seq<string>)
      modifies this`output
      ensures level == old(level)
      ensures output == old(output) + Emission(level, Level.Warn, message, args)
    {
      if level.Ord() > Level.Error.Ord() {
        output := output + [Entry(Yellow, message, args)];
      }
    }

    method Info(message: string, args: seq<string>)
      modifies this`output
      ensures level == old(level)
      ensures output == old(output) + Emission(level, Level.Info, message, args)
    {
      if level.Ord() > Level.Warn.Ord() {
        output := output + [Entry(Plain, message, args)];
      }
    }

    method Debug(message: string, args: seq<string>)
      modifies this`output
      ensures level == old(level)
      ensures output == old(output) + Emission(level, Level.Debug, message, args)
    {
      if level.Ord() > Level.Info.Ord() {
        output := output + [Entry(Green, message, args)];
      }
    }
  }
}
