/**
 * `utils.getSerial` of lib/utils.ts. The contents of /proc/cpuinfo are searched
 * for the pattern `Serial[\t]*: ([0-9a-f]{16})` (unanchored, first occurrence
 * wins); any failure, a thrown command error or no match, is logged at Error
 * level and turned into the sentinel "ERROR000000000".
 */
module Serial {
  import opened Wrappers
  import Logging
  import Launcher
  import Platform

  const Label := "Serial"
  const SerialLength := 16
  /** Returned on any failure. It is 14 characters long, so it is never a serial. */
  const Sentinel := "ERROR000000000"
  /** The value `cpuserial` starts with; every path overwrites it. */
  const InitialSerial := "0000000000000000"
  const CpuinfoCommand := "sudo cat /proc/cpuinfo"
  const FailureMessage := "Failed to read serial : %s"
  /** The TypeError indexing the null result of a failed `match` throws. */
  const NoMatchMessage := "Cannot read properties of null (reading '1')"

  /** `[0-9a-f]` */
  predicate IsLowerHex(c: char)
  {
    '0' <= c <= '9' || 'a' <= c <= 'f'
  }

  predicate AllLowerHex(s: string)
  {
    forall i :: 0 <= i < |s| ==> IsLowerHex(s[i])
  }

  /** A serial as the pattern captures it: 16 lowercase hex digits. */
  predicate IsSerial(s: string)
  {
    |s| == SerialLength && AllLowerHex(s)
  }

  function Tabs(n: nat): (t: string)
    ensures |t| == n && forall i :: 0 <= i < n ==> t[i] == '\t'
  {
    seq(n, _ => '\t')
  }

  /** The text one occurrence of the pattern spans: the label, n tabs, ": " and the digits. */
  function Occurrence(n: nat, digits: string): string
  {
    Label + Tabs(n) + ": " + digits
  }

  /** Reference definition: the pattern occurs in `s` at `p`, with `n` tabs, capturing `digits`. */
  ghost predicate MatchesAt(s: string, p: nat, n: nat, digits: string)
  {
    IsSerial(digits) &&
    p + |Occurrence(n, digits)| <= |s| && s[p..p + |Occurrence(n, digits)|] == Occurrence(n, digits)
  }

  /** No occurrence of the pattern starts before `p`. */
  ghost predicate NoMatchBefore(s: string, p: nat)
  {
    forall q: nat, n: nat, digits: string :: q < p ==> !MatchesAt(s, q, n, digits)
  }

  /** Length of the run of tabs in `s` starting at `i`. */
  function TabRun(s: string, i: nat): (n: nat)
    requires i <= |s|
    ensures i + n <= |s|
    ensures forall k :: i <= k < i + n ==> s[k] == '\t'
    ensures i + n == |s| || s[i + n] != '\t'
    decreases |s| - i
  {
    if i < |s| && s[i] == '\t' then 1 + TabRun(s, i + 1) else 0
  }

  /** The regular expression tried at position `p` alone. */
  function MatchAt(s: string, p: nat): (r: Option<string>)
    requires p <= |s|
    ensures r.Some? ==> IsSerial(r.value)
  {
    if p + |Label| <= |s| && s[p..p + |Label|] == Label then
      var q := p + |Label| + TabRun(s, p + |Label|);
      if q + 2 + SerialLength <= |s| && s[q] == ':' && s[q + 1] == ' ' && AllLowerHex(s[q + 2..q + 2 + SerialLength])
      then Some(s[q + 2..q + 2 + SerialLength])
      else None
    else None
  }

  /** The first match at `p` or later. */
  function FirstMatchFrom(s: string, p: nat): (r: Option<string>)
    requires p <= |s|
    ensures r.Some? ==> IsSerial(r.value)
    decreases |s| - p
  {
    if MatchAt(s, p).Some? then MatchAt(s, p)
    else if p == |s| then None
    else FirstMatchFrom(s, p + 1)
  }

  /** `text.match(/Serial[\t]*: ([0-9a-f]{16})/)`, giving group 1 or null. */
  function ExtractSerial(text: string): (r: Option<string>)
    ensures r.Some? ==> IsSerial(r.value)
    ensures text == "" ==> r == None
  {
    FirstMatchFrom(text, 0)
  }

  lemma MatchAtSound(s: string, p: nat)
    requires p <= |s| && MatchAt(s, p).Some?
    ensures MatchesAt(s, p, TabRun(s, p + |Label|), MatchAt(s, p).value)
  {
    var n := TabRun(s, p + |Label|);
    var q := p + |Label| + n;
    var d := MatchAt(s, p).value;
    var w := Occurrence(n, d);
    assert |w| == q + 2 + SerialLength - p;
    assert s[p + |Label|..q] == Tabs(n);
    assert s[q..q + 2] == ": ";
    assert s[p..p + |w|] == s[p..p + |Label|] + s[p + |Label|..q] + s[q..q + 2] + s[q + 2..q + 2 + SerialLength];
  }

  lemma MatchAtComplete(s: string, p: nat, n: nat, digits: string)
    requires MatchesAt(s, p, n, digits)
    ensures p <= |s| && MatchAt(s, p) == Some(digits)
  {
    var w := Occurrence(n, digits);
    var i := p + |Label|;
    var q := i + n;
    assert s[p..p + |w|] == w;
    assert forall k :: 0 <= k < |w| ==> s[p + k] == w[k];
    assert s[p..i] == w[..|Label|] == Label;
    assert forall k :: i <= k < q ==> s[k] == w[k - p] == '\t';
    assert s[q] == w[|Label| + n] == ':';
    assert TabRun(s, i) == n;
    assert s[q + 1] == w[|Label| + n + 1] == ' ';
    assert s[q + 2..q + 2 + SerialLength] == w[|Label| + n + 2..] == digits;
  }

  /** Tried at one position, the pattern captures exactly the digits of an occurrence there. */
  lemma MatchAtIsOccurrence(s: string, p: nat, digits: string)
    requires p <= |s|
    ensures MatchAt(s, p) == Some(digits) <==> exists n: nat :: MatchesAt(s, p, n, digits)
  {
    if MatchAt(s, p) == Some(digits) {
      MatchAtSound(s, p);
    }
    if exists n: nat :: MatchesAt(s, p, n, digits) {
      var n: nat :| MatchesAt(s, p, n, digits);
      MatchAtComplete(s, p, n, digits);
    }
  }

  lemma {:induction false} FirstMatchFromFinds(s: string, p: nat)
    requires p <= |s| && FirstMatchFrom(s, p).Some?
    ensures exists q ::
              p <= q <= |s| && MatchAt(s, q) == FirstMatchFrom(s, p) &&
              (forall q' :: p <= q' < q ==> MatchAt(s, q').None?)
    decreases |s| - p
  {
    if MatchAt(s, p).None? {
      FirstMatchFromFinds(s, p + 1);
      var q :| p + 1 <= q <= |s| && MatchAt(s, q) == FirstMatchFrom(s, p + 1) &&
        forall q' :: p + 1 <= q' < q ==> MatchAt(s, q').None?;
      assert forall q' :: p <= q' < q ==> MatchAt(s, q').None?;
    }
  }

  lemma {:induction false} FirstMatchFromReaches(s: string, p: nat, q: nat)
    requires p <= q <= |s| && MatchAt(s, q).Some?
    requires forall q' :: p <= q' < q ==> MatchAt(s, q').None?
    ensures FirstMatchFrom(s, p) == MatchAt(s, q)
    decreases q - p
  {
    if p < q {
      FirstMatchFromReaches(s, p + 1, q);
    }
  }

  /** `ExtractSerial` returns `digits` exactly when the first occurrence of the pattern in the text captures `digits`. */
  lemma ExtractSerialIsFirstOccurrence(text: string, digits: string)
    ensures ExtractSerial(text) == Some(digits) <==>
      exists p: nat, n: nat :: MatchesAt(text, p, n, digits) && NoMatchBefore(text, p)
  {
    if ExtractSerial(text) == Some(digits) {
      FirstMatchFromFinds(text, 0);
      var q :| 0 <= q <= |text| && MatchAt(text, q) == Some(digits) &&
        forall q' :: 0 <= q' < q ==> MatchAt(text, q').None?;
      MatchAtSound(text, q);
      forall q': nat, n': nat, d': string | q' < q
        ensures !MatchesAt(text, q', n', d')
      {
        if MatchesAt(text, q', n', d') {
          MatchAtComplete(text, q', n', d');
        }
      }
      assert MatchesAt(text, q, TabRun(text, q + |Label|), digits) && NoMatchBefore(text, q);
    }
    if exists p: nat, n: nat :: MatchesAt(text, p, n, digits) && NoMatchBefore(text, p) {
      var p: nat, n: nat :| MatchesAt(text, p, n, digits) && NoMatchBefore(text, p);
      MatchAtComplete(text, p, n, digits);
      forall q' | 0 <= q' < p
        ensures MatchAt(text, q').None?
      {
        if MatchAt(text, q').Some? {
          MatchAtSound(text, q');
        }
      }
      FirstMatchFromReaches(text, 0, p);
    }
  }

  /** `match` returns null exactly when the pattern occurs nowhere in the text. */
  lemma ExtractSerialNone(text: string)
    ensures ExtractSerial(text).None? <==> forall p: nat, n: nat, digits: string :: !MatchesAt(text, p, n, digits)
  {
    if ExtractSerial(text).None? {
      forall p: nat, n: nat, digits: string
        ensures !MatchesAt(text, p, n, digits)
      {
        if MatchesAt(text, p, n, digits) {
          MatchAtComplete(text, p, n, digits);
          FirstMatchFromReachesSome(text, 0, p);
        }
      }
    } else {
      FirstMatchFromFinds(text, 0);
      var q :| 0 <= q <= |text| && MatchAt(text, q) == ExtractSerial(text) &&
        forall q' :: 0 <= q' < q ==> MatchAt(text, q').None?;
      MatchAtSound(text, q);
    }
  }

  /** A match anywhere at or after `p` makes the search from `p` succeed. */
  lemma {:induction false} FirstMatchFromReachesSome(s: string, p: nat, q: nat)
    requires p <= q <= |s| && MatchAt(s, q).Some?
    ensures FirstMatchFrom(s, p).Some?
    decreases q - p
  {
    if p < q && MatchAt(s, p).None? {
      FirstMatchFromReachesSome(s, p + 1, q);
    }
  }

  /** The result of the try block: the captured serial, or the message of what was thrown. */
  function ReadSerial(platform: string, cpuinfo: Launcher.Outcome): (r: Result<string, string>)
    ensures r.Success? ==> IsSerial(r.value) && cpuinfo.Completed? && !Platform.NotPi(platform)
    ensures Platform.NotPi(platform) ==> r == Failure(NoMatchMessage)
    ensures !Platform.NotPi(platform) && cpuinfo.Failed? ==> r == Failure(cpuinfo.message)
    ensures r.Success? ==> ExtractSerial(cpuinfo.stdout) == Some(r.value)
    ensures !Platform.NotPi(platform) && cpuinfo.Completed? ==> (r.Success? <==> ExtractSerial(cpuinfo.stdout).Some?)
  {
    match Launcher.ExecResult(platform, cpuinfo)
    case Failure(message) => Failure(message)
    case Success(text) =>
      match ExtractSerial(text)
      case Some(digits) => Success(digits)
      case None => Failure(NoMatchMessage)
  }

  /** What `getSerial` returns: a serial captured from the command's output, or the sentinel. */
  function SerialOf(platform: string, cpuinfo: Launcher.Outcome): (serial: string)
    ensures serial == Sentinel || IsSerial(serial)
    ensures serial == Sentinel <==> ReadSerial(platform, cpuinfo).Failure?
    ensures serial != Sentinel ==>
      cpuinfo.Completed? && ExtractSerial(Launcher.ExecResult(platform, cpuinfo).value) == Some(serial)
    ensures !Platform.NotPi(platform) && cpuinfo.Completed? && ExtractSerial(cpuinfo.stdout).Some? ==>
      serial == ExtractSerial(cpuinfo.stdout).value
  {
    match ReadSerial(platform, cpuinfo)
    case Success(digits) => digits
    case Failure(_) => Sentinel
  }

  /** On the target platform, `getSerial` returns `digits` (and not the sentinel) exactly when the
      first occurrence of the pattern in the command's output captures `digits`. */
  lemma SerialIsFirstOccurrence(platform: string, text: string, digits: string)
    requires !Platform.NotPi(platform)
    ensures SerialOf(platform, Launcher.Completed(text)) == digits && digits != Sentinel <==>
      exists p: nat, n: nat :: MatchesAt(text, p, n, digits) && NoMatchBefore(text, p)
  {
    ExtractSerialIsFirstOccurrence(text, digits);
  }

  /** The console lines `getSerial` produces at `level`: the execSync debug line, then the error line on failure. */
  function SerialTrace(level: Logging.Level, platform: string, cpuinfo: Launcher.Outcome): (lines: seq<Logging.Entry>)
    ensures |lines| <= 2
    ensures forall e :: e in lines ==>
              (e.tag == Logging.Green && e.message == Launcher.ExecMessage(CpuinfoCommand) && e.args == []) ||
              (e.tag == Logging.Red && e.message == FailureMessage)
    ensures ReadSerial(platform, cpuinfo).Success? ==> forall e :: e in lines ==> e.tag == Logging.Green
  {
    Logging.Emission(level, Logging.Level.Debug, Launcher.ExecMessage(CpuinfoCommand), []) +
    match ReadSerial(platform, cpuinfo)
    case Success(_) => []
    case Failure(message) => Logging.Emission(level, Logging.Level.Error, FailureMessage, [message])
  }

  method GetSerial(log: Logging.Logger, platform: string, cpuinfo: Launcher.Outcome) returns (serial: string)
    modifies log`output
    ensures log.level == old(log.level)
    ensures serial == SerialOf(platform, cpuinfo)
    ensures log.output == old(log.output) + SerialTrace(log.level, platform, cpuinfo)
  {
    var cpuserial := InitialSerial;
    var f := Launcher.ExecSync(log, platform, CpuinfoCommand, cpuinfo);
    match f {
      case Failure(message) =>
        log.Error(FailureMessage, [message]);
        cpuserial := Sentinel;
      case Success(text) =>
        var m := ExtractSerial(text);
        match m {
          case Some(digits) =>
            cpuserial := digits;
          case None =>
            log.Error(FailureMessage, [NoMatchMessage]);
            cpuserial := Sentinel;
        }
    }
    serial := cpuserial;
  }

  /** One error line is printed (when errors print at all) exactly when the sentinel is returned. */
  lemma OneErrorLineIffSentinel(level: Logging.Level, platform: string, cpuinfo: Launcher.Outcome)
    ensures Logging.CountTag(SerialTrace(level, platform, cpuinfo), Logging.Red) ==
      if SerialOf(platform, cpuinfo) == Sentinel && Logging.Enabled(level, Logging.Level.Error) then 1 else 0
  {
    var debug := Logging.Emission(level, Logging.Level.Debug, Launcher.ExecMessage(CpuinfoCommand), []);
    Logging.CountEmission(level, Logging.Level.Debug, Launcher.ExecMessage(CpuinfoCommand), [], Logging.Red);
    match ReadSerial(platform, cpuinfo)
    case Success(_) =>
      assert SerialTrace(level, platform, cpuinfo) == debug + [];
      Logging.CountTagAppend(debug, [], Logging.Red);
    case Failure(message) =>
      var error := Logging.Emission(level, Logging.Level.Error, FailureMessage, [message]);
      assert SerialTrace(level, platform, cpuinfo) == debug + error;
      Logging.CountEmission(level, Logging.Level.Error, FailureMessage, [message], Logging.Red);
      Logging.CountTagAppend(debug, error, Logging.Red);
  }

  /** On a restricted platform the command output is "", which has no match: the sentinel comes back. */
  lemma RestrictedPlatformGivesSentinel(platform: string, cpuinfo: Launcher.Outcome)
    requires Platform.NotPi(platform)
    ensures ExtractSerial("") == None
    ensures ReadSerial(platform, cpuinfo) == Failure(NoMatchMessage)
    ensures SerialOf(platform, cpuinfo) == Sentinel
  {
  }

  /** The initial value never flows out as such: the result is the sentinel or digits the text holds. */
  lemma InitialValueOnlyFromText(platform: string, cpuinfo: Launcher.Outcome)
    ensures SerialOf(platform, cpuinfo) == InitialSerial ==>
      cpuinfo.Completed? && ExtractSerial(Launcher.ExecResult(platform, cpuinfo).value) == Some(InitialSerial)
  {
  }

  /** A /proc/cpuinfo line written with tabs yields its serial. */
  lemma CpuinfoLineExample()
    ensures ExtractSerial("Serial\t\t: 0000000031a2b3c4\n") == Some("0000000031a2b3c4")
  {
    var s := "Serial\t\t: 0000000031a2b3c4\n";
    assert Tabs(2) == "\t\t";
    assert Occurrence(2, "0000000031a2b3c4") == "Serial\t\t: 0000000031a2b3c4";
    assert s[..26] == "Serial\t\t: 0000000031a2b3c4";
    MatchAtComplete(s, 0, 2, "0000000031a2b3c4");
  }

  /** A text that starts with a Serial line yields that line's serial, whatever follows, later Serial lines included. */
  lemma LeadingSerialLineWins(n: nat, digits: string, rest: string)
    requires IsSerial(digits)
    ensures ExtractSerial(Occurrence(n, digits) + rest) == Some(digits)
  {
    var s := Occurrence(n, digits) + rest;
    assert s[..|Occurrence(n, digits)|] == Occurrence(n, digits);
    MatchAtComplete(s, 0, n, digits);
  }

  /** A text with no 'S' from `p` on has no match from `p` on. */
  lemma {:induction false} NoLabelLetterNoMatch(s: string, p: nat)
    requires p <= |s|
    requires forall k :: p <= k < |s| ==> s[k] != 'S'
    ensures FirstMatchFrom(s, p) == None
    decreases |s| - p
  {
    if p < |s| {
      assert p + |Label| <= |s| ==> s[p..p + |Label|][0] == s[p];
      NoLabelLetterNoMatch(s, p + 1);
    }
  }

  /** The same line written with spaces instead of tabs does not match: the pattern allows tabs only. */
  lemma SpacesDoNotMatch()
    ensures ExtractSerial("Serial          : 0000000031a2b3c4") == None
  {
    var s := "Serial          : 0000000031a2b3c4";
    assert s[..6] == Label && s[6] == ' ';
    assert TabRun(s, 6) == 0;
    assert MatchAt(s, 0) == None;
    NoLabelLetterNoMatch(s, 1);
  }
}
