/**
 * The tunnel controller subprocess (external/lt-controller.js): it parses
 * its command line, checks the port, opens a tunnel through the localtunnel
 * library, announces it with one JSON line per event on stdout, and reads
 * stdin until a "stop" line or the end of input.
 *
 * The library is outside this model: the outcome of opening the tunnel is a
 * parameter, and the tunnel's own close/error events are methods the
 * environment calls. An event is written as its JSON object's fields;
 * process.exit is the `exitCode` it records, after which nothing else runs.
 */
module TunnelController {
  import opened Wrappers
  import opened CTypes

  // ---------------------------------------------------------------------------
  // JavaScript string operations

  /** White space as String.prototype.trim and parseInt see it: WhiteSpace and LineTerminator. */
  predicate JsSpace(c: char)
  {
    c == ' ' || '\t' <= c <= '\r' || c as int == 0xA0 || c as int == 0x1680
    || 0x2000 <= c as int <= 0x200A || c as int == 0x2028 || c as int == 0x2029
    || c as int == 0x202F || c as int == 0x205F || c as int == 0x3000 || c as int == 0xFEFF
  }

  /** String.prototype.startsWith. */
  predicate StartsWith(s: string, prefix: string)
  {
    |prefix| <= |s| && s[..|prefix|] == prefix
  }

  /** String.prototype.indexOf for one character; None stands for -1. */
  function IndexOf(s: string, c: char): (r: Option<nat>)
    ensures r.Some? ==> r.value < |s| && s[r.value] == c && c !in s[..r.value]
    ensures r.None? ==> c !in s
    decreases |s|
  {
    if s == [] then None
    else if s[0] == c then Some(0)
    else
      match IndexOf(s[1..], c)
      case None => None
      case Some(i) =>
        assert s[..i + 1] == [s[0]] + s[1..][..i];
        Some(i + 1)
  }

  /** How many white-space characters `s` starts with. */
  function LeadingSpaces(s: string): (n: nat)
    ensures n <= |s|
    decreases |s|
  {
    if s == [] || !JsSpace(s[0]) then 0 else 1 + LeadingSpaces(s[1..])
  }

  lemma {:induction false} LeadingSpacesAre(s: string)
    ensures LeadingSpaces(s) < |s| ==> !JsSpace(s[LeadingSpaces(s)])
    ensures forall k :: 0 <= k < LeadingSpaces(s) ==> JsSpace(s[k])
    decreases |s|
  {
    if s != [] && JsSpace(s[0]) {
      LeadingSpacesAre(s[1..]);
    }
  }

  /** How many white-space characters `s` ends with. */
  function TrailingSpaces(s: string): (n: nat)
    ensures n <= |s|
    decreases |s|
  {
    if s == [] || !JsSpace(s[|s| - 1]) then 0 else 1 + TrailingSpaces(s[..|s| - 1])
  }

  lemma {:induction false} TrailingSpacesAre(s: string)
    ensures TrailingSpaces(s) < |s| ==> !JsSpace(s[|s| - TrailingSpaces(s) - 1])
    ensures forall k :: |s| - TrailingSpaces(s) <= k < |s| ==> JsSpace(s[k])
    decreases |s|
  {
    if s != [] && JsSpace(s[|s| - 1]) {
      TrailingSpacesAre(s[..|s| - 1]);
    }
  }

  /** String.prototype.trim: `s` without its leading and trailing white space. */
  function Trim(s: string): (r: string)
    ensures |r| <= |s|
  {
    var t := s[LeadingSpaces(s)..];
    t[..|t| - TrailingSpaces(t)]
  }

  /** Trim keeps the middle of `s`: what it drops is white space, and what it keeps neither starts nor ends with any. */
  lemma {:induction false} TrimIs(s: string)
    ensures |Trim(s)| <= |s| - LeadingSpaces(s)
    ensures s[LeadingSpaces(s)..LeadingSpaces(s) + |Trim(s)|] == Trim(s)
    ensures forall k :: 0 <= k < LeadingSpaces(s) ==> JsSpace(s[k])
    ensures forall k :: LeadingSpaces(s) + |Trim(s)| <= k < |s| ==> JsSpace(s[k])
    ensures Trim(s) == [] || (!JsSpace(Trim(s)[0]) && !JsSpace(Trim(s)[|Trim(s)| - 1]))
  {
    var t := s[LeadingSpaces(s)..];
    var r := Trim(s);
    assert r == t[..|t| - TrailingSpaces(t)];
    LeadingSpacesAre(s);
    TrailingSpacesAre(t);
    assert forall k :: LeadingSpaces(s) + |r| <= k < |s| ==> s[k] == t[k - LeadingSpaces(s)];
  }

  /** How many decimal digits `s` starts with. */
  function DigitRun(s: string): (n: nat)
    ensures n <= |s|
    decreases |s|
  {
    if s == [] || !IsDigit(s[0]) then 0 else 1 + DigitRun(s[1..])
  }

  lemma {:induction false} DigitRunAre(s: string)
    ensures forall k :: 0 <= k < DigitRun(s) ==> IsDigit(s[k])
    decreases |s|
  {
    if s != [] && IsDigit(s[0]) {
      DigitRunAre(s[1..]);
    }
  }

  /**
   * parseInt(s, 10): leading white space, an optional sign, then the
   * longest run of digits; None stands for NaN, when there is no digit.
   */
  function ParseIntJs(s: string): (r: Option<int>)
  {
    var t := s[LeadingSpaces(s)..];
    var signed := t != [] && (t[0] == '-' || t[0] == '+');
    var u := if signed then t[1..] else t;
    var d := u[..DigitRun(u)];
    DigitRunAre(u);
    var v: int := DigitsValue(d);
    if d == [] then None
    else if t[0] == '-' then Some(-v)
    else Some(v)
  }

  lemma {:induction false} DigitRunOf(d: string, tail: string)
    requires forall k :: 0 <= k < |d| ==> IsDigit(d[k])
    requires tail == [] || !IsDigit(tail[0])
    ensures DigitRun(d + tail) == |d|
    decreases |d|
  {
    if d != [] {
      assert (d + tail)[1..] == d[1..] + tail;
      DigitRunOf(d[1..], tail);
    }
  }

  /**
   * parseInt reads back a number written in decimal, whatever follows it
   * that is not a digit, and a string without digits, such as the
   * "undefined" an absent argument turns into, is NaN.
   */
  lemma {:induction false} ParseIntOfDecimal(n: nat, tail: string)
    requires tail == [] || !IsDigit(tail[0])
    ensures ParseIntJs(DecimalString(n) + tail) == Some(n)
    ensures ParseIntJs("undefined") == None
  {
    var d := DecimalString(n);
    var s := d + tail;
    assert s[0] == d[0] && IsDigit(d[0]);
    assert LeadingSpaces(s) == 0;
    assert s[LeadingSpaces(s)..] == s;
    DigitRunOf(d, tail);
    assert s[..|d|] == d;
    DecimalStringValue(n);
    assert LeadingSpaces("undefined") == 0 && DigitRun("undefined") == 0;
  }

  // ---------------------------------------------------------------------------
  // Command line

  /**
   * One option token, which starts with "--": "--k=v" splits at the first
   * '='; "--k" takes the next token as its value unless it starts with
   * "--", and is "true" otherwise. The index after the option is `next`.
   */
  function Option(argv: seq<string>, i: nat): (r: (string, string, nat))
    requires i < |argv| && StartsWith(argv[i], "--")
    ensures i < r.2 <= |argv|
    ensures '=' in argv[i] ==> r.2 == i + 1 && argv[i] == "--" + r.0 + "=" + r.1 && '=' !in r.0
    ensures '=' !in argv[i] ==> argv[i] == "--" + r.0
    ensures '=' !in argv[i] && r.2 == i + 2 ==> r.1 == argv[i + 1] && !StartsWith(argv[i + 1], "--")
    ensures '=' !in argv[i] && r.2 == i + 1 ==> r.1 == "true"
  {
    var a := argv[i];
    match IndexOf(a, '=')
    case Some(eq) =>
      assert a[0] == '-' && a[1] == '-';
      assert eq >= 2;
      assert a == "--" + a[2..eq] + "=" + a[eq + 1..];
      (a[2..eq], a[eq + 1..], i + 1)
    case None =>
      assert a == "--" + a[2..];
      if i + 1 < |argv| && !StartsWith(argv[i + 1], "--") then (a[2..], argv[i + 1], i + 2)
      else (a[2..], "true", i + 1)
  }

  /** parseArgs from token `i` on, on top of the options already in `acc`. */
  function ParseFrom(argv: seq<string>, i: nat, acc: map<string, string>): (r: map<string, string>)
    requires i <= |argv|
    ensures acc.Keys <= r.Keys
    decreases |argv| - i
  {
    if i == |argv| then acc
    else if !StartsWith(argv[i], "--") then ParseFrom(argv, i + 1, acc)
    else
      var o := Option(argv, i);
      ParseFrom(argv, o.2, acc[o.0 := o.1])
  }

  /** parseArgs(argv). */
  function ParsedArgs(argv: seq<string>): (r: map<string, string>)
  {
    ParseFrom(argv, 0, map[])
  }

  /**
   * Options found later override earlier ones: parsing on top of `acc`
   * gives `acc` overridden by what the tokens alone give.
   */
  lemma {:induction false} ParseFromOverrides(argv: seq<string>, i: nat, acc: map<string, string>)
    requires i <= |argv|
    ensures ParseFrom(argv, i, acc) == acc + ParseFrom(argv, i, map[])
    decreases |argv| - i
  {
    if i == |argv| {
      assert acc + map[] == acc;
    } else if !StartsWith(argv[i], "--") {
      ParseFromOverrides(argv, i + 1, acc);
    } else {
      var o := Option(argv, i);
      var later := ParseFrom(argv, o.2, map[]);
      ParseFromOverrides(argv, o.2, acc[o.0 := o.1]);
      ParseFromOverrides(argv, o.2, map[o.0 := o.1]);
      assert map[][o.0 := o.1] == map[o.0 := o.1];
      assert acc[o.0 := o.1] + later == acc + (map[o.0 := o.1] + later);
    }
  }

  /** parseArgs: one pass over the tokens, each option stored under its key. */
  method ParseArgs(argv: seq<string>) returns (out: map<string, string>)
    ensures out == ParsedArgs(argv)
  {
    out := map[];
    var i := 0;
    while i < |argv|
      invariant i <= |argv|
      invariant ParseFrom(argv, i, out) == ParsedArgs(argv)
      decreases |argv| - i
    {
      var a := argv[i];
      if StartsWith(a, "--") {
        ghost var o := Option(argv, i);
        var key, val;
        var eq := IndexOf(a, '=');
        if eq.Some? {
          assert a[0] == '-' && a[1] == '-';
          key := a[2..eq.value];
          val := a[eq.value + 1..];
        } else {
          key := a[2..];
          if i + 1 < |argv| && !StartsWith(argv[i + 1], "--") {
            i := i + 1;
            val := argv[i];
          } else {
            val := "true";
          }
        }
        assert (key, val, i + 1) == o;
        out := out[key := val];
      }
      i := i + 1;
    }
  }

  // ---------------------------------------------------------------------------
  // Port and options

  const PortError: string := "Missing or invalid --port (1..65535)"

  /** args.port as parseInt sees it: an absent option is undefined, which becomes the string "undefined". */
  function PortArg(args: map<string, string>): (r: string)
    ensures "port" in args ==> r == args["port"]
  {
    if "port" in args then args["port"] else "undefined"
  }

  /** The port check: a number in 1..65535, or the error message. */
  function CheckedPort(args: map<string, string>): (r: Result<int>)
    ensures r.Ok? <==> ParseIntJs(PortArg(args)).Some? && 1 <= ParseIntJs(PortArg(args)).value <= 65535
    ensures r.Ok? ==> r.value == ParseIntJs(PortArg(args)).value
    ensures r.Err? ==> r.error == PortError
  {
    var port := ParseIntJs(PortArg(args));
    if port.None? || port.value <= 0 || port.value > 65535 then Err(PortError) else Ok(port.value)
  }

  /** "--port N" with N a port number in decimal is accepted as N; with no --port at all the check fails. */
  lemma {:induction false} PortFromCommandLine(p: nat)
    requires 1 <= p <= 65535
    ensures CheckedPort(ParsedArgs(["--port", DecimalString(p)])) == Ok(p)
    ensures CheckedPort(ParsedArgs([])) == Err(PortError)
  {
    var argv := ["--port", DecimalString(p)];
    assert IsDigit(argv[1][0]);
    assert !StartsWith(argv[1], "--");
    assert "--port"[0..2] == "--";
    assert '=' !in argv[0];
    var o := Option(argv, 0);
    assert o == ("port", DecimalString(p), 2);
    assert ParseFrom(argv, 2, map["port" := DecimalString(p)]) == map["port" := DecimalString(p)];
    assert map[]["port" := DecimalString(p)] == map["port" := DecimalString(p)];
    assert ParsedArgs(argv) == map["port" := DecimalString(p)];
    ParseIntOfDecimal(p, []);
    assert DecimalString(p) + [] == DecimalString(p);
  }

  /** What the controller hands to the library. */
  datatype TunnelOptions = TunnelOptions(port: int, subdomain: Option<string>, host: Option<string>)

  /** An option that is present (its value is always a string). */
  function Lookup(args: map<string, string>, key: string): (r: Option<string>)
    ensures r.Some? <==> key in args
    ensures r.Some? ==> r.value == args[key]
  {
    if key in args then Some(args[key]) else None
  }

  /** The checked port with the optional subdomain and host, or the port error. */
  function Configured(args: map<string, string>): (r: Result<TunnelOptions>)
    ensures r.Err? <==> CheckedPort(args).Err?
    ensures r.Err? ==> r.error == PortError
    ensures r.Ok? ==> r.value == TunnelOptions(CheckedPort(args).value, Lookup(args, "subdomain"), Lookup(args, "host"))
  {
    match CheckedPort(args)
    case Err(e) => Err(e)
    case Ok(port) => Ok(TunnelOptions(port, Lookup(args, "subdomain"), Lookup(args, "host")))
  }

  /** The start of the main function: parse the command line, check the port, gather the options. */
  method Configure(argv: seq<string>) returns (config: Result<TunnelOptions>)
    ensures config == Configured(ParsedArgs(argv))
  {
    var args := ParseArgs(argv);
    config := Configured(args);
  }

  // ---------------------------------------------------------------------------
  // The stdin command loop

  /** What the lines in the buffer amount to: a "stop" line, or the unterminated text left buffered. */
  datatype Scanned = Stop | Pending(rest: string)

  /**
   * The data handler's loop over the buffer: each '\n'-terminated line is
   * trimmed, and the first one equal to "stop" ends it; otherwise the text
   * after the last '\n' is what stays in the buffer.
   */
  function Scan(buf: string): (r: Scanned)
    ensures r.Pending? ==> '\n' !in r.rest
    decreases |buf|
  {
    match IndexOf(buf, '\n')
    case None => Pending(buf)
    case Some(i) =>
      if Trim(buf[..i]) == "stop" then Stop
      else Scan(buf[i + 1..])
  }

  /** What stays buffered is the text after the last '\n' (all of it when there is none). */
  lemma {:induction false} ScanKeepsTail(buf: string, rest: string)
    requires Scan(buf) == Pending(rest)
    ensures |rest| <= |buf| && buf[|buf| - |rest|..] == rest
    ensures |rest| < |buf| ==> buf[|buf| - |rest| - 1] == '\n'
    decreases |buf|
  {
    match IndexOf(buf, '\n')
    case None =>
      assert rest == buf;
    case Some(i) =>
      var after := buf[i + 1..];
      assert Scan(after) == Pending(rest);
      ScanKeepsTail(after, rest);
      TailAfterNewline(buf, i, after, rest);
  }

  /** A tail of what follows the '\n' at `i` is a tail of the whole, preceded by a '\n'. */
  lemma {:induction false} TailAfterNewline(buf: string, i: nat, after: string, rest: string)
    requires i < |buf| && buf[i] == '\n' && after == buf[i + 1..]
    requires |rest| <= |after| && after[|after| - |rest|..] == rest
    requires |rest| < |after| ==> after[|after| - |rest| - 1] == '\n'
    ensures |rest| <= |buf| && buf[|buf| - |rest|..] == rest
    ensures |rest| < |buf| ==> buf[|buf| - |rest| - 1] == '\n'
  {
    var n := |rest|;
    assert buf[|buf| - n..] == after[|after| - n..];
    if n < |after| {
      assert buf[|buf| - n - 1] == after[|after| - n - 1];
    }
  }

  /** The '\n'-terminated lines of `buf`, without their '\n'. */
  function Lines(buf: string): (r: seq<string>)
    decreases |buf|
  {
    match IndexOf(buf, '\n')
    case None => []
    case Some(i) => [buf[..i]] + Lines(buf[i + 1..])
  }

  /** Whether one of `lines` trims to "stop". */
  ghost predicate HasStopLine(lines: seq<string>)
  {
    exists k :: 0 <= k < |lines| && Trim(lines[k]) == "stop"
  }

  lemma {:induction false} HasStopLineCons(line: string, lines: seq<string>)
    ensures HasStopLine([line] + lines) <==> Trim(line) == "stop" || HasStopLine(lines)
  {
    var all := [line] + lines;
    if HasStopLine(lines) {
      var k :| 0 <= k < |lines| && Trim(lines[k]) == "stop";
      assert all[k + 1] == lines[k];
    }
    if HasStopLine(all) && Trim(line) != "stop" {
      var k :| 0 <= k < |all| && Trim(all[k]) == "stop";
      assert lines[k - 1] == all[k];
    }
    assert all[0] == line;
  }

  /** The loop stops exactly when one of the complete lines trims to "stop". */
  lemma {:induction false} ScanStopsOnStopLine(buf: string)
    ensures Scan(buf) == Stop <==> HasStopLine(Lines(buf))
    decreases |buf|
  {
    match IndexOf(buf, '\n')
    case None =>
    case Some(i) =>
      var rest := buf[i + 1..];
      ScanStopsOnStopLine(rest);
      HasStopLineCons(buf[..i], Lines(rest));
  }

  /**
   * Chunks may split lines anywhere: keeping the unterminated tail of one
   * chunk and appending the next reads the same as the two chunks joined.
   */
  lemma {:induction false} ScanAcrossChunks(a: string, b: string)
    requires Scan(a).Pending?
    ensures Scan(Scan(a).rest + b) == Scan(a + b)
    decreases |a|
  {
    match IndexOf(a, '\n')
    case None =>
      assert IndexOf(a + b, '\n') == match IndexOf(b, '\n') case None => None case Some(j) => Some(|a| + j) by {
        IndexOfAppend(a, b, '\n');
      }
    case Some(i) =>
      IndexOfAppend(a, b, '\n');
      assert (a + b)[..i] == a[..i];
      assert (a + b)[i + 1..] == a[i + 1..] + b;
      ScanAcrossChunks(a[i + 1..], b);
  }

  /** indexOf in a joined string: in the first part if it is there, else in the second, shifted. */
  lemma {:induction false} IndexOfAppend(a: string, b: string, c: char)
    ensures IndexOf(a, c).Some? ==> IndexOf(a + b, c) == IndexOf(a, c)
    ensures IndexOf(a, c).None? ==> IndexOf(a + b, c) == match IndexOf(b, c) case None => None case Some(j) => Some(|a| + j)
    decreases |a|
  {
    if a != [] {
      assert (a + b)[0] == a[0] && (a + b)[1..] == a[1..] + b;
      IndexOfAppend(a[1..], b, c);
    } else {
      assert a + b == b;
    }
  }

  /** A "stop" line ended the Windows way, "\r\n", still stops: trim removes the '\r'. */
  lemma {:induction false} StopWithCarriageReturn()
    ensures Scan("stop\r\n") == Stop
  {
    var s := "stop\r\n";
    assert IndexOf(s, '\n') == Some(5) by {
      assert s[0] != '\n' && s[1] != '\n' && s[2] != '\n' && s[3] != '\n' && s[4] != '\n' && s[5] == '\n';
      assert s[1..][1..][1..][1..][1..] == "\n";
    }
    var line := s[..5];
    assert line == "stop\r";
    assert LeadingSpaces(line) == 0;
    assert TrailingSpaces(line) == 1 by {
      assert line[..4] == "stop";
      assert TrailingSpaces("stop") == 0;
    }
  }

  /** The stdin data handler's loop: appends the chunk and consumes complete lines until a "stop" line. */
  method ScanInput(buf: string, chunk: string) returns (stop: bool, rest: string)
    ensures stop <==> Scan(buf + chunk) == Stop
    ensures !stop ==> Scan(buf + chunk) == Pending(rest)
  {
    rest := buf + chunk;
    stop := false;
    while true
      invariant Scan(rest) == Scan(buf + chunk)
      decreases |rest|
    {
      var i := IndexOf(rest, '\n');
      if i.None? {
        return;
      }
      var line := Trim(rest[..i.value]);
      rest := rest[i.value + 1..];
      if line == "stop" {
        stop := true;
        return;
      }
    }
  }

  // ---------------------------------------------------------------------------
  // The controller

  /** The JSON objects written to stdout, one per line. */
  datatype Event =
    | Boot(argv: seq<string>)
    | RequireOk(version: Option<string>)
    | RequireErr(message: string)
    | Ready(url: string)
    | Error(message: string)
    | Closed

  /** How opening the tunnel ends: its public url, or the message of what it threw. */
  datatype Launch = Launched(url: string) | LaunchFailed(message: string)

  /**
   * What starting the controller writes, the exit code it sets and whether
   * it goes on to wait for events: an invalid port is reported and exits 1
   * without opening anything; a launch that throws is reported and exits 1;
   * a tunnel that opens is announced with one ready event and nothing else.
   */
  function Started(config: Result<TunnelOptions>, launch: Launch): (r: (seq<Event>, Option<int>, bool))
    ensures r.2 <==> config.Ok? && launch.Launched?
    ensures r.1 == (if r.2 then None else Some(1))
    ensures |r.0| == 1 && (r.0[0].Ready? <==> r.2)
    ensures r.2 ==> r.0[0] == Ready(launch.url)
    ensures config.Err? ==> r.0[0] == Error(config.error)
    ensures config.Ok? && launch.LaunchFailed? ==> r.0[0] == Error(launch.message)
  {
    match config
    case Err(e) => ([Error(e)], Some(1), false)
    case Ok(_) =>
      match launch
      case LaunchFailed(message) => ([Error(message)], Some(1), false)
      case Launched(url) => ([Ready(url)], None, true)
  }

  /** Ready, if any, is the first event written, and there is no other. */
  ghost predicate ReadyAtMostOnce(out: seq<Event>)
  {
    forall k :: 0 < k < |out| ==> !out[k].Ready?
  }

  class Controller {
    var out: seq<Event>
    var exitCode: Option<int>
    /** The tunnel's close/error listeners and the stdin handlers are attached. */
    var listening: bool
    var closeCalls: nat
    var buf: string

    ghost predicate Valid()
      reads this
    {
      && ReadyAtMostOnce(out)
      && (listening ==> out != [] && out[0].Ready?)
      && (exitCode.Some? ==> exitCode.value == 0 || exitCode.value == 1)
      && '\n' !in buf
    }

    constructor()
      ensures out == [] && exitCode == None && !listening && closeCalls == 0 && buf == []
      ensures Valid()
    {
      out := [];
      exitCode := None;
      listening := false;
      closeCalls := 0;
      buf := [];
    }

    /** The main function up to the point where it waits for events; `config` holds the options handed to the library. */
    method Run(argv: seq<string>, launch: Launch) returns (config: Result<TunnelOptions>)
      requires out == [] && exitCode == None && !listening && buf == []
      modifies this
      ensures config == Configured(ParsedArgs(argv))
      ensures Valid() && closeCalls == old(closeCalls) && buf == []
      ensures out == Started(config, launch).0 && exitCode == Started(config, launch).1
      ensures listening == Started(config, launch).2
    {
      config := Configure(argv);
      Report(config, launch);
    }

    /** What main writes once the options are known: the option error, the launch error, or the tunnel's url. */
    method Report(config: Result<TunnelOptions>, launch: Launch)
      requires out == [] && exitCode == None && !listening && buf == []
      modifies this`out, this`exitCode, this`listening
      ensures Valid() && buf == []
      ensures out == Started(config, launch).0 && exitCode == Started(config, launch).1
      ensures listening == Started(config, launch).2
    {
      if config.Err? {
        out := out + [Error(config.error)];
        exitCode := Some(1);
        return;
      }
      match launch
      case LaunchFailed(message) =>
        out := out + [Error(message)];
        exitCode := Some(1);
      case Launched(url) =>
        out := out + [Ready(url)];
        listening := true;
    }

    /** The stdin data handler: a "stop" line closes the tunnel and exits 0; otherwise the unterminated tail is kept. */
    method OnData(chunk: string)
      requires Valid() && listening && exitCode == None
      modifies this
      ensures Valid() && out == old(out) && listening
      ensures Scan(old(buf) + chunk) == Stop ==> exitCode == Some(0) && closeCalls == old(closeCalls) + 1
      ensures Scan(old(buf) + chunk) != Stop ==>
        Scan(old(buf) + chunk) == Pending(buf) && exitCode == None && closeCalls == old(closeCalls)
    {
      var stop, rest := ScanInput(buf, chunk);
      buf := rest;
      if stop {
        buf := [];
        closeCalls := closeCalls + 1;
        exitCode := Some(0);
      }
    }

    /** The stdin end handler: closes the tunnel and exits 0. */
    method OnEnd()
      requires Valid() && listening && exitCode == None
      modifies this
      ensures Valid() && out == old(out) && buf == old(buf)
      ensures exitCode == Some(0) && closeCalls == old(closeCalls) + 1
    {
      closeCalls := closeCalls + 1;
      exitCode := Some(0);
    }

    /** The tunnel's close listener. */
    method OnTunnelClose()
      requires Valid() && listening && exitCode == None
      modifies this
      ensures Valid() && out == old(out) + [Closed] && exitCode == None && buf == old(buf)
    {
      out := out + [Closed];
    }

    /** The tunnel's error listener. */
    method OnTunnelError(message: string)
      requires Valid() && listening && exitCode == None
      modifies this
      ensures Valid() && out == old(out) + [Error(message)] && exitCode == None && buf == old(buf)
    {
      out := out + [Error(message)];
    }
  }
}
