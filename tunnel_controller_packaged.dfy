/**
 * The tunnel controller as shipped in the Windows package
 * (dist/_CPack_Packages/win64/ZIP/RunicVTT-0.1.0-win64/external/lt-controller.cjs),
 * an earlier variant of external/lt-controller.js: it announces itself,
 * loads the bundled localtunnel library, reads only --port and --subdomain,
 * opens the tunnel through the callback form of the library, and then reads
 * stdin for a "stop" line like the later controller.
 *
 * The library is outside this model: whether its files are there, what
 * loading them gives, what the call returns or throws and how the callback
 * is invoked are parameters and methods the environment calls. An event is
 * written as its JSON object's fields; process.exit is the `exitCode` it
 * records, after which nothing else runs (every handler requires it unset).
 */
module TunnelControllerPackaged {
  import opened Wrappers
  import opened CTypes
  import opened TunnelController

  const PackageJsonMissing: string := "package.json not found: "
  const MissingPort: string := "Missing --port"
  const NoInstance: string := "LocalTunnel did not return a tunnel instance"

  /** A tunnel instance; only its public url is looked at. */
  datatype Tunnel = Tunnel(url: string)

  /** Loading the library and its package.json: the version it reports (absent when it has none), or the message of what was thrown. */
  datatype Loading = Loaded(version: Option<string>) | LoadFailed(message: string)

  /** How the call lt(port, { subdomain }, onReady) ends: what it returned (None for a falsy value), or what it threw. */
  datatype Call = Returned(maybe: Option<Tunnel>) | CallThrew(message: string)

  // ---------------------------------------------------------------------------
  // Boot

  /**
   * The first two lines of output: the boot event, then require_ok with the
   * library's version, or require_err and exit code 1 when its package.json
   * is not where the package puts it or loading throws.
   */
  function Booted(argv: seq<string>, found: bool, path: string, loading: Loading): (r: (seq<Event>, Option<int>))
    ensures |r.0| == 2 && r.0[0] == Boot(argv)
    ensures r.1.None? <==> found && loading.Loaded?
    ensures r.1.Some? ==> r.1 == Some(1) && r.0[1].RequireErr?
    ensures !found ==> r.0[1] == RequireErr(PackageJsonMissing + path)
    ensures found && loading.LoadFailed? ==> r.0[1] == RequireErr(loading.message)
    ensures found && loading.Loaded? ==> r.0[1] == RequireOk(loading.version)
  {
    if !found then ([Boot(argv), RequireErr(PackageJsonMissing + path)], Some(1))
    else
      match loading
      case LoadFailed(message) => ([Boot(argv), RequireErr(message)], Some(1))
      case Loaded(version) => ([Boot(argv), RequireOk(version)], None)
  }

  // ---------------------------------------------------------------------------
  // The argument loop

  /** process.argv.slice(2). */
  function UserArgs(argv: seq<string>): (r: seq<string>)
    ensures |argv| >= 2 ==> argv == argv[..2] + r
    ensures |argv| < 2 ==> r == []
  {
    if |argv| >= 2 then argv[2..] else []
  }

  /** args[i] where an index past the end gives undefined, which parseInt reads as the string "undefined". */
  function TokenOrUndefined(args: seq<string>, i: nat): (r: string)
    ensures i < |args| ==> r == args[i]
  {
    if i < |args| then args[i] else "undefined"
  }

  /**
   * The loop over the arguments from index `i` on, with the port and
   * subdomain found so far: "--port" sets the port to parseInt of the next
   * token and "--subdomain" the subdomain to the next token, each skipping
   * that token; anything else is passed over. A port of None is null or
   * NaN; a subdomain of None is null or undefined.
   */
  function ArgsFrom(args: seq<string>, i: nat, port: Option<int>, sub: Option<string>): (r: (Option<int>, Option<string>))
    requires i <= |args| + 1
    ensures r.1.Some? ==> r.1 == sub || r.1.value in args
    decreases |args| + 1 - i
  {
    if i >= |args| then (port, sub)
    else if args[i] == "--port" then ArgsFrom(args, i + 2, ParseIntJs(TokenOrUndefined(args, i + 1)), sub)
    else if args[i] == "--subdomain" then
      ArgsFrom(args, i + 2, port, if i + 1 < |args| then Some(args[i + 1]) else None)
    else ArgsFrom(args, i + 1, port, sub)
  }

  /** The port and subdomain the whole loop leaves. */
  function ParsedOptions(args: seq<string>): (r: (Option<int>, Option<string>))
  {
    ArgsFrom(args, 0, None, None)
  }

  /** The check `if (!port)`: null, NaN and 0 (also -0) are falsy; any other number, negative or above 65535 included, passes. */
  predicate PortAccepted(port: Option<int>)
  {
    port.Some? && port.value != 0
  }

  /** The argument loop, with its `++i` that takes the option's value. */
  method ParseOptions(args: seq<string>) returns (port: Option<int>, subdomain: Option<string>)
    ensures port == ParsedOptions(args).0 && subdomain == ParsedOptions(args).1
  {
    port := None;
    subdomain := None;
    var i := 0;
    while i < |args|
      invariant i <= |args| + 1
      invariant ArgsFrom(args, i, port, subdomain) == ParsedOptions(args)
      decreases |args| + 1 - i
    {
      if args[i] == "--port" {
        i := i + 1;
        port := ParseIntJs(TokenOrUndefined(args, i));
      } else if args[i] == "--subdomain" {
        i := i + 1;
        subdomain := if i < |args| then Some(args[i]) else None;
      }
      i := i + 1;
    }
  }

  /** A token that is neither option, in front of the others, changes nothing: the loop passes over it. */
  lemma {:induction false} ArgsShift(a: string, rest: seq<string>, i: nat, port: Option<int>, sub: Option<string>)
    requires i <= |rest| + 1
    ensures ArgsFrom([a] + rest, i + 1, port, sub) == ArgsFrom(rest, i, port, sub)
    decreases |rest| + 1 - i
  {
    var all := [a] + rest;
    if i < |rest| {
      assert all[i + 1] == rest[i];
      assert TokenOrUndefined(all, i + 2) == TokenOrUndefined(rest, i + 1);
      if rest[i] == "--port" || rest[i] == "--subdomain" {
        ArgsShift(a, rest, i + 2, ParseIntJs(TokenOrUndefined(rest, i + 1)), sub);
        if i + 1 < |rest| {
          assert all[i + 2] == rest[i + 1];
          ArgsShift(a, rest, i + 2, port, Some(rest[i + 1]));
        } else {
          ArgsShift(a, rest, i + 2, port, None);
        }
      } else {
        ArgsShift(a, rest, i + 1, port, sub);
      }
    }
  }

  /** "--host" is not an option of this controller: "--host h" is passed over, token by token. */
  lemma {:induction false} HostIgnored(h: string, rest: seq<string>)
    requires h != "--port" && h != "--subdomain"
    ensures ParsedOptions(["--host", h] + rest) == ParsedOptions(rest)
  {
    var all := ["--host", h] + rest;
    assert all == ["--host"] + ([h] + rest);
    assert all[0] == "--host";
    ArgsShift("--host", [h] + rest, 0, None, None);
    assert ([h] + rest)[0] == h;
    ArgsShift(h, rest, 0, None, None);
  }

  /** "--port v" in front: the port becomes parseInt(v) and the loop goes on with the rest. */
  lemma {:induction false} PortOptionAhead(v: string, rest: seq<string>, port: Option<int>, sub: Option<string>)
    ensures ArgsFrom(["--port", v] + rest, 0, port, sub) == ArgsFrom(rest, 0, ParseIntJs(v), sub)
  {
    var all := ["--port", v] + rest;
    assert all[0] == "--port" && all[1] == v;
    assert all == ["--port"] + ([v] + rest);
    ArgsShift("--port", [v] + rest, 1, ParseIntJs(v), sub);
    ArgsShift(v, rest, 0, ParseIntJs(v), sub);
  }

  /** "--port N" gives the port N, which is accepted exactly when N is not 0. */
  lemma {:induction false} PortGiven(p: nat)
    ensures ParsedOptions(["--port", DecimalString(p)]) == (Some(p as int), None)
    ensures PortAccepted(ParsedOptions(["--port", DecimalString(p)]).0) <==> p != 0
  {
    var d := DecimalString(p);
    PortOptionAhead(d, [], None, None);
    assert ["--port", d] + [] == ["--port", d];
    ParseIntOfDecimal(p, []);
    assert d + [] == d;
  }

  /** "--port N" as the later controller reads it: the option's value is the text of N. */
  lemma {:induction false} LaterPortArgs(p: nat)
    ensures ParsedArgs(["--port", DecimalString(p)]) == map["port" := DecimalString(p)]
  {
    var d := DecimalString(p);
    var argv := ["--port", d];
    assert IsDigit(d[0]) && !StartsWith(d, "--");
    assert "--port"[0..2] == "--" && '=' !in argv[0];
    var o := TunnelController.Option(argv, 0);
    assert o == ("port", d, 2);
    assert ParseFrom(argv, 2, map["port" := d]) == map["port" := d];
    assert map[]["port" := d] == map["port" := d];
  }

  /** There is no upper bound: a port above 65535 is accepted here and refused by the later controller. */
  lemma {:induction false} PortWithoutUpperBound(p: nat)
    requires p > 65535
    ensures PortAccepted(ParsedOptions(["--port", DecimalString(p)]).0)
    ensures CheckedPort(ParsedArgs(["--port", DecimalString(p)])).Err?
  {
    PortGiven(p);
    LaterPortArgs(p);
    ParseIntOfDecimal(p, []);
    assert DecimalString(p) + [] == DecimalString(p);
  }

  /** No port, "--port" as the last token, and "--port" followed by another option: the port is missing (NaN for the last two). */
  lemma {:induction false} PortMissing()
    ensures !PortAccepted(ParsedOptions([]).0)
    ensures !PortAccepted(ParsedOptions(["--port"]).0)
    ensures ParsedOptions(["--port", "--subdomain", "x"]) == (None, None)
  {
    assert ParseIntJs("undefined") == None by {
      ParseIntOfDecimal(0, []);
    }
    var s := "--subdomain";
    assert LeadingSpaces(s) == 0 && s[0..] == s;
    var u := s[1..];
    assert u[0] == '-' && !IsDigit(u[0]) && DigitRun(u) == 0;
    assert ParseIntJs(s) == None;
    PortOptionAhead(s, ["x"], None, None);
    assert ArgsFrom(["x"], 0, None, None) == ArgsFrom(["x"], 1, None, None);
  }

  // ---------------------------------------------------------------------------
  // The readiness callback

  /** What a first invocation of onReady comes to: the error to report, or the tunnel that is up. */
  datatype Answer = Failed(message: string) | Up(tunnel: Tunnel)

  /** onReady(err, t) with `maybe` the value lt returned: tunnel = t || maybe. */
  function Answered(err: Option<string>, t: Option<Tunnel>, maybe: Option<Tunnel>): (r: Answer)
    ensures r.Up? <==> err.None? && (t.Some? || maybe.Some?)
    ensures r.Up? && t.Some? ==> r.tunnel == t.value
    ensures r.Up? && t.None? ==> maybe == Some(r.tunnel)
    ensures r.Failed? ==> r.message == (if err.Some? then err.value else NoInstance)
  {
    if err.Some? then Failed(err.value)
    else if t.Some? then Up(t.value)
    else if maybe.Some? then Up(maybe.value)
    else Failed(NoInstance)
  }

  /** How many ready events `out` holds. */
  function ReadyCount(out: seq<Event>): (n: nat)
    ensures n <= |out|
  {
    if out == [] then 0
    else ReadyCount(out[..|out| - 1]) + (if out[|out| - 1].Ready? then 1 else 0)
  }

  lemma {:induction false} ReadyCountAppend(out: seq<Event>, e: Event)
    ensures ReadyCount(out + [e]) == ReadyCount(out) + (if e.Ready? then 1 else 0)
  {
    assert (out + [e])[..|out|] == out;
  }

  /** At most one ready event means no two positions both hold one. */
  lemma {:induction false} ReadyCountAtMostOne(out: seq<Event>)
    requires ReadyCount(out) <= 1
    ensures forall j, k :: 0 <= j < k < |out| && out[j].Ready? ==> !out[k].Ready?
    decreases |out|
  {
    if out != [] {
      var front := out[..|out| - 1];
      ReadyCountAtMostOne(front);
      if out[|out| - 1].Ready? {
        ReadyCountZero(front);
      }
      forall j, k | 0 <= j < k < |out| && out[j].Ready?
        ensures !out[k].Ready?
      {
        if k < |out| - 1 {
          assert out[j] == front[j] && out[k] == front[k];
        }
      }
    }
  }

  /** No ready event is counted only when there is none. */
  lemma {:induction false} ReadyCountZero(out: seq<Event>)
    requires ReadyCount(out) == 0
    ensures forall k :: 0 <= k < |out| ==> !out[k].Ready?
    decreases |out|
  {
    if out != [] {
      var front := out[..|out| - 1];
      ReadyCountZero(front);
      assert forall k :: 0 <= k < |out| - 1 ==> out[k] == front[k];
    }
  }

  class Controller {
    var argv: seq<string>
    var out: seq<Event>
    var exitCode: Option<int>
    /** lt has returned: its callback may now be invoked. */
    var launched: bool
    /** The value lt returned. */
    var maybe: Option<Tunnel>
    var tunnel: Option<Tunnel>
    /** The latch of onReady. */
    var started: bool
    /** The tunnel's close/error listeners and the stdin handlers are attached. */
    var listening: bool
    var closeCalls: nat
    var buf: string

    /**
     * Boot comes first and once, there is at most one ready event and none
     * before the callback has run, listeners exist only for a tunnel that
     * was announced, and the exit code is 0 or 1.
     */
    ghost predicate Valid()
      reads this
    {
      && out != [] && out[0].Boot?
      && (forall k :: 0 < k < |out| ==> !out[k].Boot?)
      && ReadyCount(out) <= 1
      && (!started ==> ReadyCount(out) == 0)
      && (started ==> launched)
      && (listening ==> started && tunnel.Some? && ReadyCount(out) == 1)
      && (exitCode.Some? ==> exitCode.value == 0 || exitCode.value == 1)
      && '\n' !in buf
    }

    constructor()
      ensures out == [] && exitCode == None && !launched && !started && !listening
      ensures maybe == None && tunnel == None && closeCalls == 0 && buf == []
    {
      argv := [];
      out := [];
      exitCode := None;
      launched := false;
      maybe := None;
      tunnel := None;
      started := false;
      listening := false;
      closeCalls := 0;
      buf := [];
    }

    /** The boot event and the loading of the library. */
    method Start(argv: seq<string>, found: bool, path: string, loading: Loading)
      requires out == [] && exitCode == None && !launched && !started && !listening
      requires tunnel == None && buf == []
      modifies this
      ensures this.argv == argv
      ensures out == Booted(argv, found, path, loading).0 && exitCode == Booted(argv, found, path, loading).1
      ensures Valid() && !launched && !started && !listening && tunnel == None
      ensures closeCalls == old(closeCalls) && buf == []
    {
      this.argv := argv;
      out := [Boot(argv)];
      if !found {
        out := out + [RequireErr(PackageJsonMissing + path)];
        exitCode := Some(1);
        return;
      }
      match loading
      case LoadFailed(message) =>
        out := out + [RequireErr(message)];
        exitCode := Some(1);
      case Loaded(version) =>
        out := out + [RequireOk(version)];
      assert out[..1] == [Boot(argv)];
    }

    /** log({ event: 'error', message }) followed by process.exit(1). */
    method Fail(message: string)
      requires Valid() && exitCode == None
      modifies this`out, this`exitCode
      ensures Valid() && out == old(out) + [Error(message)] && exitCode == Some(1)
      ensures argv == old(argv) && launched == old(launched) && maybe == old(maybe) && tunnel == old(tunnel)
      ensures started == old(started) && listening == old(listening) && closeCalls == old(closeCalls) && buf == old(buf)
    {
      ReadyCountAppend(out, Error(message));
      out := out + [Error(message)];
      exitCode := Some(1);
    }

    /**
     * The argument loop, the port check and the call to lt; `port` and
     * `subdomain` are what is handed to it. The callback is taken to run
     * after lt has returned, so `tunnel` is still null when the returned
     * value is kept.
     */
    method Open(call: Call) returns (port: Option<int>, subdomain: Option<string>)
      requires Valid() && exitCode == None && !launched && tunnel == None
      modifies this
      ensures port == ParsedOptions(UserArgs(argv)).0 && subdomain == ParsedOptions(UserArgs(argv)).1
      ensures Valid() && argv == old(argv) && !started && !listening && buf == old(buf) && closeCalls == old(closeCalls)
      ensures !PortAccepted(port) ==> out == old(out) + [Error(MissingPort)] && exitCode == Some(1) && !launched
      ensures PortAccepted(port) && call.CallThrew? ==> out == old(out) + [Error(call.message)] && exitCode == Some(1)
      ensures PortAccepted(port) && call.Returned? ==>
        out == old(out) && exitCode == None && launched && maybe == call.maybe && tunnel == call.maybe
    {
      port, subdomain := ParseOptions(UserArgs(argv));
      if !(port.Some? && port.value != 0) {
        Fail(MissingPort);
        return;
      }
      match call
      case CallThrew(message) =>
        Fail(message);
      case Returned(m) =>
        maybe := m;
        launched := true;
        if tunnel.None? && maybe.Some? {
          tunnel := maybe;
        }
    }

    /**
     * onReady(err, t): ignored once it has run; otherwise it reports the
     * error, or the missing instance, and exits 1, or announces the tunnel
     * and attaches the listeners.
     */
    method OnReady(err: Option<string>, t: Option<Tunnel>)
      requires Valid() && exitCode == None && launched
      modifies this
      ensures Valid() && argv == old(argv) && maybe == old(maybe) && started
      ensures buf == old(buf) && closeCalls == old(closeCalls)
      ensures old(started) ==> out == old(out) && exitCode == None && listening == old(listening) && tunnel == old(tunnel)
      ensures !old(started) ==> match Answered(err, t, old(maybe))
        case Failed(message) => out == old(out) + [Error(message)] && exitCode == Some(1) && !listening
        case Up(up) => out == old(out) + [Ready(up.url)] && exitCode == None && listening && tunnel == Some(up)
    {
      if started {
        return;
      }
      started := true;
      if err.Some? {
        Fail(err.value);
        return;
      }
      tunnel := if t.Some? then t else maybe;
      if tunnel.None? {
        Fail(NoInstance);
        return;
      }
      ReadyCountAppend(out, Ready(tunnel.value.url));
      out := out + [Ready(tunnel.value.url)];
      listening := true;
    }

    /** The stdin data handler: a "stop" line closes the tunnel and exits 0; otherwise the unterminated tail is kept. */
    method OnData(chunk: string)
      requires Valid() && listening && exitCode == None
      modifies this
      ensures Valid() && out == old(out) && listening && tunnel == old(tunnel)
      ensures Scan(old(buf) + chunk) == Stop ==> exitCode == Some(0) && closeCalls == old(closeCalls) + 1
      ensures Scan(old(buf) + chunk) != Stop ==>
        Scan(old(buf) + chunk) == Pending(buf) && exitCode == None && closeCalls == old(closeCalls)
    {
      var stop, rest := ScanInput(buf, chunk);
      buf := rest;
      if stop {
        buf := [];
        closeCalls := closeCalls + 1;
        exitCode := Some(0);
      }
    }

    /** The stdin end handler: closes the tunnel and exits 0. */
    method OnEnd()
      requires Valid() && listening && exitCode == None
      modifies this
      ensures Valid() && out == old(out) && buf == old(buf)
      ensures exitCode == Some(0) && closeCalls == old(closeCalls) + 1
    {
      closeCalls := closeCalls + 1;
      exitCode := Some(0);
    }

    /** The tunnel's close listener. */
    method OnTunnelClose()
      requires Valid() && listening && exitCode == None
      modifies this
      ensures Valid() && out == old(out) + [Closed] && exitCode == None && buf == old(buf)
    {
      ReadyCountAppend(out, Closed);
      out := out + [Closed];
    }

    /** The tunnel's error listener. */
    method OnTunnelError(message: string)
      requires Valid() && listening && exitCode == None
      modifies this
      ensures Valid() && out == old(out) + [Error(message)] && exitCode == None && buf == old(buf)
    {
      ReadyCountAppend(out, Error(message));
      out := out + [Error(message)];
    }
  }
}
