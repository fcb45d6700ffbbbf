/**
 * The in-memory logger (include/debug/Logger.h): named channels of bounded
 * length, level auto-detection for Info lines, sinks that receive every
 * committed entry, and the stream buffer that turns captured std::cout and
 * std::cerr output into one log line per '\n'.
 *
 * The logger is modelled sequentially (its mutex is left out); the clock is
 * a parameter (`nowMs`), and a sink is represented by its id, a call of
 * sink `id` being recorded as a Delivery.
 */
module Logger {
  import opened CTypes
  import opened Wrappers

  datatype Level = Trace | Debug | Info | Warn | Error | Success

  datatype LogEntry = LogEntry(text: string, level: Level, tsMs: u64)

  /** One sink call made by commit_: sink `sinkId` received `entry` for `channel`. */
  datatype Delivery = Delivery(sinkId: int, channel: string, entry: LogEntry)

  const DefaultCapacity: nat := 4000

  // ---------------------------------------------------------------------------
  // autoDetect_
  // ---------------------------------------------------------------------------

  /** `needle` occurs in `s` at position `i`, comparing characters after tolower. */
  predicate MatchesAt(s: string, needle: string, i: nat)
  {
    i + |needle| <= |s| && forall k :: 0 <= k < |needle| ==> ToLower(s[i + k]) == ToLower(needle[k])
  }

  /** The case-insensitive std::search of autoDetect_'s `has`: some position of s[from..] matches. */
  function SearchFrom(s: string, needle: string, from: nat): (r: bool)
    requires needle != []
    ensures r <==> exists i :: from <= i && MatchesAt(s, needle, i)
    decreases |s| - from
  {
    if from + |needle| > |s| then
      assert forall i :: from <= i ==> !MatchesAt(s, needle, i);
      false
    else if MatchesAt(s, needle, from) then true
    else SearchFrom(s, needle, from + 1)
  }

  predicate Has(s: string, needle: string)
    requires needle != []
  {
    SearchFrom(s, needle, 0)
  }

  predicate HasErrorMarker(s: string)
  {
    Has(s, "[error]") || Has(s, " error") || Has(s, "failed") || Has(s, "exception")
  }

  predicate HasWarnMarker(s: string)
  {
    Has(s, "[warn]") || Has(s, " warning")
  }

  /**
   * autoDetect_: error markers win over warn markers, which win over "[debug]",
   * which wins over "[trace]"; a line with none of them stays Info.
   */
  function AutoDetect(s: string): (r: Level)
    ensures r in {Error, Warn, Debug, Trace, Info}
    ensures r == Error <==> HasErrorMarker(s)
    ensures r == Warn <==> !HasErrorMarker(s) && HasWarnMarker(s)
    ensures r == Debug <==> !HasErrorMarker(s) && !HasWarnMarker(s) && Has(s, "[debug]")
    ensures r == Trace <==> !HasErrorMarker(s) && !HasWarnMarker(s) && !Has(s, "[debug]") && Has(s, "[trace]")
  {
    if HasErrorMarker(s) then Error
    else if HasWarnMarker(s) then Warn
    else if Has(s, "[debug]") then Debug
    else if Has(s, "[trace]") then Trace
    else Info
  }

  lemma {:induction false} HasIgnoresCase(s: string, needle: string)
    requires needle != []
    ensures Has(LowerString(s), needle) == Has(s, needle)
  {
    var t := LowerString(s);
    if Has(s, needle) {
      var i :| 0 <= i && MatchesAt(s, needle, i);
      assert MatchesAt(t, needle, i);
    }
    if Has(t, needle) {
      var i :| 0 <= i && MatchesAt(t, needle, i);
      assert MatchesAt(s, needle, i);
    }
  }

  /** Auto-detection does not depend on letter case. */
  lemma {:induction false} AutoDetectIgnoresCase(s: string)
    ensures AutoDetect(LowerString(s)) == AutoDetect(s)
  {
    HasIgnoresCase(s, "[error]");
    HasIgnoresCase(s, " error");
    HasIgnoresCase(s, "failed");
    HasIgnoresCase(s, "exception");
    HasIgnoresCase(s, "[warn]");
    HasIgnoresCase(s, " warning");
    HasIgnoresCase(s, "[debug]");
    HasIgnoresCase(s, "[trace]");
  }

  /** The level log stores: an explicit non-Info level is kept, Info is auto-detected. */
  function LevelFor(requested: Level, line: string): (r: Level)
    ensures requested != Info ==> r == requested
    ensures requested == Info ==> r == AutoDetect(line)
  {
    if requested == Info then AutoDetect(line) else requested
  }

  // ---------------------------------------------------------------------------
  // commit_: the bounded channel
  // ---------------------------------------------------------------------------

  /** The channel after the trim loop: its newest `capacity` entries, oldest dropped first. */
  function Trimmed(q: seq<LogEntry>, capacity: nat): (r: seq<LogEntry>)
    ensures |r| <= capacity && |r| <= |q|
  {
    if |q| > capacity then q[|q| - capacity..] else q
  }

  /** The trim keeps the newest entries in order: a suffix of the channel, all of it when it fits. */
  lemma {:induction false} TrimmedKeepsNewest(q: seq<LogEntry>, capacity: nat)
    ensures Trimmed(q, capacity) == q[|q| - |Trimmed(q, capacity)|..]
    ensures |q| <= capacity ==> Trimmed(q, capacity) == q
    ensures |q| > capacity ==> |Trimmed(q, capacity)| == capacity
  {
  }

  /**
   * The entry commit_ fans out as written: q.back() after the trim, which is
   * only defined when the trimmed channel is not empty (None stands for
   * reading the back of an empty deque).
   */
  function CommittedBackAsWritten(q: seq<LogEntry>, e: LogEntry, capacity: nat): (r: Option<LogEntry>)
    ensures capacity >= 1 ==> r == Some(e)
    ensures capacity == 0 ==> r.None?
  {
    var t := Trimmed(q + [e], capacity);
    if t == [] then None else Some(t[|t| - 1])
  }

  /** With capacity 0 (which setChannelCapacity accepts) commit_ reads the back of an empty deque. */
  lemma {:induction false} CommitWithZeroCapacity(q: seq<LogEntry>, e: LogEntry)
    ensures CommittedBackAsWritten(q, e, 0) == None
  {
  }

  /** removeSink's remove_if: the sink ids other than `id`, in their order. */
  function Without(ids: seq<int>, id: int): (r: seq<int>)
    ensures |r| <= |ids|
    ensures forall x :: x in r <==> x in ids && x != id
  {
    if ids == [] then []
    else if ids[0] == id then Without(ids[1..], id)
    else [ids[0]] + Without(ids[1..], id)
  }

  predicate Increasing(ids: seq<int>)
  {
    forall j, k :: 0 <= j < k < |ids| ==> ids[j] < ids[k]
  }

  lemma {:induction false} WithoutKeepsOrder(ids: seq<int>, id: int)
    requires Increasing(ids)
    ensures Increasing(Without(ids, id))
  {
    if ids != [] {
      WithoutKeepsOrder(ids[1..], id);
      if ids[0] != id {
        var rest := Without(ids[1..], id);
        forall k | 0 <= k < |rest|
          ensures ids[0] < rest[k]
        {
          assert rest[k] in ids[1..];
        }
      }
    }
  }

  /** The entries of a channel, none for a channel that does not exist. */
  function Entries(channels: map<string, seq<LogEntry>>, channel: string): seq<LogEntry>
  {
    if channel in channels then channels[channel] else []
  }

  /** commit_'s trim loop: pop the front while the channel is longer than the capacity. */
  method TrimFront(q0: seq<LogEntry>, capacity: nat) returns (q: seq<LogEntry>)
    ensures q == Trimmed(q0, capacity)
  {
    TrimmedKeepsNewest(q0, capacity);
    q := q0;
    while |q| > capacity
      invariant |q| <= |q0| && q == q0[|q0| - |q|..]
      invariant |q0| <= capacity ==> q == q0
      invariant |q0| > capacity ==> |q| >= capacity
    {
      q := q[1..];
    }
  }

  /** commit_'s fan-out loop: every sink, in registration order, receives the entry. */
  method FanOut(sinks: seq<int>, channel: string, e: LogEntry) returns (delivered: seq<Delivery>)
    ensures |delivered| == |sinks| && forall k :: 0 <= k < |sinks| ==> delivered[k] == Delivery(sinks[k], channel, e)
  {
    delivered := [];
    for k := 0 to |sinks|
      invariant |delivered| == k
      invariant forall j :: 0 <= j < k ==> delivered[j] == Delivery(sinks[j], channel, e)
    {
      delivered := delivered + [Delivery(sinks[k], channel, e)];
    }
  }

  class Logger {
    var capacity: nat
    var channels: map<string, seq<LogEntry>>
    var nextSinkId: int
    var sinks: seq<int>
    var seeded: bool
    var coutRedirected: bool
    var cerrRedirected: bool

    /** Sink ids are issued in increasing order and never above the last one issued. */
    predicate Valid()
      reads this
    {
      Increasing(sinks) && forall k :: 0 <= k < |sinks| ==> sinks[k] <= nextSinkId
    }

    constructor ()
      ensures Valid()
      ensures capacity == DefaultCapacity && channels == map[] && nextSinkId == 0 && sinks == [] && !seeded
    {
      capacity := DefaultCapacity;
      channels := map[];
      nextSinkId := 0;
      sinks := [];
      seeded := false;
      coutRedirected := false;
      cerrRedirected := false;
    }

    /** getChannel: the entries of a channel oldest first, empty for an unknown channel. */
    function GetChannel(channel: string): (r: seq<LogEntry>)
      reads this
      ensures channel !in channels ==> r == []
      ensures channel in channels ==> r == channels[channel]
    {
      if channel in channels then channels[channel] else []
    }

    /** channels(): every channel name exactly once, in no particular order. */
    method Channels() returns (names: seq<string>)
      ensures forall c :: c in names <==> c in channels
      ensures forall j, k :: 0 <= j < k < |names| ==> names[j] != names[k]
    {
      names := [];
      var todo := channels.Keys;
      while todo != {}
        invariant todo <= channels.Keys
        invariant forall c :: c in names <==> c in channels && c !in todo
        invariant forall j, k :: 0 <= j < k < |names| ==> names[j] != names[k]
        decreases |todo|
      {
        var c :| c in todo;
        names := names + [c];
        todo := todo - {c};
      }
    }

    /**
     * commit_: append to the channel (creating it), trim the oldest entries
     * down to the capacity, then call every sink in registration order with
     * the back of the channel.  With a capacity of at least 1 that is the
     * committed entry; with capacity 0 the channel is left empty and reading
     * its back is undefined, which the model shows as no sink being called.
     */
    method Commit(channel: string, e: LogEntry) returns (delivered: seq<Delivery>)
      modifies this
      ensures channels == old(channels)[channel := Trimmed(Entries(old(channels), channel) + [e], capacity)]
      ensures capacity == old(capacity) && sinks == old(sinks) && nextSinkId == old(nextSinkId)
      ensures seeded == old(seeded)
      ensures capacity >= 1 ==> |delivered| == |sinks| && forall k :: 0 <= k < |sinks| ==> delivered[k] == Delivery(sinks[k], channel, e)
      ensures capacity == 0 ==> delivered == []
      ensures coutRedirected == old(coutRedirected) && cerrRedirected == old(cerrRedirected)
    {
      var q := TrimFront(Entries(channels, channel) + [e], capacity);
      assert q == Trimmed(Entries(old(channels), channel) + [e], capacity);
      channels := channels[channel := q];
      assert channels == old(channels)[channel := q];
      assert CommittedBackAsWritten(Entries(old(channels), channel), e, capacity)
          == if q == [] then None else Some(q[|q| - 1]);
      if q == [] {
        delivered := [];
      } else {
        delivered := FanOut(sinks, channel, q[|q| - 1]);
      }
    }

    /** log: stores the line with the requested level, or the detected one for Info. */
    method Log(channel: string, level: Level, line: string, nowMs: u64) returns (delivered: seq<Delivery>)
      modifies this
      ensures channels == old(channels)[channel := Trimmed(Entries(old(channels), channel) + [LogEntry(line, LevelFor(level, line), nowMs)], capacity)]
      ensures capacity == old(capacity) && sinks == old(sinks) && nextSinkId == old(nextSinkId) && seeded == old(seeded)
      ensures capacity >= 1 ==> |delivered| == |sinks|
      ensures capacity >= 1 ==> forall k :: 0 <= k < |sinks| ==> delivered[k] == Delivery(sinks[k], channel, LogEntry(line, LevelFor(level, line), nowMs))
      ensures capacity == 0 ==> delivered == []
      ensures coutRedirected == old(coutRedirected) && cerrRedirected == old(cerrRedirected)
    {
      var e := LogEntry(line, level, nowMs);
      if level == Info {
        e := e.(level := AutoDetect(line));
      }
      delivered := Commit(channel, e);
    }

    /** The two-argument log: level Info, so always auto-detected. */
    method LogInfo(channel: string, line: string, nowMs: u64) returns (delivered: seq<Delivery>)
      modifies this
      ensures channels == old(channels)[channel := Trimmed(Entries(old(channels), channel) + [LogEntry(line, AutoDetect(line), nowMs)], capacity)]
      ensures capacity == old(capacity) && sinks == old(sinks) && nextSinkId == old(nextSinkId) && seeded == old(seeded)
      ensures coutRedirected == old(coutRedirected) && cerrRedirected == old(cerrRedirected)
    {
      delivered := Log(channel, Info, line, nowMs);
    }

    /** clearChannel: the named channel becomes empty (and exists); the others are untouched. */
    method ClearChannel(channel: string)
      modifies this
      ensures channels == old(channels)[channel := []]
      ensures capacity == old(capacity) && sinks == old(sinks) && nextSinkId == old(nextSinkId) && seeded == old(seeded)
      ensures coutRedirected == old(coutRedirected) && cerrRedirected == old(cerrRedirected)
    {
      channels := channels[channel := []];
    }

    method SetChannelCapacity(cap: nat)
      modifies this
      ensures capacity == cap && channels == old(channels) && sinks == old(sinks) && nextSinkId == old(nextSinkId)
      ensures seeded == old(seeded)
      ensures coutRedirected == old(coutRedirected) && cerrRedirected == old(cerrRedirected)
    {
      capacity := cap;
    }

    /** addSink: the new id is one more than the last issued, so above every registered id. */
    method AddSink() returns (id: int)
      requires Valid()
      modifies this
      ensures Valid()
      ensures id == old(nextSinkId) + 1 && nextSinkId == id && sinks == old(sinks) + [id]
      ensures forall k :: 0 <= k < |old(sinks)| ==> old(sinks)[k] < id
      ensures channels == old(channels) && capacity == old(capacity) && seeded == old(seeded)
      ensures coutRedirected == old(coutRedirected) && cerrRedirected == old(cerrRedirected)
    {
      nextSinkId := nextSinkId + 1;
      id := nextSinkId;
      sinks := sinks + [id];
    }

    /** removeSink: drops every sink with that id and keeps the others in order. */
    method RemoveSink(id: int)
      requires Valid()
      modifies this
      ensures Valid()
      ensures sinks == Without(old(sinks), id)
      ensures channels == old(channels) && capacity == old(capacity) && nextSinkId == old(nextSinkId)
      ensures seeded == old(seeded)
      ensures coutRedirected == old(coutRedirected) && cerrRedirected == old(cerrRedirected)
    {
      WithoutKeepsOrder(sinks, id);
      ghost var before := sinks;
      sinks := Without(sinks, id);
      forall k | 0 <= k < |sinks|
        ensures sinks[k] <= nextSinkId
      {
        assert sinks[k] in before;
      }
    }

    method ClearSinks()
      requires Valid()
      modifies this
      ensures Valid() && sinks == []
      ensures channels == old(channels) && capacity == old(capacity) && nextSinkId == old(nextSinkId)
      ensures seeded == old(seeded)
      ensures coutRedirected == old(coutRedirected) && cerrRedirected == old(cerrRedirected)
    {
      sinks := [];
    }

    /**
     * ensureSeed_: on the first call, "main" and "localtunnel" come into
     * existence (operator[] keeps an existing channel as it is); later calls
     * change nothing.
     */
    method EnsureSeed()
      modifies this
      ensures seeded
      ensures old(seeded) ==> channels == old(channels)
      ensures !old(seeded) ==> channels == SeedChannels(old(channels))
      ensures capacity == old(capacity) && sinks == old(sinks) && nextSinkId == old(nextSinkId)
      ensures coutRedirected == old(coutRedirected) && cerrRedirected == old(cerrRedirected)
    {
      if !seeded {
        if "main" !in channels {
          channels := channels["main" := []];
        }
        if "localtunnel" !in channels {
          channels := channels["localtunnel" := []];
        }
        seeded := true;
        assert channels == SeedChannels(old(channels));
      }
    }

    /**
     * installStdCapture: redirect whichever of std::cout and std::cerr is not
     * redirected yet (into LineBuffers for CaptureChannel), then seed the channels.
     */
    method InstallStdCapture()
      modifies this
      ensures coutRedirected && cerrRedirected && seeded
      ensures old(seeded) ==> channels == old(channels)
      ensures !old(seeded) ==> channels == SeedChannels(old(channels))
      ensures capacity == old(capacity) && sinks == old(sinks) && nextSinkId == old(nextSinkId)
    {
      if !coutRedirected {
        coutRedirected := true;
      }
      if !cerrRedirected {
        cerrRedirected := true;
      }
      EnsureSeed();
    }

    /** uninstallStdCapture: both redirections are undone; nothing else changes. */
    method UninstallStdCapture()
      modifies this
      ensures !coutRedirected && !cerrRedirected
      ensures channels == old(channels) && seeded == old(seeded) && sinks == old(sinks)
      ensures capacity == old(capacity) && nextSinkId == old(nextSinkId)
    {
      cerrRedirected := false;
      coutRedirected := false;
    }
  }

  /** std::cout is captured into "main" with every line forced to Debug, std::cerr with every line forced to Error. */
  const CaptureChannel: string := "main"
  const CoutLevel: Level := Debug
  const CerrLevel: Level := Error

  /** The channel table after seeding: the two built-in channels exist, every other channel is unchanged. */
  function SeedChannels(channels: map<string, seq<LogEntry>>): (r: map<string, seq<LogEntry>>)
    ensures "main" in r && "localtunnel" in r
    ensures r.Keys == channels.Keys + {"main", "localtunnel"}
    ensures forall c :: c in channels ==> r[c] == channels[c]
  {
    var withMain := if "main" in channels then channels else channels["main" := []];
    if "localtunnel" in withMain then withMain else withMain["localtunnel" := []]
  }

  // ---------------------------------------------------------------------------
  // LineToLoggerBuf: splitting captured output into lines
  // ---------------------------------------------------------------------------

  /** The lines in `t` ended by '\n' (newline removed), and the unterminated rest. */
  function SplitLines(t: string): (r: (seq<string>, string))
    ensures '\n' !in r.1
    ensures forall k :: 0 <= k < |r.0| ==> '\n' !in r.0[k]
    ensures JoinLines(r.0) + r.1 == t
    decreases |t|
  {
    if t == [] then ([], [])
    else
      var prev := SplitLines(t[..|t| - 1]);
      var c := t[|t| - 1];
      assert t == t[..|t| - 1] + [c];
      if c == '\n' then
        JoinLinesAppend(prev.0, prev.1);
        (prev.0 + [prev.1], [])
      else (prev.0, prev.1 + [c])
  }

  /** Each line followed by '\n', in order. */
  function JoinLines(lines: seq<string>): string
  {
    if lines == [] then [] else JoinLines(lines[..|lines| - 1]) + lines[|lines| - 1] + "\n"
  }

  lemma {:induction false} JoinLinesAppend(lines: seq<string>, line: string)
    ensures JoinLines(lines + [line]) == JoinLines(lines) + line + "\n"
  {
    assert (lines + [line])[..|lines|] == lines;
  }

  /** Appending one character: a '\n' completes the pending line, anything else extends it. */
  lemma {:induction false} SplitLinesSnoc(t: string, c: char)
    ensures SplitLines(t + [c]).0 == if c == '\n' then SplitLines(t).0 + [SplitLines(t).1] else SplitLines(t).0
    ensures SplitLines(t + [c]).1 == if c == '\n' then [] else SplitLines(t).1 + [c]
  {
    assert (t + [c])[..|t + [c]| - 1] == t;
  }

  /** One more character: xsputn's push_back, and the flush when it is '\n'. */
  lemma {:induction false} WriteStep(t: string, c: char, emitted: seq<string>, buf: string, emitted': seq<string>, buf': string)
    requires emitted == SplitLines(t).0 && buf == SplitLines(t).1
    requires c == '\n' ==> emitted' == emitted + [(buf + [c])[..|buf|]] && buf' == []
    requires c != '\n' ==> emitted' == emitted && buf' == buf + [c]
    ensures emitted' == SplitLines(t + [c]).0 && buf' == SplitLines(t + [c]).1
  {
    SplitLinesSnoc(t, c);
    assert (buf + [c])[..|buf|] == buf;
  }

  lemma {:induction false} PrefixSnoc(start: string, s: string, i: nat)
    requires i < |s|
    ensures start + s[..i + 1] == (start + s[..i]) + [s[i]]
  {
    assert s[..i + 1] == s[..i] + [s[i]];
  }

  /** Text without a newline is all unterminated rest. */
  lemma {:induction false} SplitLinesNoNewline(t: string)
    requires '\n' !in t
    ensures SplitLines(t) == ([], t)
  {
    if t != [] {
      assert '\n' !in t[..|t| - 1];
      SplitLinesNoNewline(t[..|t| - 1]);
      assert t == t[..|t| - 1] + [t[|t| - 1]];
    }
  }

  /**
   * A LineToLoggerBuf: the channel and optional forced level it logs with,
   * and the characters of the current, unterminated line.  Each method
   * returns the lines it hands to log, in order.
   */
  class LineBuffer {
    const channel: string
    const forced: Option<Level>
    var buf: string

    predicate Valid()
      reads this
    {
      '\n' !in buf
    }

    constructor (channel: string, forced: Option<Level>)
      ensures Valid() && this.channel == channel && this.forced == forced && buf == []
    {
      this.channel := channel;
      this.forced := forced;
      buf := [];
    }

    /** The level each emitted line is logged with: the forced one, or Info to be auto-detected. */
    function RequestedLevel(): (r: Level)
      reads this
      ensures forced.Some? ==> r == forced.value
      ensures forced.None? ==> r == Info
    {
      if forced.Some? then forced.value else Info
    }

    /** xsputn: every character is appended, and each '\n' flushes the line before it. */
    method Write(s: string) returns (emitted: seq<string>)
      requires Valid()
      modifies this
      ensures Valid()
      ensures emitted == SplitLines(old(buf) + s).0 && buf == SplitLines(old(buf) + s).1
    {
      SplitLinesNoNewline(buf);
      ghost var t := buf;
      emitted := [];
      for i := 0 to |s|
        invariant t == old(buf) + s[..i]
        invariant emitted == SplitLines(t).0 && buf == SplitLines(t).1
      {
        var c := s[i];
        ghost var before, rest := emitted, buf;
        buf := buf + [c];
        if c == '\n' {
          emitted := emitted + [buf[..|buf| - 1]];
          buf := [];
        }
        WriteStep(t, c, before, rest, emitted, buf);
        PrefixSnoc(old(buf), s, i);
        t := t + [c];
      }
      assert s[..|s|] == s;
    }

    /** overflow with a character: the same as writing that one character. */
    method Put(c: char) returns (emitted: seq<string>)
      requires Valid()
      modifies this
      ensures Valid()
      ensures emitted == SplitLines(old(buf) + [c]).0 && buf == SplitLines(old(buf) + [c]).1
    {
      emitted := Write([c]);
    }

    /** sync (and overflow with end-of-file): the unterminated rest, if any, becomes a line. */
    method Sync() returns (emitted: seq<string>)
      requires Valid()
      modifies this
      ensures Valid() && buf == []
      ensures emitted == if old(buf) == [] then [] else [old(buf)]
    {
      // sync also drops a trailing '\n', which Valid keeps out of buf.
      emitted := [];
      if buf != [] {
        emitted := [buf];
        buf := [];
      }
    }
  }
}
