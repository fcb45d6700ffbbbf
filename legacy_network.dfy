/**
 * The older, socket-based network manager (src/NetworkManager_OLD.cpp):
 * the two outgoing queues and the 5:1 send round that drains them, the
 * type + payload message framing, the reassembly of image chunks keyed by
 * image path, and the password handshake.
 *
 * MessageType is an int-sized enum whose definition is not part of this
 * model; a message type is its 4-byte int value, and the value of
 * MessageType::ImageChunk is a parameter (`imageChunk`).
 */
module LegacyNetwork {
  import opened CTypes
  import opened Wrappers
  import opened Serializer

  /** Message: its type and its payload bytes. */
  datatype Message = Message(msgType: int32, payload: seq<byte>)

  // ---------------------------------------------------------------------------
  // Message framing

  /** serializeMessage: the type's 4 bytes as they lie in memory, then the payload. */
  function SerializeMessage(m: Message): (r: seq<byte>)
    ensures |r| == 4 + |m.payload| && r[4..] == m.payload
  {
    IntBytes(m.msgType) + m.payload
  }

  /** deserializeMessage: an error for a buffer shorter than the type, else the type and every byte after it. */
  function DeserializeMessage(buffer: seq<byte>): (r: Result<Message>)
    ensures r.Err? <==> |buffer| < 4
    ensures r.Ok? ==> r.value.payload == buffer[4..] && SerializeMessage(r.value) == buffer
  {
    if |buffer| < 4 then Err("Buffer is too small to contain a valid message.")
    else
      var m := Message(ReadInt(buffer, 0).0, buffer[4..]);
      assert SerializeMessage(m) == buffer[..4] + buffer[4..];
      Ok(m)
  }

  /** Reading back what serializeMessage wrote gives the same type and payload. */
  lemma {:induction false} MessageRoundTrip(m: Message)
    ensures DeserializeMessage(SerializeMessage(m)) == Ok(m)
  {
    var b := SerializeMessage(m);
    assert b[0..4] == IntBytes(m.msgType);
    ReadIntInverse(b, 0, m.msgType);
  }

  // ---------------------------------------------------------------------------
  // The two send queues

  /** How many real-time messages one round may send before the non-real-time one. */
  const RealTimeBurst: nat := 5

  /** What one processSentMessages call sends, and what it leaves in each queue. */
  datatype Round = Round(sent: seq<Message>, realTime: seq<Message>, nonRealTime: seq<Message>)

  /**
   * One round: the front of the real-time queue, five messages or all of it
   * if shorter, then the front of the non-real-time queue if it has one.
   */
  function SendRound(rt: seq<Message>, nrt: seq<Message>): (r: Round)
    ensures |r.realTime| <= |rt| && |r.nonRealTime| <= |nrt|
    ensures rt == rt[..|rt| - |r.realTime|] + r.realTime
    ensures nrt == nrt[..|nrt| - |r.nonRealTime|] + r.nonRealTime
    ensures r.sent == rt[..|rt| - |r.realTime|] + nrt[..|nrt| - |r.nonRealTime|]
    ensures |rt| - |r.realTime| <= RealTimeBurst
    ensures |rt| - |r.realTime| == RealTimeBurst || r.realTime == []
    ensures |nrt| - |r.nonRealTime| == (if nrt == [] then 0 else 1)
  {
    var k := if |rt| < RealTimeBurst then |rt| else RealTimeBurst;
    var j := if nrt == [] then 0 else 1;
    Round(rt[..k] + nrt[..j], rt[k..], nrt[j..])
  }

  /** Everything rounds send, one after the other, until both queues are empty. */
  function Drained(rt: seq<Message>, nrt: seq<Message>): (r: seq<Message>)
    ensures |r| == |rt| + |nrt|
    decreases |rt| + |nrt|
  {
    if rt == [] && nrt == [] then []
    else
      var round := SendRound(rt, nrt);
      round.sent + Drained(round.realTime, round.nonRealTime)
  }

  /** The messages of `s` whose type is (want) or is not (!want) `t`, in order. */
  function OfType(s: seq<Message>, t: int32, want: bool): (r: seq<Message>)
    ensures |r| <= |s|
  {
    if s == [] then []
    else (if (s[0].msgType == t) == want then [s[0]] else []) + OfType(s[1..], t, want)
  }

  lemma {:induction false} OfTypeAppend(a: seq<Message>, b: seq<Message>, t: int32, want: bool)
    ensures OfType(a + b, t, want) == OfType(a, t, want) + OfType(b, t, want)
    decreases |a|
  {
    if a == [] {
      assert a + b == b;
    } else {
      var head := if (a[0].msgType == t) == want then [a[0]] else [];
      assert (a + b)[0] == a[0] && (a + b)[1..] == a[1..] + b;
      OfTypeAppend(a[1..], b, t, want);
      assert OfType(a + b, t, want) == head + (OfType(a[1..], t, want) + OfType(b, t, want));
    }
  }

  lemma {:induction false} OfTypeAll(s: seq<Message>, t: int32, want: bool)
    requires forall m :: m in s ==> (m.msgType == t) == want
    ensures OfType(s, t, want) == s && OfType(s, t, !want) == []
    decreases |s|
  {
    if s != [] {
      assert s[0] in s;
      assert forall m :: m in s[1..] ==> m in s;
      OfTypeAll(s[1..], t, want);
    }
  }

  /** The queues as queueMessage fills them: image chunks in the non-real-time one, everything else in the other. */
  ghost predicate Routed(rt: seq<Message>, nrt: seq<Message>, imageChunk: int32)
  {
    (forall m :: m in rt ==> m.msgType != imageChunk) && (forall m :: m in nrt ==> m.msgType == imageChunk)
  }

  /** One round takes real-time messages from the real-time queue and image chunks from the other, and leaves both routed. */
  lemma {:induction false} RoundRouted(rt: seq<Message>, nrt: seq<Message>, imageChunk: int32)
    requires Routed(rt, nrt, imageChunk)
    ensures var round := SendRound(rt, nrt);
      && Routed(round.realTime, round.nonRealTime, imageChunk)
      && OfType(round.sent, imageChunk, false) == rt[..|rt| - |round.realTime|]
      && OfType(round.sent, imageChunk, true) == nrt[..|nrt| - |round.nonRealTime|]
  {
    var round := SendRound(rt, nrt);
    var a := rt[..|rt| - |round.realTime|];
    var b := nrt[..|nrt| - |round.nonRealTime|];
    assert forall m :: m in a ==> m in rt;
    assert forall m :: m in b ==> m in nrt;
    assert forall m :: m in round.realTime ==> m in rt;
    assert forall m :: m in round.nonRealTime ==> m in nrt;
    OfTypeAppend(a, b, imageChunk, false);
    OfTypeAppend(a, b, imageChunk, true);
    OfTypeAll(a, imageChunk, false);
    OfTypeAll(b, imageChunk, true);
  }

  /**
   * Sending round after round loses nothing, sends nothing twice and keeps
   * each queue in order: of everything sent, the non-image messages are the
   * real-time queue and the image chunks the non-real-time queue.
   */
  lemma {:induction false} DrainedKeepsEachQueue(rt: seq<Message>, nrt: seq<Message>, imageChunk: int32)
    requires Routed(rt, nrt, imageChunk)
    ensures OfType(Drained(rt, nrt), imageChunk, false) == rt
    ensures OfType(Drained(rt, nrt), imageChunk, true) == nrt
    decreases |rt| + |nrt|
  {
    if rt != [] || nrt != [] {
      var round := SendRound(rt, nrt);
      RoundRouted(rt, nrt, imageChunk);
      DrainedKeepsEachQueue(round.realTime, round.nonRealTime, imageChunk);
      var rest := Drained(round.realTime, round.nonRealTime);
      assert Drained(rt, nrt) == round.sent + rest;
      OfTypeAppend(round.sent, rest, imageChunk, false);
      OfTypeAppend(round.sent, rest, imageChunk, true);
    }
  }

  /** The outgoing side: realTimeQueue and nonRealTimeQueue. */
  class SendQueues {
    /** The value of MessageType::ImageChunk. */
    const imageChunk: int32
    var realTime: seq<Message>
    var nonRealTime: seq<Message>

    ghost predicate Valid()
      reads this
    {
      Routed(realTime, nonRealTime, imageChunk)
    }

    constructor(imageChunk: int32)
      ensures this.imageChunk == imageChunk && realTime == [] && nonRealTime == []
      ensures Valid()
    {
      this.imageChunk := imageChunk;
      realTime := [];
      nonRealTime := [];
    }

    /** queueMessage: an image chunk joins the back of the non-real-time queue, any other message the real-time one. */
    method QueueMessage(m: Message)
      requires Valid()
      modifies this
      ensures Valid()
      ensures m.msgType != imageChunk ==> realTime == old(realTime) + [m] && nonRealTime == old(nonRealTime)
      ensures m.msgType == imageChunk ==> nonRealTime == old(nonRealTime) + [m] && realTime == old(realTime)
    {
      if m.msgType != imageChunk {
        realTime := realTime + [m];
      } else {
        nonRealTime := nonRealTime + [m];
      }
    }

    /** processSentMessages: pops and sends one round, returned in the order sent. */
    method ProcessSentMessages() returns (sent: seq<Message>)
      requires Valid()
      modifies this
      ensures Valid()
      ensures var r := SendRound(old(realTime), old(nonRealTime));
        sent == r.sent && realTime == r.realTime && nonRealTime == r.nonRealTime
    {
      ghost var rt0 := realTime;
      sent := [];
      var processed := 0;
      while realTime != [] && processed < RealTimeBurst
        invariant 0 <= processed <= RealTimeBurst && processed <= |rt0|
        invariant sent == rt0[..processed] && realTime == rt0[processed..]
        invariant nonRealTime == old(nonRealTime)
        decreases |realTime|
      {
        var message := realTime[0];
        realTime := realTime[1..];
        sent := sent + [message];
        processed := processed + 1;
      }
      assert forall m :: m in realTime ==> m in rt0;
      if nonRealTime != [] {
        var message := nonRealTime[0];
        nonRealTime := nonRealTime[1..];
        sent := sent + [message];
        processed := 0;
      }
    }
  }

  // ---------------------------------------------------------------------------
  // Image chunks

  /** The fields handleMessage reads from an ImageChunk payload; the data is every byte after them. */
  datatype Chunk = Chunk(path: CString, number: int32, total: int32, data: seq<byte>)

  /** The payload layout handleMessage reads: the path as a string, the chunk number, the chunk count, the data. */
  function ChunkPayload(c: Chunk): (r: seq<byte>)
    requires |c.path| < 0x8000_0000
    ensures |r| == 12 + |c.path| + |c.data|
  {
    StringBytes(c.path) + IntBytes(c.number) + IntBytes(c.total) + c.data
  }

  /** The ImageChunk case of handleMessage; None where a read would pass the end of the payload. */
  function ParseChunk(payload: seq<byte>): (r: Option<Chunk>)
    ensures r.Some? ==> 12 + |r.value.path| + |r.value.data| == |payload|
  {
    match TryString(payload, 0)
    case None => None
    case Some(p) =>
      match TryInt(payload, p.1)
      case None => None
      case Some(n) =>
        match TryInt(payload, n.1)
        case None => None
        case Some(t) => Some(Chunk(p.0, n.0, t.0, payload[t.1..]))
  }

  lemma {:induction false} ChunkPayloadRoundTrip(c: Chunk)
    requires |c.path| < 0x8000_0000
    ensures ParseChunk(ChunkPayload(c)) == Some(c)
  {
    var b := ChunkPayload(c);
    var o1 := 4 + |c.path|;
    assert EncodedAt(b, 0, StringBytes(c.path));
    ReadStringInverse(b, 0, c.path);
    assert EncodedAt(b, o1, IntBytes(c.number));
    ReadIntInverse(b, o1, c.number);
    assert EncodedAt(b, o1 + 4, IntBytes(c.total));
    ReadIntInverse(b, o1 + 4, c.total);
    assert b[o1 + 8..] == c.data;
  }

  /** imageChunksReceived and imageBufferMap, keyed by image path. */
  datatype Assembly = Assembly(received: map<CString, set<int32>>, buffers: map<CString, seq<byte>>)

  /** Both tables hold the same paths. */
  predicate Consistent(a: Assembly)
  {
    a.received.Keys == a.buffers.Keys
  }

  /**
   * handleImageChunk, with finalizeImage: a chunk number already seen
   * changes nothing; a new one is recorded and its data appended to the
   * path's buffer; when the count of distinct numbers reaches totalChunks
   * both entries are forgotten and the buffer is what gets saved. A path
   * with no chunk set starts from an empty buffer, whatever imageBufferMap
   * held for it.
   */
  function ChunkArrived(a: Assembly, c: Chunk): (r: (Assembly, Option<seq<byte>>))
    ensures Consistent(a) ==> Consistent(r.0)
    ensures c.path in a.received && c.number in a.received[c.path] ==> r == (a, None)
    ensures forall q :: q != c.path ==> (q in r.0.received <==> q in a.received) && (q in r.0.buffers <==> q in a.buffers)
    ensures forall q :: q != c.path && q in a.received ==> r.0.received[q] == a.received[q]
    ensures forall q :: q != c.path && q in a.buffers ==> r.0.buffers[q] == a.buffers[q]
    ensures r.1.Some? <==> c.path !in r.0.received && c.path !in r.0.buffers
    ensures r.1.Some? ==> |c.data| <= |r.1.value| && r.1.value[|r.1.value| - |c.data|..] == c.data
  {
    var seen := if c.path in a.received then a.received[c.path] else {};
    var buf := if c.path in a.received && c.path in a.buffers then a.buffers[c.path] else [];
    if c.number in seen then (a, None)
    else
      var seen' := seen + {c.number};
      var buf' := buf + c.data;
      if |seen'| == c.total as int then (Assembly(a.received - {c.path}, a.buffers - {c.path}), Some(buf'))
      else (Assembly(a.received[c.path := seen'], a.buffers[c.path := buf']), None)
  }

  /** Chunks arriving one after another: the final tables and every image saved, in order. */
  function Feed(a: Assembly, cs: seq<Chunk>): (r: (Assembly, seq<seq<byte>>))
    ensures |r.1| <= |cs|
    decreases |cs|
  {
    if cs == [] then (a, [])
    else
      var before := Feed(a, cs[..|cs| - 1]);
      var step := ChunkArrived(before.0, cs[|cs| - 1]);
      (step.0, before.1 + (if step.1.Some? then [step.1.value] else []))
  }

  /** The chunk numbers of `cs`. */
  function Numbers(cs: seq<Chunk>): (r: set<int32>)
    ensures forall i :: 0 <= i < |cs| ==> cs[i].number in r
    decreases |cs|
  {
    if cs == [] then {} else Numbers(cs[..|cs| - 1]) + {cs[|cs| - 1].number}
  }

  /** The data of `cs`, in arrival order. */
  function Joined(cs: seq<Chunk>): (r: seq<byte>)
    decreases |cs|
  {
    if cs == [] then [] else Joined(cs[..|cs| - 1]) + cs[|cs| - 1].data
  }

  /** Chunks of one image, all announcing the same count, with pairwise distinct numbers. */
  ghost predicate OneImage(cs: seq<Chunk>, p: CString, total: int32)
  {
    (forall i :: 0 <= i < |cs| ==> cs[i].path == p && cs[i].total == total)
    && (forall i, j :: 0 <= i < j < |cs| ==> cs[i].number != cs[j].number)
  }

  lemma {:induction false} NumbersCount(cs: seq<Chunk>, p: CString, total: int32)
    requires OneImage(cs, p, total)
    ensures |Numbers(cs)| == |cs|
    ensures forall x :: x in Numbers(cs) ==> exists i :: 0 <= i < |cs| && cs[i].number == x
    decreases |cs|
  {
    if cs != [] {
      var init := cs[..|cs| - 1];
      assert OneImage(init, p, total);
      NumbersCount(init, p, total);
      assert cs[|cs| - 1].number !in Numbers(init);
    }
  }

  /** Feed, one chunk at a time from the back: the last chunk arrives on the tables the others leave. */
  lemma {:induction false} FeedLast(a: Assembly, cs: seq<Chunk>, before: Assembly, saved: seq<seq<byte>>)
    requires cs != [] && Feed(a, cs[..|cs| - 1]).0 == before && Feed(a, cs[..|cs| - 1]).1 == saved
    ensures Feed(a, cs).0 == ChunkArrived(before, cs[|cs| - 1]).0
    ensures var step := ChunkArrived(before, cs[|cs| - 1]);
      Feed(a, cs).1 == saved + (if step.1.Some? then [step.1.value] else [])
  {
  }

  lemma {:induction false} RemoveAbsent<K, V>(m: map<K, V>, k: K)
    requires k !in m
    ensures m - {k} == m
  {
  }

  lemma {:induction false} UpdateThenRemove<K, V>(m: map<K, V>, k: K, v: V)
    ensures m[k := v] - {k} == m - {k}
  {
  }

  /** The first chunk of an image with no entry: it is recorded, or saved at once when one chunk is announced. */
  lemma {:induction false} ArrivesFirst(a: Assembly, c: Chunk)
    requires c.path !in a.received
    ensures c.total as int != 1 ==> ChunkArrived(a, c) == (Assembly(a.received[c.path := {c.number}], a.buffers[c.path := c.data]), None)
    ensures c.total as int == 1 ==> ChunkArrived(a, c) == (Assembly(a.received - {c.path}, a.buffers - {c.path}), Some(c.data))
  {
    assert {} + {c.number} == {c.number} && |{c.number}| == 1;
    assert [] + c.data == c.data;
  }

  /** A chunk with a new number for an image whose entry holds `seen` and `buf`. */
  lemma {:induction false} ArrivesNext(a: Assembly, c: Chunk, seen: set<int32>, buf: seq<byte>)
    requires c.path !in a.received && c.number !in seen
    ensures var b := Assembly(a.received[c.path := seen], a.buffers[c.path := buf]);
      && (|seen| + 1 != c.total as int ==>
          ChunkArrived(b, c) == (Assembly(a.received[c.path := seen + {c.number}], a.buffers[c.path := buf + c.data]), None))
      && (|seen| + 1 == c.total as int ==>
          ChunkArrived(b, c) == (Assembly(a.received - {c.path}, a.buffers - {c.path}), Some(buf + c.data)))
  {
    var b := Assembly(a.received[c.path := seen], a.buffers[c.path := buf]);
    assert |seen + {c.number}| == |seen| + 1;
    assert b.received[c.path := seen + {c.number}] == a.received[c.path := seen + {c.number}];
    assert b.buffers[c.path := buf + c.data] == a.buffers[c.path := buf + c.data];
    assert b.received - {c.path} == a.received - {c.path};
    assert b.buffers - {c.path} == a.buffers - {c.path};
  }

  /**
   * While fewer chunks than announced have arrived, the image's entry holds
   * exactly the numbers seen and the data appended in arrival order, and
   * nothing is saved.
   */
  lemma {:induction false} FeedCollects(a: Assembly, cs: seq<Chunk>, p: CString, total: int32)
    requires p !in a.received
    requires OneImage(cs, p, total) && |cs| < total as int
    ensures Feed(a, cs).1 == []
    ensures cs == [] ==> Feed(a, cs).0 == a
    ensures cs != [] ==> Feed(a, cs).0 == Assembly(a.received[p := Numbers(cs)], a.buffers[p := Joined(cs)])
    decreases |cs|
  {
    if cs != [] {
      var init := cs[..|cs| - 1];
      assert OneImage(init, p, total);
      FeedCollects(a, init, p, total);
      if init == [] {
        CollectFirst(a, cs, p);
      } else {
        CollectNext(a, cs, p, total);
      }
    }
  }

  /** The first chunk of an image that does not complete it opens the image's entry. */
  lemma {:induction false} CollectFirst(a: Assembly, cs: seq<Chunk>, p: CString)
    requires |cs| == 1 && p !in a.received && cs[0].path == p && cs[0].total as int > 1
    requires Feed(a, cs[..0]).0 == a && Feed(a, cs[..0]).1 == []
    ensures Feed(a, cs).1 == []
    ensures Feed(a, cs).0 == Assembly(a.received[p := Numbers(cs)], a.buffers[p := Joined(cs)])
  {
    var c := cs[0];
    FeedLast(a, cs, a, []);
    ArrivesFirst(a, c);
    assert cs[..0] == [];
    assert Numbers(cs) == {} + {c.number} == {c.number};
    assert Joined(cs) == [] + c.data == c.data;
  }

  /** A further chunk of an image that does not complete it is added to the image's entry. */
  lemma {:induction false} CollectNext(a: Assembly, cs: seq<Chunk>, p: CString, total: int32)
    requires |cs| > 1 && p !in a.received && OneImage(cs, p, total) && |cs| < total as int
    requires Feed(a, cs[..|cs| - 1]).1 == []
    requires Feed(a, cs[..|cs| - 1]).0
      == Assembly(a.received[p := Numbers(cs[..|cs| - 1])], a.buffers[p := Joined(cs[..|cs| - 1])])
    ensures Feed(a, cs).1 == []
    ensures Feed(a, cs).0 == Assembly(a.received[p := Numbers(cs)], a.buffers[p := Joined(cs)])
  {
    var init := cs[..|cs| - 1];
    var c := cs[|cs| - 1];
    assert c.path == p && c.total == total;
    var seen := Numbers(init);
    var buf := Joined(init);
    FeedLast(a, cs, Assembly(a.received[p := seen], a.buffers[p := buf]), []);
    assert OneImage(init, p, total);
    NumbersCount(init, p, total);
    assert c.number !in seen;
    ArrivesNext(a, c, seen, buf);
    assert Numbers(cs) == seen + {c.number};
    assert Joined(cs) == buf + c.data;
  }

  /**
   * When the announced number of distinct chunks has arrived, the last one
   * saves the data of all of them in arrival order, and the tables are back
   * to what they were before the first.
   */
  lemma {:induction false} FeedCompletes(a: Assembly, cs: seq<Chunk>, p: CString, total: int32)
    requires Consistent(a) && p !in a.received
    requires OneImage(cs, p, total) && |cs| == total as int && cs != []
    ensures Feed(a, cs).0 == a && Feed(a, cs).1 == [Joined(cs)]
  {
    var init := cs[..|cs| - 1];
    var c := cs[|cs| - 1];
    assert OneImage(init, p, total);
    assert c.path == p && c.total == total;
    FeedCollects(a, init, p, total);
    RemoveAbsent(a.received, p);
    RemoveAbsent(a.buffers, p);
    if init == [] {
      FeedLast(a, cs, a, []);
      ArrivesFirst(a, c);
      assert Joined(cs) == [] + c.data == c.data;
    } else {
      var seen := Numbers(init);
      var buf := Joined(init);
      FeedLast(a, cs, Assembly(a.received[p := seen], a.buffers[p := buf]), []);
      NumbersCount(init, p, total);
      assert c.number !in seen;
      ArrivesNext(a, c, seen, buf);
      assert Joined(cs) == buf + c.data;
    }
    assert [] + [Joined(cs)] == [Joined(cs)];
  }

  /** The receiving side's image tables. */
  class ImageAssembler {
    var chunksReceived: map<CString, set<int32>>
    var imageBuffers: map<CString, seq<byte>>

    function State(): (r: Assembly)
      reads this
      ensures r.received == chunksReceived && r.buffers == imageBuffers
    {
      Assembly(chunksReceived, imageBuffers)
    }

    constructor()
      ensures chunksReceived == map[] && imageBuffers == map[]
    {
      chunksReceived := map[];
      imageBuffers := map[];
    }

    /** handleImageChunk and finalizeImage; `saved` is what finalizeImage writes to the image path. */
    method HandleImageChunk(c: Chunk) returns (saved: Option<seq<byte>>)
      modifies this
      ensures (State(), saved) == ChunkArrived(old(State()), c)
    {
      ghost var a := State();
      ghost var seen := if c.path in a.received then a.received[c.path] else {};
      ghost var buf := if c.path in a.received && c.path in a.buffers then a.buffers[c.path] else [];
      if c.path !in chunksReceived {
        chunksReceived := chunksReceived[c.path := {}];
        imageBuffers := imageBuffers[c.path := []];
      }
      saved := None;
      if c.number !in chunksReceived[c.path] {
        chunksReceived := chunksReceived[c.path := chunksReceived[c.path] + {c.number}];
        var buffer := if c.path in imageBuffers then imageBuffers[c.path] else [];
        imageBuffers := imageBuffers[c.path := buffer + c.data];
        assert chunksReceived == a.received[c.path := seen + {c.number}];
        assert imageBuffers == a.buffers[c.path := buf + c.data];
        if |chunksReceived[c.path]| == c.total as int {
          UpdateThenRemove(a.received, c.path, seen + {c.number});
          UpdateThenRemove(a.buffers, c.path, buf + c.data);
          var written := FinalizeImage(c.path);
          saved := Some(written);
        }
      }
    }

    /** finalizeImage: the buffer to be written, and both entries forgotten. */
    method FinalizeImage(path: CString) returns (buffer: seq<byte>)
      modifies this
      ensures buffer == (if path in old(imageBuffers) then old(imageBuffers)[path] else [])
      ensures chunksReceived == old(chunksReceived) - {path} && imageBuffers == old(imageBuffers) - {path}
    {
      buffer := if path in imageBuffers then imageBuffers[path] else [];
      imageBuffers := imageBuffers - {path};
      chunksReceived := chunksReceived - {path};
    }
  }

  // ---------------------------------------------------------------------------
  // Password handshake

  /** strlen: the characters before the first NUL. */
  function CStrLen(s: seq<char>): (n: nat)
    ensures n <= |s| && (n < |s| ==> s[n] == '\0')
    ensures forall i :: 0 <= i < n ==> s[i] != '\0'
  {
    if s == [] || s[0] == '\0' then 0 else 1 + CStrLen(s[1..])
  }

  /** The server password as a C string: network_password up to its NUL. */
  function CStr(s: seq<char>): (r: seq<char>)
    ensures |r| == CStrLen(s) && r <= s
  {
    s[..CStrLen(s)]
  }

  /**
   * verifyPassword's test for rejecting a peer, as written; an empty server
   * password lets every peer in, otherwise only the exact password does.
   * !strlen(network_password) == 0 parses as (!strlen(...)) == 0, a bool
   * compared with 0, which holds exactly when the password is not empty.
   */
  function Rejects(received: seq<char>, networkPassword: seq<char>): (reject: bool)
    ensures !reject <==> CStr(networkPassword) == [] || received == CStr(networkPassword)
  {
    (if CStrLen(networkPassword) == 0 then 1 else 0) == 0 && received != CStr(networkPassword)
  }

  /** What startReceiving makes of the data it reads. */
  datatype Incoming = PasswordAttempt(password: seq<char>) | OtherMessage(data: seq<char>)

  const PasswordPrefix: seq<char> := "PASSWORD:"

  /** Data starting with "PASSWORD:" is a password, the text after those nine characters; anything else is a message. */
  function Classify(data: seq<char>): (r: Incoming)
    ensures r.PasswordAttempt? <==> PasswordPrefix <= data
    ensures r.PasswordAttempt? ==> data == PasswordPrefix + r.password
    ensures r.OtherMessage? ==> r.data == data
  {
    if |data| >= 9 && data[..9] == PasswordPrefix then PasswordAttempt(data[9..])
    else OtherMessage(data)
  }

  /** A peer that sends "PASSWORD:" followed by the server password is accepted. */
  lemma {:induction false} PasswordHandshake(networkPassword: seq<char>)
    ensures var r := Classify(PasswordPrefix + CStr(networkPassword));
      r.PasswordAttempt? && !Rejects(r.password, networkPassword)
  {
    var d := PasswordPrefix + CStr(networkPassword);
    assert d[..9] == PasswordPrefix && d[9..] == CStr(networkPassword);
  }
}
