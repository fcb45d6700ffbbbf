/**
 * The chat file of the header-only thread store (saveToFile / loadFromFile
 * in include/network/ChatManager.h): the magic string "RUNIC-CHAT", the
 * version int 1, the thread count, then per thread its id, display name,
 * participants (in std::set order) and messages (kind, sender, username,
 * content, whole-second timestamp), in the encodings of include/Serializer.h.
 * A message record has the same five fields as in version 2 of the group
 * log, so the message and participant readers of ChatLog are shared.
 *
 * The order in which saveToFile visits threads_ is the container's
 * iteration order, taken as a parameter (`order`, listing each key once).
 * Where loadFromFile would read past the end of the buffer the decoder
 * reports Overrun, as for the group log.
 */
module ChatThreadsLog {
  import opened CTypes
  import opened Wrappers
  import opened Serializer
  import ChatGroups
  import ChatLog
  import opened ChatThreads

  const FileMagic: CString := "RUNIC-CHAT"
  const FileVersion: int32 := 1

  // ---------------------------------------------------------------------
  // The bytes saveToFile writes
  // ---------------------------------------------------------------------

  /** A thread the file can hold: short strings, fewer than 2^31 participants and messages, storable messages. */
  predicate StorableThread(t: Thread)
  {
    ChatLog.Short(t.id) && ChatLog.Short(t.displayName)
    && |t.participants| < 0x8000_0000 && (forall p :: p in t.participants ==> ChatLog.Short(p))
    && |t.messages| < 0x8000_0000 && ChatLog.AllStorableMessages(t.messages)
  }

  /** A thread: id, display name, the participant count and the participants in set order, the message count and the messages. */
  ghost function ThreadBytes(t: Thread, c: ChatLog.Codec): seq<byte>
    requires StorableThread(t)
  {
    ThreadRecordBytes(t.id, t.displayName, ChatLog.SetOrder(t.participants), t.messages, c)
  }

  /** The six fields of a thread record, in the order they are written. */
  function ThreadRecordBytes(id: CString, name: CString, ps: seq<CString>, ms: seq<ChatGroups.Message>, c: ChatLog.Codec): seq<byte>
    requires ChatLog.AllStorableMessages(ms)
  {
    ThreadLayout(id, name, ps, ms, c, |ps| + 1)
  }

  /** ThreadRecordBytes behind `depth` levels of recursion, taken apart only by ThreadLayoutIs. */
  function ThreadLayout(id: CString, name: CString, ps: seq<CString>, ms: seq<ChatGroups.Message>, c: ChatLog.Codec, depth: nat)
    : seq<byte>
    requires ChatLog.AllStorableMessages(ms)
    decreases depth
  {
    if depth > 0 then ThreadLayout(id, name, ps, ms, c, depth - 1)
    else
      (c.stringBytes(id) + c.stringBytes(name))
      + (c.intBytes(CastToInt(|ps|)) + ChatLog.Flatten(ChatLog.StringParts(ps, c)))
      + (c.intBytes(CastToInt(|ms|)) + ChatLog.Flatten(ChatLog.MessageParts(ms, c)))
  }

  lemma {:induction false} ThreadLayoutIs(id: CString, name: CString, ps: seq<CString>, ms: seq<ChatGroups.Message>,
                                          c: ChatLog.Codec, depth: nat)
    requires ChatLog.AllStorableMessages(ms)
    ensures ThreadLayout(id, name, ps, ms, c, depth)
         == (c.stringBytes(id) + c.stringBytes(name))
            + (c.intBytes(CastToInt(|ps|)) + ChatLog.Flatten(ChatLog.StringParts(ps, c)))
            + (c.intBytes(CastToInt(|ms|)) + ChatLog.Flatten(ChatLog.MessageParts(ms, c)))
    decreases depth
  {
    if depth > 0 {
      ThreadLayoutIs(id, name, ps, ms, c, depth - 1);
    }
  }

  predicate AllStorableThreads(ts: seq<Thread>)
  {
    forall i :: 0 <= i < |ts| ==> StorableThread(ts[i])
  }

  ghost function ThreadParts(ts: seq<Thread>, c: ChatLog.Codec): (parts: seq<seq<byte>>)
    requires AllStorableThreads(ts)
    ensures |parts| == |ts| && forall i :: 0 <= i < |ts| ==> parts[i] == ThreadBytes(ts[i], c)
  {
    seq(|ts|, i requires 0 <= i < |ts| && StorableThread(ts[i]) => ThreadBytes(ts[i], c))
  }

  /** `order` lists every key of `threads` exactly once. */
  predicate Enumerates(order: seq<CString>, threads: map<CString, Thread>)
  {
    (forall i :: 0 <= i < |order| ==> order[i] in threads)
    && (forall k :: k in threads ==> k in order)
    && (forall i, j :: 0 <= i < j < |order| ==> order[i] != order[j])
  }

  predicate StorableThreads(threads: map<CString, Thread>)
  {
    forall k :: k in threads ==> StorableThread(threads[k])
  }

  /** The threads in the order saveToFile visits them. */
  function Visit(threads: map<CString, Thread>, order: seq<CString>): (ts: seq<Thread>)
    requires forall i :: 0 <= i < |order| ==> order[i] in threads
    ensures |ts| == |order| && forall i :: 0 <= i < |order| ==> ts[i] == threads[order[i]]
  {
    seq(|order|, i requires 0 <= i < |order| => threads[order[i]])
  }

  /** The whole buffer saveToFile writes: magic, version, count, threads. */
  ghost function FileBytes(threads: map<CString, Thread>, order: seq<CString>, c: ChatLog.Codec): seq<byte>
    requires Enumerates(order, threads) && StorableThreads(threads)
  {
    c.stringBytes(FileMagic) + c.intBytes(FileVersion) + c.intBytes(CastToInt(|order|))
    + ChatLog.Flatten(ThreadParts(Visit(threads, order), c))
  }

  // ---------------------------------------------------------------------
  // What loadFromFile reads
  // ---------------------------------------------------------------------

  /**
   * One thread: id, name, then the two counted loops (a negative count runs
   * zero times); every message record carries its sender, whatever the
   * version read from the header.
   */
  function ReadThread(buf: seq<byte>, off: nat, version: int32, c: ChatLog.Codec): Option<(Thread, nat)>
  {
    match c.readString(buf, off)
    case None => None
    case Some((id, o1)) =>
      match c.readString(buf, o1)
      case None => None
      case Some((name, o2)) =>
        match c.readInt(buf, o2)
        case None => None
        case Some((pc, o3)) =>
          match ChatLog.ReadParticipants(buf, o3, ChatLog.AtLeastZero(pc), ChatLog.Version, c)
          case None => None
          case Some((ps, o4)) =>
            match c.readInt(buf, o4)
            case None => None
            case Some((mc, o5)) =>
              match ChatLog.ReadMessages(buf, o5, ChatLog.AtLeastZero(mc), ChatLog.Version, c)
              case None => None
              case Some((ms, o6)) => Some((Thread(id, name, ChatLog.Elements(ps), ms), o6))
  }

  /** The thread loop of loadFromFile. */
  function ReadThreads(buf: seq<byte>, off: nat, n: nat, c: ChatLog.Codec): Option<(seq<Thread>, nat)>
  {
    ChatLog.ReadItems(buf, off, n, FileVersion, c, ReadThread)
  }

  /** The ids of `ts`. */
  function Ids(ts: seq<Thread>): (r: set<CString>)
    ensures forall i :: 0 <= i < |ts| ==> ts[i].id in r
    ensures forall k :: k in r ==> exists i :: 0 <= i < |ts| && ts[i].id == k
  {
    if ts == [] then {} else Ids(ts[..|ts| - 1]) + {ts[|ts| - 1].id}
  }

  /** threads_.emplace(th.id, th) for each thread read, in order: the first thread with a given id wins. */
  function Emplace(threads: map<CString, Thread>, ts: seq<Thread>): (r: map<CString, Thread>)
    ensures r.Keys == threads.Keys + Ids(ts)
    ensures forall k :: k in threads ==> r[k] == threads[k]
  {
    if ts == [] then threads
    else
      var m := Emplace(threads, ts[..|ts| - 1]);
      var t := ts[|ts| - 1];
      if t.id in m then m else m[t.id := t]
  }

  /** The General thread ensureGeneral adds when it is missing. */
  function WithGeneral(threads: map<CString, Thread>): (r: map<CString, Thread>)
    ensures GeneralId in r && r.Keys == threads.Keys + {GeneralId}
    ensures forall k :: k in threads ==> r[k] == threads[k]
    ensures GeneralId !in threads ==> r[GeneralId] == Thread(GeneralId, "General", {}, [])
  {
    if GeneralId in threads then threads else threads[GeneralId := Thread(GeneralId, "General", {}, [])]
  }

  /** WithGeneral is getOrCreateThread({}), whatever the network. */
  lemma {:induction false} WithGeneralIsEnsureGeneral(threads: map<CString, Thread>, network: Option<NetworkView>)
    ensures WithGeneral(threads) == GetOrCreate(threads, {}, network)
  {
    assert ThreadIdOf({}) == GeneralId;
  }

  datatype LoadResult =
    | BadMagic
    | Overrun
    | Loaded(threads: map<CString, Thread>, activeId: CString)

  /**
   * loadFromFile: a wrong magic string fails and leaves the store alone;
   * otherwise the version is read (and ignored), the store is cleared, the
   * threads are read and emplaced, and ensureGeneral makes General exist and
   * be active.
   */
  function LoadThreads(buf: seq<byte>, c: ChatLog.Codec): (r: LoadResult)
    ensures r.Loaded? ==> GeneralId in r.threads && r.activeId == GeneralId
    ensures c.readString(buf, 0).Some? && c.readString(buf, 0).value.0 != FileMagic ==> r == BadMagic
  {
    match c.readString(buf, 0)
    case None => Overrun
    case Some((magic, o1)) =>
      if magic != FileMagic then BadMagic
      else match c.readInt(buf, o1)
        case None => Overrun
        case Some((version, o2)) =>
          match c.readInt(buf, o2)
          case None => Overrun
          case Some((count, o3)) =>
            match ReadThreads(buf, o3, ChatLog.AtLeastZero(count), c)
            case None => Overrun
            case Some((ts, _)) => Loaded(WithGeneral(Emplace(map[], ts)), GeneralId)
  }

  // ---------------------------------------------------------------------
  // Round trip
  // ---------------------------------------------------------------------

  /** A thread as it comes back from the file: its timestamps cut to whole seconds. */
  function ReloadedThread(t: Thread): (r: Thread)
    requires StorableThread(t)
    ensures r.id == t.id && r.displayName == t.displayName && r.participants == t.participants
    ensures |r.messages| == |t.messages|
    ensures forall i :: 0 <= i < |t.messages| ==> r.messages[i] == ChatLog.Reloaded(t.messages[i])
  {
    t.(messages := ChatLog.ReloadedAll(t.messages))
  }

  lemma {:induction false} Split3(buf: seq<byte>, off: nat, a: seq<byte>, b: seq<byte>, d: seq<byte>)
    requires ChatLog.Enc(buf, off, a + b + d)
    ensures ChatLog.Enc(buf, off, a) && ChatLog.Enc(buf, off + |a|, b) && ChatLog.Enc(buf, off + |a| + |b|, d)
  {
    ChatLog.EncSplit(buf, off, a + b, d);
    ChatLog.EncSplit(buf, off, a, b);
  }

  /** The id and name at the head of a thread record, ending at `o1` and `o2`. */
  lemma {:induction false} ThreadHeadInverse(buf: seq<byte>, off: nat, c: ChatLog.Codec, id: CString, name: CString, o1: nat, o2: nat)
    requires ChatLog.Inverts(c, buf)
    requires ChatLog.Short(id) && ChatLog.Short(name)
    requires o1 == off + |c.stringBytes(id)| && o2 == o1 + |c.stringBytes(name)|
    requires ChatLog.Enc(buf, off, c.stringBytes(id) + c.stringBytes(name))
    ensures ChatLog.At(c.readString(buf, off), id, o1) && ChatLog.At(c.readString(buf, o1), name, o2)
  {
    ChatLog.EncSplit(buf, off, c.stringBytes(id), c.stringBytes(name));
    ChatLog.StringBack(c, buf, off, id);
    ChatLog.StringBack(c, buf, o1, name);
  }

  lemma {:induction false} ThreadFromParts(buf: seq<byte>, off: nat, c: ChatLog.Codec, id: CString, name: CString,
                                           ps: seq<CString>, ms: seq<ChatGroups.Message>,
                                           o1: nat, o2: nat, o3: nat, o4: nat, o5: nat, o6: nat)
    requires |ps| < 0x8000_0000 && |ms| < 0x8000_0000
    requires ChatLog.At(c.readString(buf, off), id, o1) && ChatLog.At(c.readString(buf, o1), name, o2)
    requires ChatLog.At(c.readInt(buf, o2), CastToInt(|ps|), o3)
    requires ChatLog.ReadParticipants(buf, o3, |ps|, ChatLog.Version, c) == Some((ps, o4))
    requires ChatLog.At(c.readInt(buf, o4), CastToInt(|ms|), o5)
    requires ChatLog.ReadMessages(buf, o5, |ms|, ChatLog.Version, c) == Some((ms, o6))
    ensures ChatLog.At(ReadThread(buf, off, FileVersion, c), Thread(id, name, ChatLog.Elements(ps), ms), o6)
  {
    assert ChatLog.AtLeastZero(CastToInt(|ps|)) == |ps| && ChatLog.AtLeastZero(CastToInt(|ms|)) == |ms|;
  }

  /** Each field of a thread record written at `off` reads back, field `k` ending at `ok`. */
  lemma {:induction false} ThreadFieldsInverse(buf: seq<byte>, off: nat, c: ChatLog.Codec, id: CString, name: CString,
                                               ps: seq<CString>, ms: seq<ChatGroups.Message>,
                                               pparts: seq<seq<byte>>, mparts: seq<seq<byte>>,
                                               o1: nat, o2: nat, o3: nat, o4: nat, o5: nat, o6: nat)
    requires ChatLog.Inverts(c, buf)
    requires ChatLog.Short(id) && ChatLog.Short(name) && forall i :: 0 <= i < |ps| ==> ChatLog.Short(ps[i])
    requires ChatLog.AllStorableMessages(ms)
    requires pparts == ChatLog.StringParts(ps, c) && mparts == ChatLog.MessageParts(ms, c)
    requires o1 == off + |c.stringBytes(id)| && o2 == o1 + |c.stringBytes(name)|
    requires o3 == o2 + |c.intBytes(CastToInt(|ps|))| && o4 == o3 + |ChatLog.Flatten(pparts)|
    requires o5 == o4 + |c.intBytes(CastToInt(|ms|))| && o6 == o5 + |ChatLog.Flatten(mparts)|
    requires ChatLog.Enc(buf, off, ThreadRecordBytes(id, name, ps, ms, c))
    ensures ChatLog.At(c.readString(buf, off), id, o1) && ChatLog.At(c.readString(buf, o1), name, o2)
    ensures ChatLog.At(c.readInt(buf, o2), CastToInt(|ps|), o3)
    ensures ChatLog.ReadParticipants(buf, o3, |ps|, ChatLog.Version, c) == Some((ps, o4))
    ensures ChatLog.At(c.readInt(buf, o4), CastToInt(|ms|), o5)
    ensures ChatLog.ReadMessages(buf, o5, |ms|, ChatLog.Version, c) == Some((ChatLog.ReloadedAll(ms), o6))
  {
    var head := c.stringBytes(id) + c.stringBytes(name);
    var pl := c.intBytes(CastToInt(|ps|)) + ChatLog.Flatten(pparts);
    var ml := c.intBytes(CastToInt(|ms|)) + ChatLog.Flatten(mparts);
    ThreadLayoutIs(id, name, ps, ms, c, |ps| + 1);
    Split3(buf, off, head, pl, ml);
    ThreadHeadInverse(buf, off, c, id, name, o1, o2);
    ChatLog.CountedParticipantsInverse(buf, c, ps, pparts, o2, o3, o4);
    ChatLog.CountedMessagesInverse(buf, c, ms, mparts, o4, o5, o6);
  }

  /** A thread record written at `off` ends where its last field ends. */
  lemma {:induction false} ThreadRecordLength(off: nat, c: ChatLog.Codec, id: CString, name: CString,
                                              ps: seq<CString>, ms: seq<ChatGroups.Message>,
                                              pparts: seq<seq<byte>>, mparts: seq<seq<byte>>,
                                              o1: nat, o2: nat, o3: nat, o4: nat, o5: nat, o6: nat)
    requires ChatLog.AllStorableMessages(ms)
    requires pparts == ChatLog.StringParts(ps, c) && mparts == ChatLog.MessageParts(ms, c)
    requires o1 == off + |c.stringBytes(id)| && o2 == o1 + |c.stringBytes(name)|
    requires o3 == o2 + |c.intBytes(CastToInt(|ps|))| && o4 == o3 + |ChatLog.Flatten(pparts)|
    requires o5 == o4 + |c.intBytes(CastToInt(|ms|))| && o6 == o5 + |ChatLog.Flatten(mparts)|
    ensures o6 == off + |ThreadRecordBytes(id, name, ps, ms, c)|
  {
    ThreadLayoutIs(id, name, ps, ms, c, |ps| + 1);
  }

  lemma {:induction false} ReadThreadRecordInverse(buf: seq<byte>, off: nat, c: ChatLog.Codec, id: CString, name: CString,
                                                   ps: seq<CString>, ms: seq<ChatGroups.Message>, bytes: seq<byte>, val: Thread)
    requires ChatLog.Inverts(c, buf)
    requires ChatLog.Short(id) && ChatLog.Short(name) && forall i :: 0 <= i < |ps| ==> ChatLog.Short(ps[i])
    requires |ps| < 0x8000_0000 && |ms| < 0x8000_0000 && ChatLog.AllStorableMessages(ms)
    requires bytes == ThreadRecordBytes(id, name, ps, ms, c)
    requires val == Thread(id, name, ChatLog.Elements(ps), ChatLog.ReloadedAll(ms))
    requires ChatLog.Enc(buf, off, bytes)
    ensures ChatLog.At(ReadThread(buf, off, FileVersion, c), val, off + |bytes|)
  {
    var o1 := off + |c.stringBytes(id)|;
    var o2 := o1 + |c.stringBytes(name)|;
    var o3 := o2 + |c.intBytes(CastToInt(|ps|))|;
    var pparts, mparts := ChatLog.StringParts(ps, c), ChatLog.MessageParts(ms, c);
    var o4 := o3 + |ChatLog.Flatten(pparts)|;
    var o5 := o4 + |c.intBytes(CastToInt(|ms|))|;
    var o6 := o5 + |ChatLog.Flatten(mparts)|;
    ThreadFieldsInverse(buf, off, c, id, name, ps, ms, pparts, mparts, o1, o2, o3, o4, o5, o6);
    ThreadRecordLength(off, c, id, name, ps, ms, pparts, mparts, o1, o2, o3, o4, o5, o6);
    ThreadFromParts(buf, off, c, id, name, ps, ChatLog.ReloadedAll(ms), o1, o2, o3, o4, o5, o6);
    ChatLog.AtSame(ReadThread(buf, off, FileVersion, c), Thread(id, name, ChatLog.Elements(ps), ChatLog.ReloadedAll(ms)), o6,
                   val, off + |bytes|);
  }

  /** A thread written at `off` reads back with its timestamps cut to whole seconds. */
  lemma {:induction false} ReadThreadInverse(buf: seq<byte>, off: nat, t: Thread, c: ChatLog.Codec)
    requires ChatLog.Inverts(c, buf)
    requires StorableThread(t)
    requires ChatLog.Enc(buf, off, ThreadBytes(t, c))
    ensures ChatLog.At(ReadThread(buf, off, FileVersion, c), ReloadedThread(t), off + |ThreadBytes(t, c)|)
  {
    var ps := ChatLog.SetOrder(t.participants);
    assert forall i :: 0 <= i < |ps| ==> ChatLog.Short(ps[i]) by {
      forall i | 0 <= i < |ps|
        ensures ChatLog.Short(ps[i])
      {
        assert ps[i] in t.participants;
      }
    }
    assert ChatLog.Elements(ps) == t.participants;
    ReadThreadRecordInverse(buf, off, c, t.id, t.displayName, ps, t.messages, ThreadBytes(t, c), ReloadedThread(t));
  }

  lemma {:induction false} ThreadDecodes(buf: seq<byte>, t: Thread, c: ChatLog.Codec, part: seq<byte>, val: Thread)
    requires ChatLog.Inverts(c, buf)
    requires StorableThread(t) && part == ThreadBytes(t, c) && val == ReloadedThread(t)
    ensures ChatLog.Decodes(buf, FileVersion, c, ReadThread, part, val)
  {
    forall off: nat | ChatLog.Enc(buf, off, part)
      ensures ChatLog.At(ReadThread(buf, off, FileVersion, c), val, off + |part|)
    {
      ReadThreadInverse(buf, off, t, c);
    }
  }

  /** The threads as they come back from the file. */
  function ReloadedThreads(ts: seq<Thread>): (r: seq<Thread>)
    requires AllStorableThreads(ts)
    ensures |r| == |ts|
    ensures forall i :: 0 <= i < |ts| ==> r[i] == ReloadedThread(ts[i])
  {
    seq(|ts|, i requires 0 <= i < |ts| && StorableThread(ts[i]) => ReloadedThread(ts[i]))
  }

  lemma {:induction false} ThreadsDecode(buf: seq<byte>, ts: seq<Thread>, c: ChatLog.Codec)
    requires ChatLog.Inverts(c, buf)
    requires AllStorableThreads(ts)
    ensures ChatLog.ItemsDecode(buf, FileVersion, c, ReadThread, ThreadParts(ts, c), ReloadedThreads(ts))
  {
    var parts, vals := ThreadParts(ts, c), ReloadedThreads(ts);
    forall i | 0 <= i < |vals|
      ensures ChatLog.Decodes(buf, FileVersion, c, ReadThread, parts[i], vals[i])
    {
      ThreadDecodes(buf, ts[i], c, parts[i], vals[i]);
    }
  }

  lemma {:induction false} ReadThreadsInverse(buf: seq<byte>, off: nat, ts: seq<Thread>, c: ChatLog.Codec, parts: seq<seq<byte>>)
    requires ChatLog.Inverts(c, buf)
    requires AllStorableThreads(ts) && parts == ThreadParts(ts, c)
    requires ChatLog.Enc(buf, off, ChatLog.Flatten(parts))
    ensures ReadThreads(buf, off, |ts|, c) == Some((ReloadedThreads(ts), off + |ChatLog.Flatten(parts)|))
  {
    ThreadsDecode(buf, ts, c);
    ChatLog.ReadItemsInverse(buf, off, |ts|, FileVersion, c, ReadThread, parts, ReloadedThreads(ts));
  }

  /** Magic, version and thread count of a file written at offset 0 read back, each field `k` ending at `ok`. */
  lemma {:induction false} FileHeadInverse(buf: seq<byte>, c: ChatLog.Codec, count: int32, threadBytes: seq<byte>,
                                           o1: nat, o2: nat, o3: nat)
    requires ChatLog.Inverts(c, buf)
    requires o1 == |c.stringBytes(FileMagic)| && o2 == o1 + |c.intBytes(FileVersion)| && o3 == o2 + |c.intBytes(count)|
    requires ChatLog.Enc(buf, 0, c.stringBytes(FileMagic) + c.intBytes(FileVersion) + c.intBytes(count) + threadBytes)
    ensures ChatLog.At(c.readString(buf, 0), FileMagic, o1) && ChatLog.At(c.readInt(buf, o1), FileVersion, o2)
    ensures ChatLog.At(c.readInt(buf, o2), count, o3)
    ensures ChatLog.Enc(buf, o3, threadBytes)
  {
    ChatLog.Split4(buf, 0, c.stringBytes(FileMagic), c.intBytes(FileVersion), c.intBytes(count), threadBytes);
    ChatLog.StringBack(c, buf, 0, FileMagic);
    ChatLog.IntBack(c, buf, o1, FileVersion);
    ChatLog.IntBack(c, buf, o2, count);
  }

  lemma {:induction false} LoadFromParts(buf: seq<byte>, c: ChatLog.Codec, count: int32, ts: seq<Thread>,
                                         o1: nat, o2: nat, o3: nat, n: nat)
    requires ChatLog.At(c.readString(buf, 0), FileMagic, o1) && ChatLog.At(c.readInt(buf, o1), FileVersion, o2)
    requires ChatLog.At(c.readInt(buf, o2), count, o3)
    requires n == ChatLog.AtLeastZero(count)
    requires ReadThreads(buf, o3, n, c).Some? && ReadThreads(buf, o3, n, c).value.0 == ts
    ensures LoadThreads(buf, c) == Loaded(WithGeneral(Emplace(map[], ts)), GeneralId)
  {
  }

  /** A thread whose id is not there yet is added under its id. */
  lemma {:induction false} EmplaceLast(ts: seq<Thread>)
    requires ts != [] && ts[|ts| - 1].id !in Ids(ts[..|ts| - 1])
    ensures Emplace(map[], ts) == Emplace(map[], ts[..|ts| - 1])[ts[|ts| - 1].id := ts[|ts| - 1]]
  {
  }

  /** Emplacing threads with distinct ids keeps each of them under its id. */
  lemma {:induction false} EmplaceDistinct(ts: seq<Thread>)
    requires forall i, j :: 0 <= i < j < |ts| ==> ts[i].id != ts[j].id
    ensures forall i :: 0 <= i < |ts| ==> Emplace(map[], ts)[ts[i].id] == ts[i]
  {
    if ts != [] {
      var n := |ts| - 1;
      var init := ts[..n];
      forall i | 0 <= i < n
        ensures init[i].id != ts[n].id
      {
        assert init[i] == ts[i];
      }
      EmplaceDistinct(init);
      assert ts[n].id !in Ids(init);
      var m := Emplace(map[], init);
      EmplaceLast(ts);
      forall i | 0 <= i < n
        ensures m[ts[n].id := ts[n]][ts[i].id] == ts[i]
      {
        assert init[i] == ts[i];
      }
    }
  }

  /** The store as it comes back from the file: every thread with whole-second timestamps. */
  function ReloadedStore(threads: map<CString, Thread>): (r: map<CString, Thread>)
    requires StorableThreads(threads)
    ensures r.Keys == threads.Keys
    ensures forall k :: k in threads ==> r[k] == ReloadedThread(threads[k])
  {
    map k | k in threads :: ReloadedThread(threads[k])
  }

  /** Thread `i` read back is the thread saved under key `order[i]`, and carries that key as its id. */
  lemma {:induction false} ReloadedVisit(threads: map<CString, Thread>, order: seq<CString>)
    requires Enumerates(order, threads) && StorableThreads(threads)
    requires forall k :: k in threads ==> threads[k].id == k
    ensures AllStorableThreads(Visit(threads, order))
    ensures forall i :: 0 <= i < |order| ==>
      ReloadedThreads(Visit(threads, order))[i] == ReloadedThread(threads[order[i]])
      && ReloadedThreads(Visit(threads, order))[i].id == order[i]
  {
  }

  /** Two maps with the same keys and the same value under each key are equal. */
  lemma {:induction false} SameMap(m: map<CString, Thread>, n: map<CString, Thread>)
    requires forall k :: k in m ==> k in n
    requires forall k :: k in n ==> k in m && m[k] == n[k]
    ensures m == n
  {
    assert m.Keys == n.Keys;
  }

  /** Reading back the threads in visiting order rebuilds the store, each thread under its own id. */
  lemma {:induction false} RebuildStore(threads: map<CString, Thread>, order: seq<CString>, rs: seq<Thread>)
    requires Enumerates(order, threads) && StorableThreads(threads)
    requires forall k :: k in threads ==> threads[k].id == k
    requires AllStorableThreads(Visit(threads, order)) && rs == ReloadedThreads(Visit(threads, order))
    ensures Emplace(map[], rs) == ReloadedStore(threads)
  {
    ReloadedVisit(threads, order);
    EmplaceDistinct(rs);
    var m := Emplace(map[], rs);
    forall k | k in threads
      ensures k in m && m[k] == ReloadedStore(threads)[k]
    {
      var i :| 0 <= i < |order| && order[i] == k;
      assert rs[i].id == k;
    }
    forall k | k in m
      ensures k in threads
    {
      assert k in Ids(rs);
      var i :| 0 <= i < |rs| && rs[i].id == k;
    }
    SameMap(m, ReloadedStore(threads));
  }

  /** A file written at offset 0 from threads `ts` reads back as those threads, emplaced, with General ensured. */
  lemma {:induction false} LoadFrom(buf: seq<byte>, c: ChatLog.Codec, ts: seq<Thread>)
    requires AllStorableThreads(ts) && |ts| < 0x8000_0000
    requires ChatLog.Inverts(c, buf)
    requires buf == c.stringBytes(FileMagic) + c.intBytes(FileVersion) + c.intBytes(CastToInt(|ts|)) + ChatLog.Flatten(ThreadParts(ts, c))
    ensures LoadThreads(buf, c) == Loaded(WithGeneral(Emplace(map[], ReloadedThreads(ts))), GeneralId)
  {
    var count := CastToInt(|ts|);
    var o1 := |c.stringBytes(FileMagic)|;
    var o2 := o1 + |c.intBytes(FileVersion)|;
    var o3 := o2 + |c.intBytes(count)|;
    ChatLog.EncWhole(buf);
    FileHeadInverse(buf, c, count, ChatLog.Flatten(ThreadParts(ts, c)), o1, o2, o3);
    ReadThreadsInverse(buf, o3, ts, c, ThreadParts(ts, c));
    assert ChatLog.AtLeastZero(count) == |ts|;
    LoadFromParts(buf, c, count, ReloadedThreads(ts), o1, o2, o3, |ts|);
  }

  /**
   * loadFromFile reads back what saveToFile wrote, for any codec that
   * inverts its own encoders: every saved thread comes back under its id
   * with its name, participants and messages, timestamps cut to whole
   * seconds; General is ensured and active.
   */
  lemma {:induction false} LoadInverse(threads: map<CString, Thread>, order: seq<CString>, c: ChatLog.Codec)
    requires Enumerates(order, threads) && StorableThreads(threads)
    requires forall k :: k in threads ==> threads[k].id == k
    requires |order| < 0x8000_0000
    requires ChatLog.Inverts(c, FileBytes(threads, order, c))
    ensures LoadThreads(FileBytes(threads, order, c), c) == Loaded(WithGeneral(ReloadedStore(threads)), GeneralId)
  {
    ReloadedVisit(threads, order);
    RebuildStore(threads, order, ReloadedThreads(Visit(threads, order)));
    LoadFrom(FileBytes(threads, order, c), c, Visit(threads, order));
  }

  /** The same for the serializer the chat file is written with. */
  lemma {:induction false} SaveThenLoad(threads: map<CString, Thread>, order: seq<CString>)
    requires Enumerates(order, threads) && StorableThreads(threads)
    requires forall k :: k in threads ==> threads[k].id == k
    requires |order| < 0x8000_0000
    ensures LoadThreads(FileBytes(threads, order, ChatLog.Wire()), ChatLog.Wire())
         == Loaded(WithGeneral(ReloadedStore(threads)), GeneralId)
  {
    ChatLog.WireInverts(FileBytes(threads, order, ChatLog.Wire()));
    LoadInverse(threads, order, ChatLog.Wire());
  }
}
