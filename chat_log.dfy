/**
 * The chat log file of src/ChatManager.cpp (saveLog / loadLog): the magic
 * string "RUNIC-CHAT-GROUPS", the version int 2, the group count, then per
 * group its id, name, owner, participants (in std::set order), messages
 * (kind, sender, username, content, whole-second timestamp) and unread
 * counter, all in the encodings of include/Serializer.h.
 *
 * The order in which saveLog visits groups_ is the container's iteration
 * order, which the model takes as a parameter (`order`, listing each key
 * once).  Where loadLog would read past the end of the buffer (the
 * deserializers do no bounds checks) the decoder reports Overrun: that
 * input is outside what the source defines.
 */
module ChatLog {
  import opened CTypes
  import opened Wrappers
  import opened Serializer
  import opened ChatGroups

  const Magic: CString := "RUNIC-CHAT-GROUPS"

  // ---------------------------------------------------------------------
  // std::set<std::string> order
  // ---------------------------------------------------------------------

  /** std::string's operator< : lexicographic on unsigned characters, a proper prefix first. */
  predicate Below(a: CString, b: CString)
  {
    if a == [] then b != []
    else if b == [] then false
    else a[0] < b[0] || (a[0] == b[0] && Below(a[1..], b[1..]))
  }

  lemma {:induction false} BelowIrreflexive(a: CString)
    ensures !Below(a, a)
  {
    if a != [] {
      BelowIrreflexive(a[1..]);
    }
  }

  lemma {:induction false} BelowTransitive(a: CString, b: CString, c: CString)
    requires Below(a, b) && Below(b, c)
    ensures Below(a, c)
  {
    if a != [] && a[0] == b[0] && b[0] == c[0] {
      BelowTransitive(a[1..], b[1..], c[1..]);
    }
  }

  lemma {:induction false} BelowTotal(a: CString, b: CString)
    requires a != b
    ensures Below(a, b) || Below(b, a)
  {
    if a != [] && b != [] && a[0] == b[0] {
      assert a == [a[0]] + a[1..] && b == [b[0]] + b[1..];
      BelowTotal(a[1..], b[1..]);
    }
  }

  /** `m` is the first element of `s` in set order. */
  predicate Least(m: CString, s: set<CString>)
  {
    m in s && forall x :: x in s ==> !Below(x, m)
  }

  lemma {:induction false} LeastExists(s: set<CString>)
    requires s != {}
    ensures exists m :: Least(m, s)
    decreases |s|
  {
    var y :| y in s;
    var rest := s - {y};
    if rest == {} {
      assert s == {y};
      BelowIrreflexive(y);
      assert Least(y, s);
    } else {
      LeastExists(rest);
      var m :| Least(m, rest);
      if Below(y, m) {
        forall x | x in s
          ensures !Below(x, y)
        {
          if x == y {
            BelowIrreflexive(y);
          } else if Below(x, y) {
            BelowTransitive(x, y, m);
          }
        }
        assert Least(y, s);
      } else {
        assert Least(m, s);
      }
    }
  }

  lemma {:induction false} LeastUnique(m: CString, n: CString, s: set<CString>)
    requires Least(m, s) && Least(n, s)
    ensures m == n
  {
    if m != n {
      BelowTotal(m, n);
    }
  }

  /** The elements of a participant set in the order a range-for over std::set visits them. */
  ghost function SetOrder(s: set<CString>): (r: seq<CString>)
    ensures |r| == |s|
    ensures forall x :: x in r <==> x in s
    ensures forall i, j :: 0 <= i < j < |r| ==> Below(r[i], r[j])
    decreases |s|
  {
    if s == {} then []
    else
      LeastExists(s);
      var m :| Least(m, s);
      var rest := SetOrder(s - {m});
      assert forall x :: x in rest ==> Below(m, x) by {
        forall x | x in rest
          ensures Below(m, x)
        {
          BelowTotal(m, x);
        }
      }
      [m] + rest
  }

  lemma {:induction false} SetOrderFirst(s: set<CString>, m: CString)
    requires Least(m, s)
    ensures SetOrder(s) == [m] + SetOrder(s - {m})
  {
    var m' :| Least(m', s) && SetOrder(s) == [m'] + SetOrder(s - {m'});
    LeastUnique(m, m', s);
  }

  // ---------------------------------------------------------------------
  // The serializer the log is written with
  // ---------------------------------------------------------------------

  /**
   * The three encoders and decoders the chat log is made of: serializeInt,
   * serializeUInt64 and serializeString, and their deserializers.  The file
   * format below is defined over any codec; Wire() is the one of
   * include/Serializer.h.
   */
  datatype Codec = Codec(
    intBytes: int32 -> seq<byte>,
    u64Bytes: u64 -> seq<byte>,
    stringBytes: CString -> seq<byte>,
    readInt: (seq<byte>, nat) -> Option<(int32, nat)>,
    readU64: (seq<byte>, nat) -> Option<(u64, nat)>,
    readString: (seq<byte>, nat) -> Option<(CString, nat)>)

  function Wire(): Codec
  {
    Codec(IntBytes, U64Bytes, StringBytes, TryInt, TryU64, TryString)
  }

  /**
   * `bytes` sit in `buf` from `off` on. This is EncodedAt behind one level of
   * recursion, so that the proofs below see it as a plain fact about the
   * three values and unfold it only through EncIsEncodedAt.
   */
  ghost predicate Enc(buf: seq<byte>, off: nat, bytes: seq<byte>)
  {
    Within(buf, off, bytes, |buf| + 1)
  }

  ghost predicate Within(buf: seq<byte>, off: nat, bytes: seq<byte>, depth: nat)
    decreases depth
  {
    if depth == 0 then EncodedAt(buf, off, bytes) else Within(buf, off, bytes, depth - 1)
  }

  lemma {:induction false} WithinIsEncodedAt(buf: seq<byte>, off: nat, bytes: seq<byte>, depth: nat)
    ensures Within(buf, off, bytes, depth) <==> EncodedAt(buf, off, bytes)
    decreases depth
  {
    if depth > 0 {
      WithinIsEncodedAt(buf, off, bytes, depth - 1);
    }
  }

  lemma {:induction false} EncIsEncodedAt(buf: seq<byte>, off: nat, bytes: seq<byte>)
    ensures Enc(buf, off, bytes) <==> EncodedAt(buf, off, bytes)
  {
    WithinIsEncodedAt(buf, off, bytes, |buf| + 1);
  }

  lemma {:induction false} EncSplit(buf: seq<byte>, off: nat, a: seq<byte>, b: seq<byte>)
    requires Enc(buf, off, a + b)
    ensures Enc(buf, off, a) && Enc(buf, off + |a|, b)
  {
    EncIsEncodedAt(buf, off, a + b);
    EncodedAtSplit(buf, off, a, b);
    EncIsEncodedAt(buf, off, a);
    EncIsEncodedAt(buf, off + |a|, b);
  }

  /** A read that yields `v` and leaves the offset at `end`. */
  ghost predicate At<T>(r: Option<(T, nat)>, v: T, end: nat)
  {
    r == Some((v, end))
  }

  lemma {:induction false} AtSame<T>(r: Option<(T, nat)>, v: T, end: nat, v': T, end': nat)
    requires At(r, v, end) && v == v' && end == end'
    ensures At(r, v', end')
  {
  }

  predicate Short(s: CString)
  {
    |s| < 0x8000_0000
  }

  /**
   * Whatever `c` writes anywhere in `buf` (a string shorter than 2^31), `c` reads back.
   * Held behind InvertsWithin, like Enc, so that only IntBack, U64Back and
   * StringBack see the three quantifiers.
   */
  ghost predicate Inverts(c: Codec, buf: seq<byte>)
  {
    InvertsWithin(c, buf, |buf| + 1)
  }

  ghost predicate InvertsWithin(c: Codec, buf: seq<byte>, depth: nat)
    decreases depth
  {
    if depth == 0 then Inverses(c, buf) else InvertsWithin(c, buf, depth - 1)
  }

  lemma {:induction false} InvertsWithinIs(c: Codec, buf: seq<byte>, depth: nat)
    ensures InvertsWithin(c, buf, depth) <==> Inverses(c, buf)
    decreases depth
  {
    if depth > 0 {
      InvertsWithinIs(c, buf, depth - 1);
    }
  }

  ghost predicate Inverses(c: Codec, buf: seq<byte>)
  {
    (forall off: nat, v :: Enc(buf, off, c.intBytes(v)) ==> At(c.readInt(buf, off), v, off + |c.intBytes(v)|))
    && (forall off: nat, v :: Enc(buf, off, c.u64Bytes(v)) ==> At(c.readU64(buf, off), v, off + |c.u64Bytes(v)|))
    && (forall off: nat, s ::
          Short(s) && Enc(buf, off, c.stringBytes(s)) ==> At(c.readString(buf, off), s, off + |c.stringBytes(s)|))
  }

  lemma {:induction false} IntBack(c: Codec, buf: seq<byte>, off: nat, v: int32)
    requires Inverts(c, buf) && Enc(buf, off, c.intBytes(v))
    ensures At(c.readInt(buf, off), v, off + |c.intBytes(v)|)
  {
    InvertsWithinIs(c, buf, |buf| + 1);
  }

  lemma {:induction false} U64Back(c: Codec, buf: seq<byte>, off: nat, v: u64)
    requires Inverts(c, buf) && Enc(buf, off, c.u64Bytes(v))
    ensures At(c.readU64(buf, off), v, off + |c.u64Bytes(v)|)
  {
    InvertsWithinIs(c, buf, |buf| + 1);
  }

  lemma {:induction false} StringBack(c: Codec, buf: seq<byte>, off: nat, s: CString)
    requires Inverts(c, buf) && Short(s) && Enc(buf, off, c.stringBytes(s))
    ensures At(c.readString(buf, off), s, off + |c.stringBytes(s)|)
  {
    InvertsWithinIs(c, buf, |buf| + 1);
  }

  lemma {:induction false} WireInverts(buf: seq<byte>)
    ensures Inverts(Wire(), buf)
  {
    forall off: nat, v | Enc(buf, off, IntBytes(v))
      ensures At(TryInt(buf, off), v, off + |IntBytes(v)|)
    {
      EncIsEncodedAt(buf, off, IntBytes(v));
      ReadIntInverse(buf, off, v);
    }
    forall off: nat, v | Enc(buf, off, U64Bytes(v))
      ensures At(TryU64(buf, off), v, off + |U64Bytes(v)|)
    {
      EncIsEncodedAt(buf, off, U64Bytes(v));
      ReadU64Inverse(buf, off, v);
    }
    forall off: nat, s | Short(s) && Enc(buf, off, StringBytes(s))
      ensures At(TryString(buf, off), s, off + |StringBytes(s)|)
    {
      EncIsEncodedAt(buf, off, StringBytes(s));
      ReadStringInverse(buf, off, s);
    }
    InvertsWithinIs(Wire(), buf, |buf| + 1);
  }

  /** Byte strings written one after another. */
  function Flatten(parts: seq<seq<byte>>): (r: seq<byte>)
  {
    if parts == [] then [] else Flatten(parts[..|parts| - 1]) + parts[|parts| - 1]
  }

  // ---------------------------------------------------------------------
  // The bytes saveLog writes
  // ---------------------------------------------------------------------

  /** The int a Kind is written as: its enumerator's index, or the raw value it was cast from. */
  function KindCode(k: Kind): int
  {
    match k
    case Text => 0
    case Image => 1
    case Link => 2
    case Unnamed(c) => c
  }

  /** `(ChatMessageModel::Kind)int`. */
  function KindOfCode(c: int): (k: Kind)
    ensures KindCode(k) == c
  {
    if c == 0 then Text else if c == 1 then Image else if c == 2 then Link else Unnamed(c)
  }

  /** A kind the file can hold: a named one, or an unnamed int value outside 0..2. */
  predicate StorableKind(k: Kind)
  {
    k.Unnamed? ==> -0x8000_0000 <= k.code < 0x8000_0000 && !(0 <= k.code <= 2)
  }

  lemma {:induction false} KindRoundTrip(k: Kind)
    requires StorableKind(k)
    ensures KindOfCode(KindCode(k)) == k
  {
  }

  /** `(uint64_t)m.ts` is defined for timestamps in [0, 2^64); it keeps the whole seconds. */
  predicate StorableMessage(m: Message)
  {
    StorableKind(m.kind) && Short(m.senderUniqueId) && Short(m.username) && Short(m.content)
    && 0.0 <= m.ts < U64_MODULUS as real
  }

  function WholeSeconds(ts: real): (r: u64)
    requires 0.0 <= ts < U64_MODULUS as real
    ensures r as real <= ts < r as real + 1.0
  {
    ts.Floor
  }

  /** A message: kind, sender, username, content, whole-second timestamp. */
  function MessageBytes(m: Message, c: Codec): seq<byte>
    requires StorableMessage(m)
  {
    RecordBytes(KindCode(m.kind), m.senderUniqueId, m.username, m.content, WholeSeconds(m.ts), c)
  }

  /** The five fields of a message record, in the order they are written. */
  function RecordBytes(code: int32, uid: CString, user: CString, content: CString, t: u64, c: Codec): seq<byte>
  {
    c.intBytes(code) + c.stringBytes(uid) + c.stringBytes(user) + c.stringBytes(content) + c.u64Bytes(t)
  }

  predicate AllStorableMessages(ms: seq<Message>)
  {
    forall i :: 0 <= i < |ms| ==> StorableMessage(ms[i])
  }

  function MessageParts(ms: seq<Message>, c: Codec): (parts: seq<seq<byte>>)
    requires AllStorableMessages(ms)
    ensures |parts| == |ms| && forall i :: 0 <= i < |ms| ==> parts[i] == MessageBytes(ms[i], c)
  {
    seq(|ms|, i requires 0 <= i < |ms| && StorableMessage(ms[i]) => MessageBytes(ms[i], c))
  }

  function StringParts(ps: seq<CString>, c: Codec): (parts: seq<seq<byte>>)
    ensures |parts| == |ps| && forall i :: 0 <= i < |ps| ==> parts[i] == c.stringBytes(ps[i])
  {
    seq(|ps|, i requires 0 <= i < |ps| => c.stringBytes(ps[i]))
  }

  /** A group the file can hold: short strings, fewer than 2^31 participants and messages, storable messages. */
  predicate StorableGroup(g: Group)
  {
    Short(g.name) && Short(g.ownerUniqueId)
    && |g.participants| < 0x8000_0000 && (forall p :: p in g.participants ==> Short(p))
    && |g.messages| < 0x8000_0000 && AllStorableMessages(g.messages)
  }

  /**
   * A group: id, name, owner, the participant count and the participants in
   * set order, the message count and the messages, and the unread counter
   * as an int.
   */
  ghost function GroupBytes(g: Group, c: Codec): seq<byte>
    requires StorableGroup(g)
  {
    GroupRecordBytes(g.id, g.name, g.ownerUniqueId, SetOrder(g.participants), g.messages, Signed32(g.unread), c)
  }

  /** The eight fields of a group record, in the order they are written. */
  function GroupRecordBytes(id: u64, name: CString, owner: CString, ps: seq<CString>, ms: seq<Message>, unread: int32,
                            c: Codec): seq<byte>
    requires AllStorableMessages(ms)
  {
    GroupLayout(id, name, owner, ps, ms, unread, c, |ps| + 1)
  }

  /**
   * GroupRecordBytes behind `depth` levels of recursion, so that a proof sees
   * a group record as one value until it takes it apart with GroupLayoutIs.
   */
  function GroupLayout(id: u64, name: CString, owner: CString, ps: seq<CString>, ms: seq<Message>, unread: int32,
                       c: Codec, depth: nat): seq<byte>
    requires AllStorableMessages(ms)
    decreases depth
  {
    if depth > 0 then GroupLayout(id, name, owner, ps, ms, unread, c, depth - 1)
    else
      (c.u64Bytes(id) + c.stringBytes(name) + c.stringBytes(owner))
      + (c.intBytes(CastToInt(|ps|)) + Flatten(StringParts(ps, c)))
      + (c.intBytes(CastToInt(|ms|)) + Flatten(MessageParts(ms, c)))
      + c.intBytes(unread)
  }

  lemma {:induction false} GroupLayoutIs(id: u64, name: CString, owner: CString, ps: seq<CString>, ms: seq<Message>,
                                         unread: int32, c: Codec, depth: nat)
    requires AllStorableMessages(ms)
    ensures GroupLayout(id, name, owner, ps, ms, unread, c, depth)
         == (c.u64Bytes(id) + c.stringBytes(name) + c.stringBytes(owner))
            + (c.intBytes(CastToInt(|ps|)) + Flatten(StringParts(ps, c)))
            + (c.intBytes(CastToInt(|ms|)) + Flatten(MessageParts(ms, c)))
            + c.intBytes(unread)
    decreases depth
  {
    if depth > 0 {
      GroupLayoutIs(id, name, owner, ps, ms, unread, c, depth - 1);
    }
  }

  predicate AllStorableGroups(gs: seq<Group>)
  {
    forall i :: 0 <= i < |gs| ==> StorableGroup(gs[i])
  }

  ghost function GroupParts(gs: seq<Group>, c: Codec): (parts: seq<seq<byte>>)
    requires AllStorableGroups(gs)
    ensures |parts| == |gs| && forall i :: 0 <= i < |gs| ==> parts[i] == GroupBytes(gs[i], c)
  {
    seq(|gs|, i requires 0 <= i < |gs| && StorableGroup(gs[i]) => GroupBytes(gs[i], c))
  }

  /** `order` lists every key of `groups` exactly once. */
  predicate Enumerates(order: seq<u64>, groups: map<u64, Group>)
  {
    (forall i :: 0 <= i < |order| ==> order[i] in groups)
    && (forall k :: k in groups ==> k in order)
    && (forall i, j :: 0 <= i < j < |order| ==> order[i] != order[j])
  }

  predicate StorableGroups(groups: map<u64, Group>)
  {
    forall k :: k in groups ==> StorableGroup(groups[k])
  }

  /** The groups of the store in the order saveLog visits them. */
  function Visit(groups: map<u64, Group>, order: seq<u64>): (gs: seq<Group>)
    requires forall i :: 0 <= i < |order| ==> order[i] in groups
    ensures |gs| == |order| && forall i :: 0 <= i < |order| ==> gs[i] == groups[order[i]]
  {
    seq(|order|, i requires 0 <= i < |order| => groups[order[i]])
  }

  const Version: int32 := 2

  /** The whole file saveLog writes for `groups` visited in `order`: magic, version, count, groups. */
  ghost function LogBytes(groups: map<u64, Group>, order: seq<u64>, c: Codec): seq<byte>
    requires Enumerates(order, groups) && StorableGroups(groups)
  {
    c.stringBytes(Magic) + c.intBytes(Version) + c.intBytes(CastToInt(|order|))
    + Flatten(GroupParts(Visit(groups, order), c))
  }

  // ---------------------------------------------------------------------
  // What loadLog reads
  // ---------------------------------------------------------------------

  /** Reads one item (a participant, a message, a group) at an offset, for a file of the given version. */
  type ItemReader<T> = (seq<byte>, nat, int32, Codec) -> Option<(T, nat)>

  /** `n` items read one after another from `off`: the body of a counted for-loop. */
  function ReadItems<T>(buf: seq<byte>, off: nat, n: nat, version: int32, c: Codec, item: ItemReader<T>)
    : Option<(seq<T>, nat)>
  {
    if n == 0 then Some(([], off))
    else match ReadItems(buf, off, n - 1, version, c, item)
      case None => None
      case Some((xs, o)) =>
        match item(buf, o, version, c)
        case None => None
        case Some((x, o')) => Some((xs + [x], o'))
  }

  /** The participant loop of loadLog. */
  function ReadParticipants(buf: seq<byte>, off: nat, n: nat, version: int32, c: Codec): Option<(seq<CString>, nat)>
  {
    ReadItems(buf, off, n, version, c, ReadParticipant)
  }

  /** The message loop of loadLog. */
  function ReadMessages(buf: seq<byte>, off: nat, n: nat, version: int32, c: Codec): Option<(seq<Message>, nat)>
  {
    ReadItems(buf, off, n, version, c, ReadMessage)
  }

  /** The group loop of loadLog. */
  function ReadGroups(buf: seq<byte>, off: nat, n: nat, version: int32, c: Codec): Option<(seq<Group>, nat)>
  {
    ReadItems(buf, off, n, version, c, ReadGroup)
  }

  function ReadParticipant(buf: seq<byte>, off: nat, version: int32, c: Codec): Option<(CString, nat)>
  {
    c.readString(buf, off)
  }

  /** One message: kind, sender (only from version 2 on), then the rest. */
  function ReadMessage(buf: seq<byte>, off: nat, version: int32, c: Codec): Option<(Message, nat)>
  {
    match c.readInt(buf, off)
    case None => None
    case Some((code, o1)) =>
      match ReadSender(buf, o1, version, c)
      case None => None
      case Some((uid, o2)) => ReadMessageRest(buf, o2, KindOfCode(code), uid, c)
  }

  /** Before version 2 there is no sender field and the sender is empty. */
  function ReadSender(buf: seq<byte>, off: nat, version: int32, c: Codec): Option<(CString, nat)>
  {
    if version >= 2 then c.readString(buf, off) else Some(([], off))
  }

  /** Username, content and the whole-second timestamp of a message. */
  function ReadMessageRest(buf: seq<byte>, off: nat, kind: Kind, uid: CString, c: Codec): Option<(Message, nat)>
  {
    match c.readString(buf, off)
    case None => None
    case Some((user, o1)) =>
      match c.readString(buf, o1)
      case None => None
      case Some((content, o2)) =>
        match c.readU64(buf, o2)
        case None => None
        case Some((ts, o3)) => Some((Message(kind, uid, user, content, ts as real), o3))
  }

  function Elements(ps: seq<CString>): (r: set<CString>)
    ensures forall x :: x in r <==> x in ps
  {
    set p | p in ps
  }

  /** A for-loop up to a negative int count runs zero times. */
  function AtLeastZero(n: int32): (r: nat)
    ensures n >= 0 ==> r == n
    ensures n < 0 ==> r == 0
  {
    if n < 0 then 0 else n
  }

  /** One group: the for-loops over a negative count run zero times; the unread int is cast back to uint32. */
  function ReadGroup(buf: seq<byte>, off: nat, version: int32, c: Codec): Option<(Group, nat)>
  {
    match c.readU64(buf, off)
    case None => None
    case Some((id, o1)) =>
      match c.readString(buf, o1)
      case None => None
      case Some((name, o2)) =>
        match c.readString(buf, o2)
        case None => None
        case Some((owner, o3)) =>
          match c.readInt(buf, o3)
          case None => None
          case Some((pc, o4)) =>
            match ReadParticipants(buf, o4, AtLeastZero(pc), version, c)
            case None => None
            case Some((ps, o5)) =>
              match c.readInt(buf, o5)
              case None => None
              case Some((mc, o6)) =>
                match ReadMessages(buf, o6, AtLeastZero(mc), version, c)
                case None => None
                case Some((ms, o7)) =>
                  match c.readInt(buf, o7)
                  case None => None
                  case Some((unread, o8)) =>
                    Some((Group(id, name, owner, Elements(ps), ms, Unsigned32(unread)), o8))
  }

  /** The ids of `gs`. */
  function Ids(gs: seq<Group>): (r: set<u64>)
    ensures forall i :: 0 <= i < |gs| ==> gs[i].id in r
    ensures forall k :: k in r ==> exists i :: 0 <= i < |gs| && gs[i].id == k
  {
    if gs == [] then {} else Ids(gs[..|gs| - 1]) + {gs[|gs| - 1].id}
  }

  /** groups_.emplace for each group read, in order: the first group with a given id wins. */
  function Emplace(groups: map<u64, Group>, gs: seq<Group>): (r: map<u64, Group>)
    ensures r.Keys == groups.Keys + Ids(gs)
    ensures forall k :: k in groups ==> r[k] == groups[k]
  {
    if gs == [] then groups
    else
      var m := Emplace(groups, gs[..|gs| - 1]);
      var g := gs[|gs| - 1];
      if g.id in m then m else m[g.id := g]
  }

  datatype LoadResult =
    | BadMagic
    | Overrun
    | Loaded(groups: map<u64, Group>, activeGroupId: u64)

  /** What loadLog leaves in the store once the groups are read: General ensured, the active group kept if it exists. */
  function Adopt(groups: map<u64, Group>, activeGroupId: u64, generalGroupId: u64): (r: LoadResult)
    ensures r.Loaded? && generalGroupId in r.groups && r.activeGroupId in r.groups
    ensures r.groups.Keys == groups.Keys + {generalGroupId}
    ensures activeGroupId in r.groups ==> r.activeGroupId == activeGroupId
    ensures activeGroupId !in r.groups ==> r.activeGroupId == generalGroupId
  {
    var gs := EnsureGeneral(groups, generalGroupId);
    Loaded(gs, if activeGroupId in gs then activeGroupId else generalGroupId)
  }

  /**
   * loadLog: a wrong magic string fails and leaves the store alone;
   * otherwise the version and count are read, then the groups.
   */
  function LoadLog(buf: seq<byte>, activeGroupId: u64, generalGroupId: u64, c: Codec): (r: LoadResult)
    ensures r.Loaded? ==> generalGroupId in r.groups && r.activeGroupId in r.groups
    ensures r.Loaded? && activeGroupId in r.groups ==> r.activeGroupId == activeGroupId
    ensures c.readString(buf, 0).Some? && c.readString(buf, 0).value.0 != Magic ==> r == BadMagic
  {
    match c.readString(buf, 0)
    case None => Overrun
    case Some((magic, o1)) =>
      if magic != Magic then BadMagic
      else match c.readInt(buf, o1)
        case None => Overrun
        case Some((version, o2)) =>
          match c.readInt(buf, o2)
          case None => Overrun
          case Some((count, o3)) =>
            match ReadGroups(buf, o3, AtLeastZero(count), version, c)
            case None => Overrun
            case Some((gs, _)) => Adopt(Emplace(map[], gs), activeGroupId, generalGroupId)
  }

  // ---------------------------------------------------------------------
  // Round trip
  // ---------------------------------------------------------------------

  /** Wherever `part` is written in `buf`, `item` reads `val` back and stops right after it. */
  ghost predicate Decodes<T>(buf: seq<byte>, version: int32, c: Codec, item: ItemReader<T>, part: seq<byte>, val: T)
  {
    forall off: nat :: Enc(buf, off, part) ==> At(item(buf, off, version, c), val, off + |part|)
  }

  /** Part `i` decodes to value `i`, for every `i`. */
  ghost predicate ItemsDecode<T>(buf: seq<byte>, version: int32, c: Codec, item: ItemReader<T>,
                                 parts: seq<seq<byte>>, vals: seq<T>)
  {
    |parts| == |vals| && forall i :: 0 <= i < |vals| ==> Decodes(buf, version, c, item, parts[i], vals[i])
  }

  lemma {:induction false} ReadItemsInverse<T>(buf: seq<byte>, off: nat, count: nat, version: int32, c: Codec,
                                               item: ItemReader<T>, parts: seq<seq<byte>>, vals: seq<T>)
    requires count == |vals|
    requires ItemsDecode(buf, version, c, item, parts, vals)
    requires Enc(buf, off, Flatten(parts))
    ensures ReadItems(buf, off, count, version, c, item) == Some((vals, off + |Flatten(parts)|))
    decreases count
  {
    if vals != [] {
      var n := |vals| - 1;
      EncSplit(buf, off, Flatten(parts[..n]), parts[n]);
      assert ItemsDecode(buf, version, c, item, parts[..n], vals[..n]) by {
        forall i | 0 <= i < n
          ensures Decodes(buf, version, c, item, parts[..n][i], vals[..n][i])
        {
          assert parts[..n][i] == parts[i] && vals[..n][i] == vals[i];
        }
      }
      ReadItemsInverse(buf, off, n, version, c, item, parts[..n], vals[..n]);
      assert Decodes(buf, version, c, item, parts[n], vals[n]);
      assert At(item(buf, off + |Flatten(parts[..n])|, version, c), vals[n], off + |Flatten(parts[..n])| + |parts[n]|);
      assert vals[..n] + [vals[n]] == vals;
    }
  }

  /** A message as it comes back from the file: the timestamp cut to whole seconds. */
  function Reloaded(m: Message): (r: Message)
    requires 0.0 <= m.ts < U64_MODULUS as real
    ensures r.kind == m.kind && r.senderUniqueId == m.senderUniqueId && r.username == m.username && r.content == m.content
    ensures r.ts <= m.ts < r.ts + 1.0
  {
    m.(ts := WholeSeconds(m.ts) as real)
  }

  function ReloadedAll(ms: seq<Message>): (r: seq<Message>)
    requires AllStorableMessages(ms)
    ensures |r| == |ms|
    ensures forall i :: 0 <= i < |ms| ==> r[i] == Reloaded(ms[i])
  {
    seq(|ms|, i requires 0 <= i < |ms| && StorableMessage(ms[i]) => Reloaded(ms[i]))
  }

  function ReloadedGroup(g: Group): (r: Group)
    requires StorableGroup(g)
    ensures r.id == g.id && r.name == g.name && r.ownerUniqueId == g.ownerUniqueId
    ensures r.participants == g.participants && r.unread == g.unread
    ensures |r.messages| == |g.messages|
    ensures forall i :: 0 <= i < |g.messages| ==> r.messages[i] == Reloaded(g.messages[i])
  {
    g.(messages := ReloadedAll(g.messages))
  }

  lemma {:induction false} Split5(buf: seq<byte>, off: nat, a: seq<byte>, b: seq<byte>, c: seq<byte>, d: seq<byte>, e: seq<byte>)
    requires Enc(buf, off, a + b + c + d + e)
    ensures Enc(buf, off, a) && Enc(buf, off + |a|, b) && Enc(buf, off + |a| + |b|, c)
    ensures Enc(buf, off + |a| + |b| + |c|, d) && Enc(buf, off + |a| + |b| + |c| + |d|, e)
  {
    EncSplit(buf, off, a + b + c + d, e);
    EncSplit(buf, off, a + b + c, d);
    EncSplit(buf, off, a + b, c);
    EncSplit(buf, off, a, b);
  }

  lemma {:induction false} MessageFromParts(buf: seq<byte>, off: nat, c: Codec, code: int32, uid: CString, user: CString, content: CString,
                         ts: u64, o1: nat, o2: nat, o3: nat, o4: nat, o5: nat)
    requires At(c.readInt(buf, off), code, o1) && At(c.readString(buf, o1), uid, o2)
    requires At(c.readString(buf, o2), user, o3) && At(c.readString(buf, o3), content, o4)
    requires At(c.readU64(buf, o4), ts, o5)
    ensures At(ReadMessage(buf, off, Version, c), Message(KindOfCode(code), uid, user, content, ts as real), o5)
  {
    assert ReadSender(buf, o1, Version, c) == Some((uid, o2));
  }

  /** A record written at `off` reads back field by field. */
  lemma {:induction false} ReadRecordInverse(buf: seq<byte>, off: nat, c: Codec, code: int32, uid: CString, user: CString, content: CString, t: u64)
    requires Inverts(c, buf)
    requires Short(uid) && Short(user) && Short(content)
    requires Enc(buf, off, RecordBytes(code, uid, user, content, t, c))
    ensures At(ReadMessage(buf, off, Version, c), Message(KindOfCode(code), uid, user, content, t as real),
               off + |RecordBytes(code, uid, user, content, t, c)|)
  {
    var a, b, d, e, f := c.intBytes(code), c.stringBytes(uid), c.stringBytes(user), c.stringBytes(content), c.u64Bytes(t);
    Split5(buf, off, a, b, d, e, f);
    IntBack(c, buf, off, code);
    StringBack(c, buf, off + |a|, uid);
    StringBack(c, buf, off + |a| + |b|, user);
    StringBack(c, buf, off + |a| + |b| + |d|, content);
    U64Back(c, buf, off + |a| + |b| + |d| + |e|, t);
    MessageFromParts(buf, off, c, code, uid, user, content, t, off + |a|, off + |a| + |b|, off + |a| + |b| + |d|,
                     off + |a| + |b| + |d| + |e|, off + |a| + |b| + |d| + |e| + |f|);
    RecordLength(code, uid, user, content, t, c);
  }

  lemma {:induction false} RecordLength(code: int32, uid: CString, user: CString, content: CString, t: u64, c: Codec)
    ensures |RecordBytes(code, uid, user, content, t, c)|
         == |c.intBytes(code)| + |c.stringBytes(uid)| + |c.stringBytes(user)| + |c.stringBytes(content)| + |c.u64Bytes(t)|
  {
  }

  lemma {:induction false} ReadMessageInverse(buf: seq<byte>, off: nat, m: Message, c: Codec)
    requires Inverts(c, buf)
    requires StorableMessage(m)
    requires Enc(buf, off, MessageBytes(m, c))
    ensures At(ReadMessage(buf, off, Version, c), Reloaded(m), off + |MessageBytes(m, c)|)
  {
    ReadRecordInverse(buf, off, c, KindCode(m.kind), m.senderUniqueId, m.username, m.content, WholeSeconds(m.ts));
    KindRoundTrip(m.kind);
  }

  lemma {:induction false} MessageDecodes(buf: seq<byte>, m: Message, c: Codec, part: seq<byte>, val: Message)
    requires Inverts(c, buf)
    requires StorableMessage(m) && part == MessageBytes(m, c) && val == Reloaded(m)
    ensures Decodes(buf, Version, c, ReadMessage, part, val)
  {
    forall off: nat | Enc(buf, off, part)
      ensures At(ReadMessage(buf, off, Version, c), val, off + |part|)
    {
      ReadMessageInverse(buf, off, m, c);
    }
  }

  lemma {:induction false} MessagesDecode(buf: seq<byte>, ms: seq<Message>, c: Codec)
    requires Inverts(c, buf)
    requires AllStorableMessages(ms)
    ensures ItemsDecode(buf, Version, c, ReadMessage, MessageParts(ms, c), ReloadedAll(ms))
  {
    var parts, vals := MessageParts(ms, c), ReloadedAll(ms);
    forall i | 0 <= i < |vals|
      ensures Decodes(buf, Version, c, ReadMessage, parts[i], vals[i])
    {
      MessageDecodes(buf, ms[i], c, parts[i], vals[i]);
    }
  }

  lemma {:induction false} ReadMessagesInverse(buf: seq<byte>, off: nat, ms: seq<Message>, c: Codec, parts: seq<seq<byte>>)
    requires Inverts(c, buf)
    requires AllStorableMessages(ms) && parts == MessageParts(ms, c)
    requires Enc(buf, off, Flatten(parts))
    ensures ReadMessages(buf, off, |ms|, Version, c) == Some((ReloadedAll(ms), off + |Flatten(parts)|))
  {
    MessagesDecode(buf, ms, c);
    ReadItemsInverse(buf, off, |ms|, Version, c, ReadMessage, parts, ReloadedAll(ms));
  }

  lemma {:induction false} ParticipantDecodes(buf: seq<byte>, p: CString, c: Codec, part: seq<byte>)
    requires Inverts(c, buf)
    requires Short(p) && part == c.stringBytes(p)
    ensures Decodes(buf, Version, c, ReadParticipant, part, p)
  {
    forall off: nat | Enc(buf, off, part)
      ensures At(ReadParticipant(buf, off, Version, c), p, off + |part|)
    {
      StringBack(c, buf, off, p);
    }
  }

  lemma {:induction false} ParticipantsDecode(buf: seq<byte>, ps: seq<CString>, c: Codec)
    requires Inverts(c, buf)
    requires forall i :: 0 <= i < |ps| ==> Short(ps[i])
    ensures ItemsDecode(buf, Version, c, ReadParticipant, StringParts(ps, c), ps)
  {
    var parts := StringParts(ps, c);
    forall i | 0 <= i < |ps|
      ensures Decodes(buf, Version, c, ReadParticipant, parts[i], ps[i])
    {
      ParticipantDecodes(buf, ps[i], c, parts[i]);
    }
  }

  lemma {:induction false} ReadParticipantsInverse(buf: seq<byte>, off: nat, ps: seq<CString>, c: Codec, parts: seq<seq<byte>>)
    requires Inverts(c, buf)
    requires (forall i :: 0 <= i < |ps| ==> Short(ps[i])) && parts == StringParts(ps, c)
    requires Enc(buf, off, Flatten(parts))
    ensures ReadParticipants(buf, off, |ps|, Version, c) == Some((ps, off + |Flatten(parts)|))
  {
    ParticipantsDecode(buf, ps, c);
    ReadItemsInverse(buf, off, |ps|, Version, c, ReadParticipant, parts, ps);
  }

  lemma {:induction false} Split4(buf: seq<byte>, off: nat, a: seq<byte>, b: seq<byte>, c: seq<byte>, d: seq<byte>)
    requires Enc(buf, off, a + b + c + d)
    ensures Enc(buf, off, a) && Enc(buf, off + |a|, b) && Enc(buf, off + |a| + |b|, c) && Enc(buf, off + |a| + |b| + |c|, d)
  {
    EncSplit(buf, off, a + b + c, d);
    EncSplit(buf, off, a + b, c);
    EncSplit(buf, off, a, b);
  }

  /** The id, name and owner at the head of a group record, ending at `o1`, `o2` and `o3`. */
  lemma {:induction false} GroupHeadInverse(buf: seq<byte>, off: nat, c: Codec, id: u64, name: CString, owner: CString,
                         o1: nat, o2: nat, o3: nat)
    requires Inverts(c, buf)
    requires Short(name) && Short(owner)
    requires o1 == off + |c.u64Bytes(id)| && o2 == o1 + |c.stringBytes(name)| && o3 == o2 + |c.stringBytes(owner)|
    requires Enc(buf, off, c.u64Bytes(id) + c.stringBytes(name) + c.stringBytes(owner))
    ensures At(c.readU64(buf, off), id, o1) && At(c.readString(buf, o1), name, o2) && At(c.readString(buf, o2), owner, o3)
  {
    var a, b, d := c.u64Bytes(id), c.stringBytes(name), c.stringBytes(owner);
    EncSplit(buf, off, a + b, d);
    EncSplit(buf, off, a, b);
    U64Back(c, buf, off, id);
    StringBack(c, buf, o1, name);
    StringBack(c, buf, o2, owner);
  }

  /** A counted list: the int count, then the items. */
  lemma {:induction false} CountInverse(buf: seq<byte>, off: nat, c: Codec, n: nat, items: seq<byte>)
    requires Inverts(c, buf)
    requires Enc(buf, off, c.intBytes(CastToInt(n)) + items)
    ensures At(c.readInt(buf, off), CastToInt(n), off + |c.intBytes(CastToInt(n))|)
    ensures Enc(buf, off + |c.intBytes(CastToInt(n))|, items)
  {
    EncSplit(buf, off, c.intBytes(CastToInt(n)), items);
    IntBack(c, buf, off, CastToInt(n));
  }

  lemma {:induction false} GroupFromParts(buf: seq<byte>, off: nat, c: Codec, id: u64, name: CString, owner: CString,
                       ps: seq<CString>, ms: seq<Message>, unread: int32,
                       o1: nat, o2: nat, o3: nat, o4: nat, o5: nat, o6: nat, o7: nat, o8: nat)
    requires |ps| < 0x8000_0000 && |ms| < 0x8000_0000
    requires At(c.readU64(buf, off), id, o1) && At(c.readString(buf, o1), name, o2) && At(c.readString(buf, o2), owner, o3)
    requires At(c.readInt(buf, o3), CastToInt(|ps|), o4)
    requires ReadParticipants(buf, o4, |ps|, Version, c) == Some((ps, o5))
    requires At(c.readInt(buf, o5), CastToInt(|ms|), o6)
    requires ReadMessages(buf, o6, |ms|, Version, c) == Some((ms, o7))
    requires At(c.readInt(buf, o7), unread, o8)
    ensures At(ReadGroup(buf, off, Version, c), Group(id, name, owner, Elements(ps), ms, Unsigned32(unread)), o8)
  {
    assert AtLeastZero(CastToInt(|ps|)) == |ps| && AtLeastZero(CastToInt(|ms|)) == |ms|;
  }

  /** The participant count and the participants of a group record. */
  lemma {:induction false} CountedParticipantsInverse(buf: seq<byte>, c: Codec, ps: seq<CString>, parts: seq<seq<byte>>,
                                                     o3: nat, o4: nat, o5: nat)
    requires Inverts(c, buf)
    requires (forall i :: 0 <= i < |ps| ==> Short(ps[i])) && parts == StringParts(ps, c)
    requires o4 == o3 + |c.intBytes(CastToInt(|ps|))| && o5 == o4 + |Flatten(parts)|
    requires Enc(buf, o3, c.intBytes(CastToInt(|ps|)) + Flatten(parts))
    ensures At(c.readInt(buf, o3), CastToInt(|ps|), o4)
    ensures ReadParticipants(buf, o4, |ps|, Version, c) == Some((ps, o5))
  {
    CountInverse(buf, o3, c, |ps|, Flatten(parts));
    ReadParticipantsInverse(buf, o4, ps, c, parts);
  }

  /** The message count and the messages of a group record. */
  lemma {:induction false} CountedMessagesInverse(buf: seq<byte>, c: Codec, ms: seq<Message>, parts: seq<seq<byte>>,
                                                 o5: nat, o6: nat, o7: nat)
    requires Inverts(c, buf)
    requires AllStorableMessages(ms) && parts == MessageParts(ms, c)
    requires o6 == o5 + |c.intBytes(CastToInt(|ms|))| && o7 == o6 + |Flatten(parts)|
    requires Enc(buf, o5, c.intBytes(CastToInt(|ms|)) + Flatten(parts))
    ensures At(c.readInt(buf, o5), CastToInt(|ms|), o6)
    ensures ReadMessages(buf, o6, |ms|, Version, c) == Some((ReloadedAll(ms), o7))
  {
    CountInverse(buf, o5, c, |ms|, Flatten(parts));
    ReadMessagesInverse(buf, o6, ms, c, parts);
  }

  /** Each field of a group record written at `off` reads back, field `k` ending at `ok`. */
  lemma {:induction false} GroupFieldsInverse(buf: seq<byte>, off: nat, c: Codec, id: u64, name: CString, owner: CString,
                                             ps: seq<CString>, ms: seq<Message>, unread: int32,
                                             pparts: seq<seq<byte>>, mparts: seq<seq<byte>>,
                                             o1: nat, o2: nat, o3: nat, o4: nat, o5: nat, o6: nat, o7: nat, o8: nat)
    requires Inverts(c, buf)
    requires Short(name) && Short(owner) && forall i :: 0 <= i < |ps| ==> Short(ps[i])
    requires AllStorableMessages(ms)
    requires pparts == StringParts(ps, c) && mparts == MessageParts(ms, c)
    requires o1 == off + |c.u64Bytes(id)| && o2 == o1 + |c.stringBytes(name)| && o3 == o2 + |c.stringBytes(owner)|
    requires o4 == o3 + |c.intBytes(CastToInt(|ps|))| && o5 == o4 + |Flatten(pparts)|
    requires o6 == o5 + |c.intBytes(CastToInt(|ms|))| && o7 == o6 + |Flatten(mparts)|
    requires o8 == o7 + |c.intBytes(unread)|
    requires Enc(buf, off, GroupRecordBytes(id, name, owner, ps, ms, unread, c))
    ensures At(c.readU64(buf, off), id, o1) && At(c.readString(buf, o1), name, o2) && At(c.readString(buf, o2), owner, o3)
    ensures At(c.readInt(buf, o3), CastToInt(|ps|), o4)
    ensures ReadParticipants(buf, o4, |ps|, Version, c) == Some((ps, o5))
    ensures At(c.readInt(buf, o5), CastToInt(|ms|), o6)
    ensures ReadMessages(buf, o6, |ms|, Version, c) == Some((ReloadedAll(ms), o7))
    ensures At(c.readInt(buf, o7), unread, o8)
  {
    var head := c.u64Bytes(id) + c.stringBytes(name) + c.stringBytes(owner);
    var pl := c.intBytes(CastToInt(|ps|)) + Flatten(pparts);
    var ml := c.intBytes(CastToInt(|ms|)) + Flatten(mparts);
    GroupLayoutIs(id, name, owner, ps, ms, unread, c, |ps| + 1);
    Split4(buf, off, head, pl, ml, c.intBytes(unread));
    GroupHeadInverse(buf, off, c, id, name, owner, o1, o2, o3);
    CountedParticipantsInverse(buf, c, ps, pparts, o3, o4, o5);
    CountedMessagesInverse(buf, c, ms, mparts, o5, o6, o7);
    IntBack(c, buf, o7, unread);
  }

  /** The fields of a group record written at `off`, read back, make up the group. */
  lemma {:induction false} GroupFieldsRead(buf: seq<byte>, off: nat, c: Codec, id: u64, name: CString, owner: CString,
                                           ps: seq<CString>, ms: seq<Message>, unread: int32,
                                           pparts: seq<seq<byte>>, mparts: seq<seq<byte>>,
                                           o1: nat, o2: nat, o3: nat, o4: nat, o5: nat, o6: nat, o7: nat, o8: nat)
    requires Inverts(c, buf)
    requires Short(name) && Short(owner) && forall i :: 0 <= i < |ps| ==> Short(ps[i])
    requires |ps| < 0x8000_0000 && |ms| < 0x8000_0000 && AllStorableMessages(ms)
    requires pparts == StringParts(ps, c) && mparts == MessageParts(ms, c)
    requires o1 == off + |c.u64Bytes(id)| && o2 == o1 + |c.stringBytes(name)| && o3 == o2 + |c.stringBytes(owner)|
    requires o4 == o3 + |c.intBytes(CastToInt(|ps|))| && o5 == o4 + |Flatten(pparts)|
    requires o6 == o5 + |c.intBytes(CastToInt(|ms|))| && o7 == o6 + |Flatten(mparts)|
    requires o8 == o7 + |c.intBytes(unread)|
    requires Enc(buf, off, GroupRecordBytes(id, name, owner, ps, ms, unread, c))
    ensures At(ReadGroup(buf, off, Version, c), Group(id, name, owner, Elements(ps), ReloadedAll(ms), Unsigned32(unread)), o8)
  {
    GroupFieldsInverse(buf, off, c, id, name, owner, ps, ms, unread, pparts, mparts, o1, o2, o3, o4, o5, o6, o7, o8);
    GroupFromParts(buf, off, c, id, name, owner, ps, ReloadedAll(ms), unread, o1, o2, o3, o4, o5, o6, o7, o8);
  }

  /** A group record written at `off` ends where its last field ends. */
  lemma {:induction false} GroupRecordLength(off: nat, c: Codec, id: u64, name: CString, owner: CString,
                                             ps: seq<CString>, ms: seq<Message>, unread: int32,
                                             pparts: seq<seq<byte>>, mparts: seq<seq<byte>>,
                                             o1: nat, o2: nat, o3: nat, o4: nat, o5: nat, o6: nat, o7: nat, o8: nat)
    requires AllStorableMessages(ms)
    requires pparts == StringParts(ps, c) && mparts == MessageParts(ms, c)
    requires o1 == off + |c.u64Bytes(id)| && o2 == o1 + |c.stringBytes(name)| && o3 == o2 + |c.stringBytes(owner)|
    requires o4 == o3 + |c.intBytes(CastToInt(|ps|))| && o5 == o4 + |Flatten(pparts)|
    requires o6 == o5 + |c.intBytes(CastToInt(|ms|))| && o7 == o6 + |Flatten(mparts)|
    requires o8 == o7 + |c.intBytes(unread)|
    ensures o8 == off + |GroupRecordBytes(id, name, owner, ps, ms, unread, c)|
  {
    GroupLayoutIs(id, name, owner, ps, ms, unread, c, |ps| + 1);
  }

  lemma {:induction false} ReadGroupRecordInverse(buf: seq<byte>, off: nat, c: Codec, id: u64, name: CString, owner: CString,
                                                 ps: seq<CString>, ms: seq<Message>, unread: int32,
                                                 bytes: seq<byte>, val: Group)
    requires Inverts(c, buf)
    requires Short(name) && Short(owner) && forall i :: 0 <= i < |ps| ==> Short(ps[i])
    requires |ps| < 0x8000_0000 && |ms| < 0x8000_0000 && AllStorableMessages(ms)
    requires bytes == GroupRecordBytes(id, name, owner, ps, ms, unread, c)
    requires val == Group(id, name, owner, Elements(ps), ReloadedAll(ms), Unsigned32(unread))
    requires Enc(buf, off, bytes)
    ensures At(ReadGroup(buf, off, Version, c), val, off + |bytes|)
  {
    var o1 := off + |c.u64Bytes(id)|;
    var o2 := o1 + |c.stringBytes(name)|;
    var o3 := o2 + |c.stringBytes(owner)|;
    var o4 := o3 + |c.intBytes(CastToInt(|ps|))|;
    var pparts, mparts := StringParts(ps, c), MessageParts(ms, c);
    var o5 := o4 + |Flatten(pparts)|;
    var o6 := o5 + |c.intBytes(CastToInt(|ms|))|;
    var o7 := o6 + |Flatten(mparts)|;
    var o8 := o7 + |c.intBytes(unread)|;
    GroupRecordRead(buf, off, c, id, name, owner, ps, ms, unread, pparts, mparts, o1, o2, o3, o4, o5, o6, o7, o8, bytes, val);
  }

  /** ReadGroupRecordInverse with the field offsets named. */
  lemma {:induction false} GroupRecordRead(buf: seq<byte>, off: nat, c: Codec, id: u64, name: CString, owner: CString,
                                           ps: seq<CString>, ms: seq<Message>, unread: int32,
                                           pparts: seq<seq<byte>>, mparts: seq<seq<byte>>,
                                           o1: nat, o2: nat, o3: nat, o4: nat, o5: nat, o6: nat, o7: nat, o8: nat,
                                           bytes: seq<byte>, val: Group)
    requires Inverts(c, buf)
    requires Short(name) && Short(owner) && forall i :: 0 <= i < |ps| ==> Short(ps[i])
    requires |ps| < 0x8000_0000 && |ms| < 0x8000_0000 && AllStorableMessages(ms)
    requires pparts == StringParts(ps, c) && mparts == MessageParts(ms, c)
    requires o1 == off + |c.u64Bytes(id)| && o2 == o1 + |c.stringBytes(name)| && o3 == o2 + |c.stringBytes(owner)|
    requires o4 == o3 + |c.intBytes(CastToInt(|ps|))| && o5 == o4 + |Flatten(pparts)|
    requires o6 == o5 + |c.intBytes(CastToInt(|ms|))| && o7 == o6 + |Flatten(mparts)|
    requires o8 == o7 + |c.intBytes(unread)|
    requires bytes == GroupRecordBytes(id, name, owner, ps, ms, unread, c)
    requires val == Group(id, name, owner, Elements(ps), ReloadedAll(ms), Unsigned32(unread))
    requires Enc(buf, off, bytes)
    ensures At(ReadGroup(buf, off, Version, c), val, off + |bytes|)
  {
    GroupFieldsRead(buf, off, c, id, name, owner, ps, ms, unread, pparts, mparts, o1, o2, o3, o4, o5, o6, o7, o8);
    GroupRecordLength(off, c, id, name, owner, ps, ms, unread, pparts, mparts, o1, o2, o3, o4, o5, o6, o7, o8);
    AtSame(ReadGroup(buf, off, Version, c), Group(id, name, owner, Elements(ps), ReloadedAll(ms), Unsigned32(unread)), o8,
           val, off + |bytes|);
  }

  lemma {:induction false} ReadGroupInverse(buf: seq<byte>, off: nat, g: Group, c: Codec)
    requires Inverts(c, buf)
    requires StorableGroup(g)
    requires Enc(buf, off, GroupBytes(g, c))
    ensures At(ReadGroup(buf, off, Version, c), ReloadedGroup(g), off + |GroupBytes(g, c)|)
  {
    var ps := SetOrder(g.participants);
    assert forall i :: 0 <= i < |ps| ==> Short(ps[i]) by {
      forall i | 0 <= i < |ps|
        ensures Short(ps[i])
      {
        assert ps[i] in g.participants;
      }
    }
    assert Elements(ps) == g.participants;
    UnreadRoundTrip(g.unread);
    ReadGroupRecordInverse(buf, off, c, g.id, g.name, g.ownerUniqueId, ps, g.messages, Signed32(g.unread),
                           GroupBytes(g, c), ReloadedGroup(g));
  }

  lemma {:induction false} GroupDecodes(buf: seq<byte>, g: Group, c: Codec, part: seq<byte>, val: Group)
    requires Inverts(c, buf)
    requires StorableGroup(g) && part == GroupBytes(g, c) && val == ReloadedGroup(g)
    ensures Decodes(buf, Version, c, ReadGroup, part, val)
  {
    forall off: nat | Enc(buf, off, part)
      ensures At(ReadGroup(buf, off, Version, c), val, off + |part|)
    {
      ReadGroupInverse(buf, off, g, c);
    }
  }

  /** The groups as they come back from the file. */
  function ReloadedGroups(gs: seq<Group>): (r: seq<Group>)
    requires AllStorableGroups(gs)
    ensures |r| == |gs|
    ensures forall i :: 0 <= i < |gs| ==> r[i] == ReloadedGroup(gs[i])
  {
    seq(|gs|, i requires 0 <= i < |gs| && StorableGroup(gs[i]) => ReloadedGroup(gs[i]))
  }

  lemma {:induction false} GroupsDecode(buf: seq<byte>, gs: seq<Group>, c: Codec)
    requires Inverts(c, buf)
    requires AllStorableGroups(gs)
    ensures ItemsDecode(buf, Version, c, ReadGroup, GroupParts(gs, c), ReloadedGroups(gs))
  {
    var parts, vals := GroupParts(gs, c), ReloadedGroups(gs);
    forall i | 0 <= i < |vals|
      ensures Decodes(buf, Version, c, ReadGroup, parts[i], vals[i])
    {
      GroupDecodes(buf, gs[i], c, parts[i], vals[i]);
    }
  }

  lemma {:induction false} ReadGroupsInverse(buf: seq<byte>, off: nat, gs: seq<Group>, c: Codec, parts: seq<seq<byte>>)
    requires Inverts(c, buf)
    requires AllStorableGroups(gs) && parts == GroupParts(gs, c)
    requires Enc(buf, off, Flatten(parts))
    ensures ReadGroups(buf, off, |gs|, Version, c) == Some((ReloadedGroups(gs), off + |Flatten(parts)|))
  {
    GroupsDecode(buf, gs, c);
    ReadItemsInverse(buf, off, |gs|, Version, c, ReadGroup, parts, ReloadedGroups(gs));
  }

  /** A whole buffer sits in itself from offset 0. */
  lemma {:induction false} EncWhole(buf: seq<byte>)
    ensures Enc(buf, 0, buf)
  {
    EncIsEncodedAt(buf, 0, buf);
    assert buf[0..|buf|] == buf;
  }

  /** Magic, version and group count of a log written at offset 0 read back, each field `k` ending at `ok`. */
  lemma {:induction false} LogHeadInverse(buf: seq<byte>, c: Codec, count: int32, groupBytes: seq<byte>,
                                         o1: nat, o2: nat, o3: nat)
    requires Inverts(c, buf)
    requires o1 == |c.stringBytes(Magic)| && o2 == o1 + |c.intBytes(Version)| && o3 == o2 + |c.intBytes(count)|
    requires Enc(buf, 0, c.stringBytes(Magic) + c.intBytes(Version) + c.intBytes(count) + groupBytes)
    ensures At(c.readString(buf, 0), Magic, o1) && At(c.readInt(buf, o1), Version, o2) && At(c.readInt(buf, o2), count, o3)
    ensures Enc(buf, o3, groupBytes)
  {
    Split4(buf, 0, c.stringBytes(Magic), c.intBytes(Version), c.intBytes(count), groupBytes);
    StringBack(c, buf, 0, Magic);
    IntBack(c, buf, o1, Version);
    IntBack(c, buf, o2, count);
  }

  lemma {:induction false} LoadFromParts(buf: seq<byte>, c: Codec, activeGroupId: u64, generalGroupId: u64, count: int32,
                                        gs: seq<Group>, o1: nat, o2: nat, o3: nat, n: nat)
    requires At(c.readString(buf, 0), Magic, o1) && At(c.readInt(buf, o1), Version, o2) && At(c.readInt(buf, o2), count, o3)
    requires n == AtLeastZero(count)
    requires ReadGroups(buf, o3, n, Version, c).Some? && ReadGroups(buf, o3, n, Version, c).value.0 == gs
    ensures LoadLog(buf, activeGroupId, generalGroupId, c) == Adopt(Emplace(map[], gs), activeGroupId, generalGroupId)
  {
  }

  /** A group whose id is not there yet is added under its id. */
  lemma {:induction false} EmplaceLast(gs: seq<Group>)
    requires gs != [] && gs[|gs| - 1].id !in Ids(gs[..|gs| - 1])
    ensures Emplace(map[], gs) == Emplace(map[], gs[..|gs| - 1])[gs[|gs| - 1].id := gs[|gs| - 1]]
  {
  }

  /** Emplacing groups with distinct ids keeps each of them under its id. */
  lemma {:induction false} EmplaceDistinct(gs: seq<Group>)
    requires forall i, j :: 0 <= i < j < |gs| ==> gs[i].id != gs[j].id
    ensures forall i :: 0 <= i < |gs| ==> Emplace(map[], gs)[gs[i].id] == gs[i]
  {
    if gs != [] {
      var n := |gs| - 1;
      var init := gs[..n];
      forall i | 0 <= i < n
        ensures init[i].id != gs[n].id
      {
        assert init[i] == gs[i];
      }
      EmplaceDistinct(init);
      assert gs[n].id !in Ids(init);
      var m := Emplace(map[], init);
      EmplaceLast(gs);
      forall i | 0 <= i < n
        ensures m[gs[n].id := gs[n]][gs[i].id] == gs[i]
      {
        assert init[i] == gs[i];
      }
    }
  }

  /** The store as it comes back from the file: every group with whole-second timestamps. */
  function ReloadedStore(groups: map<u64, Group>): (r: map<u64, Group>)
    requires StorableGroups(groups)
    ensures r.Keys == groups.Keys
    ensures forall k :: k in groups ==> r[k] == ReloadedGroup(groups[k])
  {
    map k | k in groups :: ReloadedGroup(groups[k])
  }

  /** Group `i` read back is the group saved under key `order[i]`, and carries that key as its id. */
  lemma {:induction false} ReloadedVisit(groups: map<u64, Group>, order: seq<u64>)
    requires Enumerates(order, groups) && StorableGroups(groups)
    requires forall k :: k in groups ==> groups[k].id == k
    ensures AllStorableGroups(Visit(groups, order))
    ensures forall i :: 0 <= i < |order| ==>
      ReloadedGroups(Visit(groups, order))[i] == ReloadedGroup(groups[order[i]])
      && ReloadedGroups(Visit(groups, order))[i].id == order[i]
  {
  }

  /** Reading back the groups in visiting order rebuilds the store, each group under its own id. */
  lemma {:induction false} RebuildStore(groups: map<u64, Group>, order: seq<u64>, rs: seq<Group>)
    requires Enumerates(order, groups) && StorableGroups(groups)
    requires forall k :: k in groups ==> groups[k].id == k
    requires AllStorableGroups(Visit(groups, order)) && rs == ReloadedGroups(Visit(groups, order))
    ensures Emplace(map[], rs) == ReloadedStore(groups)
  {
    ReloadedVisit(groups, order);
    EmplaceDistinct(rs);
    var m := Emplace(map[], rs);
    forall k | k in groups
      ensures k in m && m[k] == ReloadedStore(groups)[k]
    {
      var i :| 0 <= i < |order| && order[i] == k;
      assert rs[i].id == k;
    }
    forall k | k in m
      ensures k in groups
    {
      assert k in Ids(rs);
      var i :| 0 <= i < |rs| && rs[i].id == k;
    }
    SameMap(m, ReloadedStore(groups));
  }

  /** Two maps with the same keys and the same value under each key are equal. */
  lemma {:induction false} SameMap(m: map<u64, Group>, n: map<u64, Group>)
    requires forall k :: k in m ==> k in n
    requires forall k :: k in n ==> k in m && m[k] == n[k]
    ensures m == n
  {
    assert m.Keys == n.Keys;
  }

  /** A log written at offset 0 from groups `gs` reads back as those groups, emplaced. */
  lemma {:induction false} LoadLogFrom(buf: seq<byte>, c: Codec, gs: seq<Group>, activeGroupId: u64, generalGroupId: u64)
    requires AllStorableGroups(gs) && |gs| < 0x8000_0000
    requires Inverts(c, buf)
    requires buf == c.stringBytes(Magic) + c.intBytes(Version) + c.intBytes(CastToInt(|gs|)) + Flatten(GroupParts(gs, c))
    ensures LoadLog(buf, activeGroupId, generalGroupId, c)
         == Adopt(Emplace(map[], ReloadedGroups(gs)), activeGroupId, generalGroupId)
  {
    var count := CastToInt(|gs|);
    var o1 := |c.stringBytes(Magic)|;
    var o2 := o1 + |c.intBytes(Version)|;
    var o3 := o2 + |c.intBytes(count)|;
    EncWhole(buf);
    LogHeadInverse(buf, c, count, Flatten(GroupParts(gs, c)), o1, o2, o3);
    ReadGroupsInverse(buf, o3, gs, c, GroupParts(gs, c));
    assert AtLeastZero(count) == |gs|;
    LoadFromParts(buf, c, activeGroupId, generalGroupId, count, ReloadedGroups(gs), o1, o2, o3, |gs|);
  }

  /**
   * loadLog reads back what saveLog wrote, for any codec that inverts its
   * own encoders: the store it rebuilds holds every group that was saved,
   * timestamps cut to whole seconds, General ensured and the active group
   * kept when it still exists.
   */
  lemma {:induction false} LoadLogInverse(groups: map<u64, Group>, order: seq<u64>, activeGroupId: u64,
                                         generalGroupId: u64, c: Codec)
    requires Enumerates(order, groups) && StorableGroups(groups)
    requires forall k :: k in groups ==> groups[k].id == k
    requires |order| < 0x8000_0000
    requires Inverts(c, LogBytes(groups, order, c))
    ensures LoadLog(LogBytes(groups, order, c), activeGroupId, generalGroupId, c)
         == Adopt(ReloadedStore(groups), activeGroupId, generalGroupId)
  {
    ReloadedVisit(groups, order);
    RebuildStore(groups, order, ReloadedGroups(Visit(groups, order)));
    LoadLogFrom(LogBytes(groups, order, c), c, Visit(groups, order), activeGroupId, generalGroupId);
  }

  /** The same for the serializer the chat log is written with. */
  lemma {:induction false} SaveThenLoad(groups: map<u64, Group>, order: seq<u64>, activeGroupId: u64, generalGroupId: u64)
    requires Enumerates(order, groups) && StorableGroups(groups)
    requires forall k :: k in groups ==> groups[k].id == k
    requires |order| < 0x8000_0000
    ensures LoadLog(LogBytes(groups, order, Wire()), activeGroupId, generalGroupId, Wire())
         == Adopt(ReloadedStore(groups), activeGroupId, generalGroupId)
  {
    WireInverts(LogBytes(groups, order, Wire()));
    LoadLogInverse(groups, order, activeGroupId, generalGroupId, Wire());
  }

  lemma {:induction false} UnreadRoundTrip(u: u32)
    ensures Unsigned32(Signed32(u)) == u
  {
  }
}
