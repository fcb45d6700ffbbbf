/**
 * The older, header-only chat store (include/network/ChatManager.h): chat
 * threads keyed by a stable id built from the participant set ("all" for
 * the General thread, otherwise the participant ids in set order joined by
 * '|'), the active thread, sending into a thread, receiving a chat frame,
 * and the "/roll" command parser.  Messages, message kinds and the roll
 * parsing pieces are the ones of the group store (module ChatGroups), which
 * classifies and parses identically.
 */
module ChatThreads {
  import opened CTypes
  import opened Wrappers
  import ChatGroups
  import ChatLog

  /** The id of the General thread. */
  const GeneralId: CString := "all"

  /** The separator of the participant ids in a thread id. */
  const Bar: CString := "|"

  /** The separator of the shown names in a thread's name. */
  const Comma: CString := ", "

  /** ChatThread: its stable id, shown name, participants (not including me) and history. */
  datatype Thread = Thread(id: CString, displayName: CString, participants: set<CString>, messages: seq<ChatGroups.Message>)

  /** What the store reads from the network manager: displayNameFor and getMyUsername. */
  datatype NetworkView = NetworkView(displayNameFor: CString -> CString, myUsername: CString)

  // ---------------------------------------------------------------------
  // Thread ids
  // ---------------------------------------------------------------------

  /** The items with `sep` between neighbours. */
  function Join<T>(xs: seq<seq<T>>, sep: seq<T>): seq<T>
    requires xs != []
    decreases |xs|
  {
    if |xs| == 1 then xs[0] else xs[0] + sep + Join(xs[1..], sep)
  }

  /** Appending an item appends the separator and the item. */
  lemma {:induction false} JoinSnoc<T>(xs: seq<seq<T>>, x: seq<T>, sep: seq<T>)
    requires xs != []
    ensures Join(xs + [x], sep) == Join(xs, sep) + sep + x
    decreases |xs|
  {
    if |xs| == 1 {
      assert xs + [x] == [xs[0], x];
    } else {
      assert (xs + [x])[1..] == xs[1..] + [x];
      JoinSnoc(xs[1..], x, sep);
      var j := Join(xs[1..], sep);
      assert xs[0] + sep + (j + sep + x) == (xs[0] + sep + j) + sep + x;
    }
  }

  /** makeThreadId: "all" for no participants, else the participants in set order joined by '|'. */
  ghost function ThreadIdOf(s: set<CString>): CString
  {
    if s == {} then GeneralId else Join(ChatLog.SetOrder(s), Bar)
  }

  /** One step of a range-for over a std::set: the least remaining element is the next one visited. */
  lemma {:induction false} OrderStep(s: set<CString>, rest: set<CString>, done: seq<CString>, p: CString)
    requires ChatLog.SetOrder(s) == done + ChatLog.SetOrder(rest)
    requires ChatLog.Least(p, rest)
    ensures ChatLog.SetOrder(s) == (done + [p]) + ChatLog.SetOrder(rest - {p})
  {
    ChatLog.SetOrderFirst(rest, p);
    Regroup(done, [p], ChatLog.SetOrder(rest - {p}));
  }

  lemma Regroup<T>(a: seq<T>, b: seq<T>, c: seq<T>)
    ensures a + (b + c) == (a + b) + c
  {
  }

  /** makeThreadId, visiting the participants in set order and pushing '|' between them. */
  method MakeThreadId(participants: set<CString>) returns (id: CString)
    ensures id == ThreadIdOf(participants)
  {
    if participants == {} {
      return GeneralId;
    }
    id := [];
    var first := true;
    var rest := participants;
    ghost var done: seq<CString> := [];
    while rest != {}
      invariant rest <= participants
      invariant ChatLog.SetOrder(participants) == done + ChatLog.SetOrder(rest)
      invariant first <==> done == []
      invariant first ==> id == []
      invariant !first ==> id == Join(done, Bar)
      decreases |rest|
    {
      ChatLog.LeastExists(rest);
      var p :| p in rest && ChatLog.Least(p, rest);
      OrderStep(participants, rest, done, p);
      ghost var id0 := id;
      if !first {
        id := id + Bar;
      }
      id := id + p;
      JoinStep(done, p, Bar, id0, id);
      done := done + [p];
      rest := rest - {p};
      first := false;
    }
    JoinedInOrder(participants, done);
  }

  /** The join grows by one item: the first item alone, or the separator and the item. */
  lemma {:induction false} JoinStep<T>(done: seq<seq<T>>, x: seq<T>, sep: seq<T>, acc0: seq<T>, acc: seq<T>)
    requires done == [] ==> acc == acc0 + x && acc0 == []
    requires done != [] ==> acc0 == Join(done, sep) && acc == acc0 + sep + x
    ensures acc == Join(done + [x], sep)
  {
    if done == [] {
      assert done + [x] == [x];
    } else {
      JoinSnoc(done, x, sep);
    }
  }

  /** When the walk is over, it has visited the whole set in order. */
  lemma {:induction false} JoinedInOrder(s: set<CString>, done: seq<CString>)
    requires ChatLog.SetOrder(s) == done + ChatLog.SetOrder({})
    ensures done == ChatLog.SetOrder(s)
  {
    assert ChatLog.SetOrder({}) == [];
  }

  /** std::string::find('|', start): the first '|' at or after `start`, or the length (npos) when there is none. */
  function FindBar(t: CString, start: nat): (k: nat)
    requires start <= |t|
    ensures start <= k <= |t|
    ensures forall j :: start <= j < k ==> t[j] != '|'
    ensures k < |t| ==> t[k] == '|'
    decreases |t| - start
  {
    if start == |t| || t[start] == '|' then start else FindBar(t, start + 1)
  }

  lemma {:induction false} FindBarIs(t: CString, start: nat, k: nat)
    requires start <= k <= |t|
    requires forall j :: start <= j < k ==> t[j] != '|'
    requires k == |t| || t[k] == '|'
    ensures FindBar(t, start) == k
    decreases k - start
  {
    if start < k {
      FindBarIs(t, start + 1, k);
    }
  }

  /** The pieces of `t` between its '|' characters, empty pieces included. */
  function Pieces(t: CString): (r: seq<CString>)
    ensures r != []
    decreases |t|
  {
    var k := FindBar(t, 0);
    if k == |t| then [t] else [t[..k]] + Pieces(t[k + 1..])
  }

  /** The pieces from `start` on: the one up to the next '|', then the pieces after it. */
  lemma {:induction false} PiecesFrom(t: CString, start: nat)
    requires start <= |t|
    ensures var k := FindBar(t, start);
      Pieces(t[start..]) == if k == |t| then [t[start..]] else [t[start..k]] + Pieces(t[k + 1..])
  {
    var u := t[start..];
    var k := FindBar(t, start);
    FindBarIs(u, 0, k - start);
    if k < |t| {
      assert u[..k - start] == t[start..k];
      assert u[k - start + 1..] == t[k + 1..];
    }
  }

  /** The set the split loop inserts: the non-empty pieces. */
  function NonEmptyPieces(ps: seq<CString>): set<CString>
  {
    set p | p in ps && p != []
  }

  /** The participant set getOrCreateThreadById reconstructs from an id ("all" is General's empty set). */
  function ParticipantsOfId(id: CString): set<CString>
  {
    if id == GeneralId then {} else NonEmptyPieces(Pieces(id))
  }

  /** The split loop of getOrCreateThreadById: a `start` index walking from one '|' to the next. */
  method SplitId(id: CString) returns (s: set<CString>)
    ensures s == NonEmptyPieces(Pieces(id))
  {
    s := {};
    var start := 0;
    SplitStart(id);
    while start <= |id|
      invariant start <= |id|
      invariant SplitSoFar(id, start, s)
      decreases |id| - start
    {
      var pos := FindBar(id, start);
      var part := id[start..pos];
      ghost var s0 := s;
      if part != [] {
        s := s + {part};
      }
      SplitStep(id, start, pos, part, s0, s);
      if pos == |id| {
        break;
      }
      start := pos + 1;
    }
  }

  /** After the pieces before `start` were inserted into `s`, the rest of the split set comes from the pieces from `start` on. */
  ghost predicate SplitSoFar(id: CString, start: nat, s: set<CString>)
    requires start <= |id|
  {
    NonEmptyPieces(Pieces(id)) == s + NonEmptyPieces(Pieces(id[start..]))
  }

  lemma {:induction false} SplitStart(id: CString)
    ensures SplitSoFar(id, 0, {})
  {
    assert id[0..] == id;
  }

  /** One piece: after the last one the split set is complete, otherwise the split goes on after the bar. */
  lemma {:induction false} SplitStep(id: CString, start: nat, pos: nat, part: CString, s0: set<CString>, s: set<CString>)
    requires start <= |id| && pos == FindBar(id, start) && part == id[start..pos]
    requires SplitSoFar(id, start, s0)
    requires s == if part != [] then s0 + {part} else s0
    ensures pos == |id| ==> s == NonEmptyPieces(Pieces(id))
    ensures pos < |id| ==> SplitSoFar(id, pos + 1, s)
  {
    PiecesFrom(id, start);
    if pos == |id| {
      assert part == id[start..];
      assert Pieces(id[start..]) == [id[start..]];
    } else {
      var rest := Pieces(id[pos + 1..]);
      assert Pieces(id[start..]) == [id[start..pos]] + rest;
      assert NonEmptyPieces([id[start..pos]] + rest) == NonEmptyPieces([id[start..pos]]) + NonEmptyPieces(rest);
    }
  }

  /** Ids fit for a thread id: non-empty and free of the separator. */
  ghost predicate WellFormedIds(s: set<CString>)
  {
    forall p :: p in s ==> p != [] && '|' !in p
  }

  /** Splitting a join at '|' gives back the items when none of them contains '|'. */
  lemma {:induction false} SplitJoin(xs: seq<CString>)
    requires xs != []
    requires forall i :: 0 <= i < |xs| ==> '|' !in xs[i]
    ensures Pieces(Join(xs, Bar)) == xs
    decreases |xs|
  {
    var t := Join(xs, Bar);
    if |xs| == 1 {
      FindBarIs(t, 0, |t|);
    } else {
      var k := |xs[0]|;
      var rest := Join(xs[1..], Bar);
      assert t == xs[0] + Bar + rest;
      assert forall j :: 0 <= j < k ==> t[j] == xs[0][j];
      FindBarIs(t, 0, k);
      assert t[..k] == xs[0];
      assert t[k + 1..] == rest;
      SplitJoin(xs[1..]);
      assert xs == [xs[0]] + xs[1..];
    }
  }

  /**
   * Rebuilding the participants from a thread id gives back the set, for
   * non-empty ids free of '|'; the one exception is the set {"all"}, whose
   * id is General's.
   */
  lemma {:induction false} IdRoundTrip(s: set<CString>)
    requires WellFormedIds(s) && s != {GeneralId}
    ensures ParticipantsOfId(ThreadIdOf(s)) == s
  {
    if s != {} {
      var xs := ChatLog.SetOrder(s);
      SplitJoin(xs);
      assert NonEmptyPieces(xs) == s;
      GeneralPieces();
      assert Join(xs, Bar) == GeneralId ==> xs == [GeneralId];
      assert xs == [GeneralId] ==> s == {GeneralId};
    }
  }

  lemma {:induction false} GeneralPieces()
    ensures Pieces(GeneralId) == [GeneralId]
  {
    FindBarIs(GeneralId, 0, 3);
  }

  /** The participant set {"all"} shares General's id. */
  lemma {:induction false} ThreadIdCollision()
    ensures ThreadIdOf({GeneralId}) == ThreadIdOf({})
  {
    var xs := ChatLog.SetOrder({GeneralId});
    assert |xs| == 1 && GeneralId in xs;
    assert xs == [GeneralId];
  }

  // ---------------------------------------------------------------------
  // Display names
  // ---------------------------------------------------------------------

  /** A participant's shown name: the network's display name, or the id when there is none or it is empty. */
  function ShownName(pid: CString, network: Option<NetworkView>): (r: CString)
    ensures pid != [] ==> r != []
    ensures network.None? ==> r == pid
  {
    var dn := if network.Some? then network.value.displayNameFor(pid) else pid;
    if dn == [] then pid else dn
  }

  function ShownNames(ps: seq<CString>, network: Option<NetworkView>): (r: seq<CString>)
    ensures |r| == |ps|
    ensures forall i :: 0 <= i < |ps| ==> r[i] == ShownName(ps[i], network)
    decreases |ps|
  {
    if ps == [] then [] else [ShownName(ps[0], network)] + ShownNames(ps[1..], network)
  }

  /** The name of a thread other than General: the participants' shown names in set order, joined by ", ". */
  ghost function DisplayName(s: set<CString>, network: Option<NetworkView>): CString
  {
    if s == {} then [] else Join(ShownNames(ChatLog.SetOrder(s), network), Comma)
  }

  /** The name loop of getOrCreateThread. */
  method DisplayNameFor(participants: set<CString>, network: Option<NetworkView>) returns (name: CString)
    ensures name == DisplayName(participants, network)
  {
    name := [];
    var first := true;
    var rest := participants;
    ghost var done: seq<CString> := [];
    while rest != {}
      invariant rest <= participants
      invariant ChatLog.SetOrder(participants) == done + ChatLog.SetOrder(rest)
      invariant first <==> done == []
      invariant first ==> name == []
      invariant !first ==> name == Join(ShownNames(done, network), Comma)
      decreases |rest|
    {
      ChatLog.LeastExists(rest);
      var pid :| pid in rest && ChatLog.Least(pid, rest);
      OrderStep(participants, rest, done, pid);
      var shown := ShownName(pid, network);
      ghost var name0 := name;
      if !first {
        name := name + Comma;
      }
      name := name + shown;
      NameStep(done, pid, network, name0, name);
      done := done + [pid];
      rest := rest - {pid};
      first := false;
    }
    JoinedInOrder(participants, done);
  }

  /** One more participant visited: its shown name joins the name, after ", " unless it is the first. */
  lemma {:induction false} NameStep(done: seq<CString>, pid: CString, network: Option<NetworkView>, name0: CString, name: CString)
    requires done == [] ==> name0 == [] && name == name0 + ShownName(pid, network)
    requires done != [] ==> name0 == Join(ShownNames(done, network), Comma) && name == name0 + Comma + ShownName(pid, network)
    ensures name == Join(ShownNames(done + [pid], network), Comma)
  {
    var shown := ShownNames(done, network);
    assert ShownNames(done + [pid], network) == shown + [ShownName(pid, network)];
    assert done == [] <==> shown == [];
    JoinStep(shown, ShownName(pid, network), Comma, name0, name);
  }

  // ---------------------------------------------------------------------
  // The thread map
  // ---------------------------------------------------------------------

  /** The thread getOrCreateThread creates for a new id. */
  ghost function NewThread(id: CString, s: set<CString>, network: Option<NetworkView>): Thread
  {
    Thread(id, if id == GeneralId then "General" else DisplayName(s, network), s, [])
  }

  /**
   * getOrCreateThread on the map: the thread of the set's id is added when
   * missing; an existing thread is returned as it is and nothing is created,
   * so a second call with the same set changes nothing.
   */
  ghost function GetOrCreate(threads: map<CString, Thread>, s: set<CString>, network: Option<NetworkView>): (r: map<CString, Thread>)
    ensures r.Keys == threads.Keys + {ThreadIdOf(s)}
    ensures forall k :: k in threads ==> r[k] == threads[k]
    ensures ThreadIdOf(s) !in threads ==>
              r[ThreadIdOf(s)].id == ThreadIdOf(s) && r[ThreadIdOf(s)].participants == s && r[ThreadIdOf(s)].messages == []
    ensures ThreadIdOf(s) in threads ==> r == threads
  {
    var id := ThreadIdOf(s);
    if id in threads then threads else threads[id := NewThread(id, s, network)]
  }

  /** A second getOrCreateThread with the same set finds the thread the first one made and creates nothing. */
  lemma {:induction false} GetOrCreateIdempotent(threads: map<CString, Thread>, s: set<CString>, network: Option<NetworkView>)
    ensures GetOrCreate(GetOrCreate(threads, s, network), s, network) == GetOrCreate(threads, s, network)
  {
  }

  /**
   * A store built by getOrCreateThread from well-formed sets: every thread
   * is filed under its own id, which is the id of its participant set.
   */
  ghost predicate Consistent(threads: map<CString, Thread>)
  {
    forall k :: k in threads ==>
      threads[k].id == k && k == ThreadIdOf(threads[k].participants)
      && WellFormedIds(threads[k].participants) && threads[k].participants != {GeneralId}
  }

  /**
   * getOrCreateThreadById(makeThreadId(s)) on a consistent store gives the
   * thread whose participant set is s, and the store stays consistent.
   */
  lemma {:induction false} ByIdFindsParticipants(threads: map<CString, Thread>, s: set<CString>, network: Option<NetworkView>)
    requires Consistent(threads)
    requires WellFormedIds(s) && s != {GeneralId}
    ensures var id := ThreadIdOf(s);
      var r := GetOrCreate(threads, ParticipantsOfId(id), network);
      Consistent(r) && id in r && r[id].participants == s
  {
    var id := ThreadIdOf(s);
    IdRoundTrip(s);
    var r := GetOrCreate(threads, s, network);
    if id in threads {
      IdRoundTrip(threads[id].participants);
      assert r == threads;
    } else {
      var t := NewThread(id, s, network);
      assert r == threads[id := t];
      assert t.id == id && t.participants == s;
    }
  }

  /** A thread with one more message at the back of the thread `id`. */
  function Appended(threads: map<CString, Thread>, id: CString, m: ChatGroups.Message): (r: map<CString, Thread>)
    requires id in threads
    ensures r.Keys == threads.Keys
    ensures forall k :: k in threads && k != id ==> r[k] == threads[k]
    ensures |r[id].messages| == |threads[id].messages| + 1
    ensures r[id].messages[..|threads[id].messages|] == threads[id].messages
    ensures r[id].messages[|threads[id].messages|] == m
    ensures r[id].id == threads[id].id && r[id].participants == threads[id].participants
    ensures r[id].displayName == threads[id].displayName
  {
    threads[id := threads[id].(messages := threads[id].messages + [m])]
  }

  /** guestLabel. */
  function GuestLabel(id: CString): CString
  {
    "guest_" + id
  }

  /** The message sendToThread appends locally: sender "me", my username or "me". */
  function LocalMessage(text: CString, myUsername: CString, now: real): (m: ChatGroups.Message)
    ensures m.senderUniqueId == "me" && m.content == text && m.username != []
    ensures m.kind == ChatGroups.ClassifyMessage(text)
  {
    ChatGroups.Message(ChatGroups.ClassifyMessage(text), "me", if myUsername == [] then "me" else myUsername, text, now)
  }

  /** The message onSubmit shows for a command: a TEXT from "system", named "System". */
  function SystemMessage(reply: CString, now: real): ChatGroups.Message
  {
    ChatGroups.Message(ChatGroups.Text, "system", "System", reply, now)
  }

  /** The fields of a parsed chat frame; a field that is absent is None. */
  datatype IncomingChat = IncomingChat(
    frameType: Option<CString>,
    from: Option<CString>,
    username: Option<CString>,
    text: Option<CString>,
    ts: Option<real>,
    channel: Option<CString>)

  function ValueOr<T>(o: Option<T>, default: T): (r: T)
    ensures o.Some? ==> r == o.value
    ensures o.None? ==> r == default
  {
    if o.Some? then o.value else default
  }

  /** The frame is a chat frame: its type field is "chat". */
  predicate IsChatFrame(j: IncomingChat)
  {
    ValueOr(j.frameType, "") == "chat"
  }

  /**
   * The message onIncomingChatJson appends: the username falls back to the
   * guest label of the sender, the time to now, the kind is classified.
   */
  function IncomingMessage(j: IncomingChat, now: real): (m: ChatGroups.Message)
    ensures var from := ValueOr(j.from, "");
      m.senderUniqueId == from && m.content == ValueOr(j.text, "")
      && m.username == (if j.username.Some? && j.username.value != [] then j.username.value else GuestLabel(from))
  {
    var from := ValueOr(j.from, "");
    var username := ValueOr(j.username, GuestLabel(from));
    var text := ValueOr(j.text, "");
    ChatGroups.Message(ChatGroups.ClassifyMessage(text), from, if username == [] then GuestLabel(from) else username,
                       text, ValueOr(j.ts, now))
  }

  // ---------------------------------------------------------------------
  // "/roll NdM(+K)"
  // ---------------------------------------------------------------------

  /** What processCommand decides: not a command it knows, a malformed roll, or the roll to make. */
  datatype CommandOutcome = UnknownCommand | InvalidRoll | Roll(spec: ChatGroups.RollSpec)

  /**
   * The parsing of processCommand: "/roll", white space, N > 0, 'd', then M
   * with no check at all (a missing M reads as -1, and a long one wraps to
   * any `int`), then the optional signed modifier, which counts only when
   * it is positive.
   */
  function ParseCommand(input: CString): (r: CommandOutcome)
    ensures r.UnknownCommand? <==> !("/roll" <= input)
    ensures r.Roll? ==> r.spec.count > 0
  {
    if !("/roll" <= input) then UnknownCommand
    else ParseDiceAt(input, ChatGroups.SkipSpaces(input, 5))
  }

  /** "NdM" and the modifier from index `i`: only N is checked. */
  function ParseDiceAt(input: CString, i: nat): (r: CommandOutcome)
    requires i <= |input|
    ensures !r.UnknownCommand?
    ensures r.Roll? ==> r.spec.count > 0
  {
    var n := ChatGroups.ParseIntAt(input, i);
    if n.1 >= |input| || input[n.1] != 'd' || n.0 <= 0 then InvalidRoll
    else
      var m := ChatGroups.ParseIntAt(input, n.1 + 1);
      Roll(ChatGroups.RollSpec(n.0, m.0, ChatGroups.ParseModifier(input, m.1)))
  }

  /**
   * The group store's parser accepts a subset of these commands: whatever it
   * accepts is read here as the same roll, and what is read here with a
   * positive die size is exactly what it accepts.
   */
  lemma {:induction false} ParsersAgree(input: CString)
    ensures ChatGroups.ParseRoll(input).Some? ==> ParseCommand(input) == Roll(ChatGroups.ParseRoll(input).value)
    ensures ParseCommand(input).Roll? && ParseCommand(input).spec.sides > 0 ==> ChatGroups.ParseRoll(input) == Some(ParseCommand(input).spec)
  {
    if "/roll" <= input {
      assert ChatGroups.ParseRoll(input) == ChatGroups.ParseDice(input, ChatGroups.SkipSpaces(input, 5));
    }
  }

  /** The reply processCommand returns; a roll's reply lists random dice and is passed in. */
  function CommandReply(o: CommandOutcome, rollReply: CString): (r: CString)
    ensures o.UnknownCommand? ==> r == "Unknown command"
    ensures o.InvalidRoll? ==> r == "Invalid /roll syntax"
    ensures o.Roll? ==> r == rollReply
  {
    match o
    case UnknownCommand => "Unknown command"
    case InvalidRoll => "Invalid /roll syntax"
    case Roll(_) => rollReply
  }

  /** processCommand's parsing steps in the order the source takes them. */
  method ProcessCommand(input: CString) returns (o: CommandOutcome)
    ensures o == ParseCommand(input)
  {
    if !(|input| >= 5 && input[..5] == "/roll") {
      return UnknownCommand;
    }
    var i := 5;
    while i < |input| && IsSpace(input[i])
      invariant 5 <= i <= |input|
      invariant ChatGroups.SkipSpaces(input, 5) == ChatGroups.SkipSpaces(input, i)
      decreases |input| - i
    {
      i := i + 1;
    }
    assert "/roll" <= input && i == ChatGroups.SkipSpaces(input, 5);
    o := ParseDiceCommand(input, i);
  }

  /** processCommand after the spaces: N, 'd', then M and the modifier, read without checking M. */
  method ParseDiceCommand(input: CString, i: nat) returns (o: CommandOutcome)
    requires i <= |input|
    ensures o == ParseDiceAt(input, i)
  {
    var n, j, m, k2;
    n, j := ChatGroups.ParseInt(input, i);
    if j >= |input| || input[j] != 'd' || n <= 0 {
      return InvalidRoll;
    }
    m, k2 := ChatGroups.ParseInt(input, j + 1);
    var k: int32 := 0;
    if k2 < |input| && (input[k2] == '+' || input[k2] == '-') {
      var neg := input[k2] == '-';
      var z, after := ChatGroups.ParseInt(input, k2 + 1);
      ChatGroups.ModifierOf(input, k2, z);
      if z > 0 {
        k := if neg then -z else z;
      }
    }
    DiceParsed(input, i, n, j, m, k2, k);
    return Roll(ChatGroups.RollSpec(n, m, k));
  }

  lemma {:induction false} DiceParsed(input: CString, i0: nat, n: int32, j: nat, m: int32, j2: nat, k: int32)
    requires i0 <= |input|
    requires n == ChatGroups.ParseIntAt(input, i0).0 && j == ChatGroups.ParseIntAt(input, i0).1
    requires j < |input| && input[j] == 'd' && n > 0
    requires m == ChatGroups.ParseIntAt(input, j + 1).0 && j2 == ChatGroups.ParseIntAt(input, j + 1).1
    requires k == ChatGroups.ParseModifier(input, j2)
    ensures ParseDiceAt(input, i0) == Roll(ChatGroups.RollSpec(n, m, k))
  {
  }

  // ---------------------------------------------------------------------
  // The store
  // ---------------------------------------------------------------------

  class ThreadStore {
    var network: Option<NetworkView>
    var threads: map<CString, Thread>
    var activeId: CString

    /** Every thread is filed under its own id. */
    ghost predicate Valid()
      reads this
    {
      forall k :: k in threads ==> threads[k].id == k
    }

    /** The constructor ends with ensureGeneral: General exists and is active. */
    constructor (network: Option<NetworkView>)
      ensures Valid()
      ensures this.network == network
      ensures threads == map[GeneralId := Thread(GeneralId, "General", {}, [])] && activeId == GeneralId
    {
      this.network := network;
      threads := map[];
      activeId := GeneralId;
      new;
      EnsureGeneral();
    }

    /** currentThread: the active thread, if it exists. */
    function CurrentThread(): (r: Option<Thread>)
      reads this
      ensures r.Some? <==> activeId in threads
      ensures r.Some? ==> r.value == threads[activeId]
    {
      if activeId in threads then Some(threads[activeId]) else None
    }

    /** getOrCreateThread: the id of the set's thread, created first when missing. */
    method GetOrCreateThread(participants: set<CString>) returns (id: CString)
      requires Valid()
      modifies this`threads
      ensures Valid()
      ensures id == ThreadIdOf(participants) && id in threads
      ensures threads == GetOrCreate(old(threads), participants, network)
      ensures network == old(network) && activeId == old(activeId)
    {
      id := MakeThreadId(participants);
      if id in threads {
        return;
      }
      var name;
      if id == GeneralId {
        name := "General";
      } else {
        name := DisplayNameFor(participants, network);
      }
      assert Thread(id, name, participants, []) == NewThread(id, participants, network);
      threads := threads[id := Thread(id, name, participants, [])];
    }

    /** getOrCreateThreadById: "all" is General; any other id is split back into its participants. */
    method GetOrCreateThreadById(id: CString) returns (tid: CString)
      requires Valid()
      modifies this`threads
      ensures Valid()
      ensures tid == ThreadIdOf(ParticipantsOfId(id)) && tid in threads
      ensures threads == GetOrCreate(old(threads), ParticipantsOfId(id), network)
      ensures network == old(network) && activeId == old(activeId)
    {
      if id == GeneralId {
        tid := GetOrCreateThread({});
        return;
      }
      var s := SplitId(id);
      tid := GetOrCreateThread(s);
    }

    /** ensureGeneral: General exists and is the active thread. */
    method EnsureGeneral()
      requires Valid()
      modifies this
      ensures Valid()
      ensures GeneralId in threads && activeId == GeneralId
      ensures threads == GetOrCreate(old(threads), {}, network)
      ensures network == old(network)
    {
      var _ := GetOrCreateThread({});
      activeId := GeneralId;
    }

    /**
     * sendToThread, locally: nothing without a network; otherwise exactly one
     * message from "me" is appended to the thread (sending the frame to the
     * peers is not part of this model).
     */
    method SendToThread(id: CString, text: CString, now: real)
      requires Valid() && id in threads
      modifies this
      ensures Valid()
      ensures network.None? ==> threads == old(threads)
      ensures network.Some? ==> threads == Appended(old(threads), id, LocalMessage(text, network.value.myUsername, now))
      ensures network == old(network) && activeId == old(activeId)
    {
      if network.None? {
        return;
      }
      var myUser := network.value.myUsername;
      var msg := ChatGroups.Message(ChatGroups.ClassifyMessage(text), "me", if myUser == [] then "me" else myUser, text, now);
      threads := threads[id := threads[id].(messages := threads[id].messages + [msg])];
    }

    /**
     * onIncomingChatJson: a frame that did not parse or is not a chat frame
     * changes nothing; otherwise its message is appended to the thread of its
     * channel ("all" when absent), which is created when missing.
     */
    method OnIncomingChat(frame: Option<IncomingChat>, now: real)
      requires Valid()
      modifies this
      ensures Valid()
      ensures frame.None? || !IsChatFrame(frame.value) ==> threads == old(threads)
      ensures frame.Some? && IsChatFrame(frame.value) ==>
                var s := ParticipantsOfId(ValueOr(frame.value.channel, GeneralId));
                var created := GetOrCreate(old(threads), s, network);
                threads == Appended(created, ThreadIdOf(s), IncomingMessage(frame.value, now))
      ensures network == old(network) && activeId == old(activeId)
    {
      if frame.None? {
        return;
      }
      var j := frame.value;
      if ValueOr(j.frameType, "") != "chat" {
        return;
      }
      var from := ValueOr(j.from, "");
      var username := ValueOr(j.username, GuestLabel(from));
      var text := ValueOr(j.text, "");
      var ts := ValueOr(j.ts, now);
      var chan := ValueOr(j.channel, GeneralId);
      var tid := GetOrCreateThreadById(chan);
      var msg := ChatGroups.Message(ChatGroups.ClassifyMessage(text), from, if username == [] then GuestLabel(from) else username, text, ts);
      threads := threads[tid := threads[tid].(messages := threads[tid].messages + [msg])];
    }

    /**
     * onSubmit: with a non-empty text and an existing active thread, a text
     * starting with '/' adds a System message with the command's reply, and
     * any other text is sent to the thread.  `rollReply` is the text a roll
     * would produce from its random dice.
     */
    method OnSubmit(text: CString, now: real, rollReply: CString)
      requires Valid()
      modifies this
      ensures Valid()
      ensures text == [] || activeId !in old(threads) ==> threads == old(threads)
      ensures text != [] && activeId in old(threads) && text[0] == '/' ==>
                threads == Appended(old(threads), activeId, SystemMessage(CommandReply(ParseCommand(text), rollReply), now))
      ensures text != [] && activeId in old(threads) && text[0] != '/' ==>
                threads == if network.None? then old(threads)
                           else Appended(old(threads), activeId, LocalMessage(text, network.value.myUsername, now))
      ensures network == old(network) && activeId == old(activeId)
    {
      if text == [] || activeId !in threads {
        return;
      }
      if text[0] == '/' {
        var o := ProcessCommand(text);
        var result := CommandReply(o, rollReply);
        var sys := SystemMessage(result, now);
        threads := threads[activeId := threads[activeId].(messages := threads[activeId].messages + [sys])];
      } else {
        SendToThread(activeId, text, now);
      }
    }
  }
}
