/**
 * The chat group store of src/ChatManager.cpp: groups keyed by a 64-bit id,
 * each with a name, an owner (a unique id), participants, a message history
 * and an unread counter; a General group nobody owns; message classification;
 * the group operations that arrive from peers (create, update, delete,
 * message) and the ones the local user performs (append, leave, rename,
 * mark read); and the parser of the "/roll NdM+K" command.
 *
 * The identity manager is a value (`Option<IdentityView>`, None for a null
 * pointer) holding the peer-to-unique-id bindings and my unique id; std::hash
 * is a parameter; the general group's id is a parameter of every operation.
 * Timestamps are reals (the source keeps them as doubles).
 */
module ChatGroups {
  import opened CTypes
  import opened Wrappers

  /** ChatMessageModel::Kind: TEXT, IMAGE, LINK, and any other value an int cast to the enum can hold. */
  datatype Kind = Text | Image | Link | Unnamed(code: int)

  datatype Message = Message(kind: Kind, senderUniqueId: CString, username: CString, content: CString, ts: real)

  datatype Group = Group(
    id: u64,
    name: CString,
    ownerUniqueId: CString,
    participants: set<CString>,
    messages: seq<Message>,
    unread: u32)

  /** A group as a default-constructed ChatGroupModel with its id and name set. */
  function NewGroup(id: u64, name: CString): Group
  {
    Group(id, name, "", {}, [], 0)
  }

  // ---------------------------------------------------------------------
  // Classification
  // ---------------------------------------------------------------------

  /** ends_with_icase: `a` ends with `suf`, comparing both through tolower. */
  function EndsWithIgnoreCase(a: string, suf: string): (r: bool)
    ensures r <==> |suf| <= |a| && LowerString(a[|a| - |suf|..]) == LowerString(suf)
  {
    |suf| <= |a| && forall k :: 0 <= k < |suf| ==> ToLower(a[|a| - |suf| + k]) == ToLower(suf[k])
  }

  predicate IsImageName(s: string)
  {
    EndsWithIgnoreCase(s, ".png") || EndsWithIgnoreCase(s, ".jpg") || EndsWithIgnoreCase(s, ".jpeg")
  }

  /**
   * classifyMessage: an image when the text ends in .png, .jpg or .jpeg in
   * any letter case (tested first), else a link when it starts with http://
   * or https://, else plain text.
   */
  function ClassifyMessage(s: string): (r: Kind)
    ensures r == Image <==> IsImageName(s)
    ensures r == Link <==> !IsImageName(s) && ("http://" <= s || "https://" <= s)
    ensures r == Text <==> !IsImageName(s) && !("http://" <= s || "https://" <= s)
  {
    if IsImageName(s) then Image
    else if "http://" <= s || "https://" <= s then Link
    else Text
  }

  /** A link to an image is an image, whatever its scheme. */
  lemma {:induction false} ImageLinkIsImage(host: string)
    ensures ClassifyMessage("https://" + host + ".PNG") == Image
  {
    var s := "https://" + host + ".PNG";
    assert s[|s| - 4..] == ".PNG";
    assert LowerString(".PNG") == ".png";
  }

  // ---------------------------------------------------------------------
  // Ids
  // ---------------------------------------------------------------------

  const GoldenRatio64: u64 := 0x9E37_79B9_7F4A_7C15

  /** Bitwise exclusive or of two naturals, one bit at a time from the least significant. */
  function Xor(a: nat, b: nat): nat
    decreases a + b
  {
    if a == 0 && b == 0 then 0
    else (if a % 2 != b % 2 then 1 else 0) + 2 * Xor(a / 2, b / 2)
  }

  function Pow2(n: nat): nat
  {
    if n == 0 then 1 else 2 * Pow2(n - 1)
  }

  lemma {:induction false} Pow2Add(m: nat, n: nat)
    ensures Pow2(m + n) == Pow2(m) * Pow2(n)
  {
    if m > 0 {
      Pow2Add(m - 1, n);
    }
  }

  lemma {:induction false} Pow2Of64()
    ensures Pow2(64) == U64_MODULUS
  {
    assert Pow2(8) == 256;
    Pow2Add(8, 8);
    Pow2Add(16, 16);
    Pow2Add(32, 32);
  }

  /** Exclusive or keeps n-bit numbers within n bits. */
  lemma {:induction false} XorBound(a: nat, b: nat, n: nat)
    requires a < Pow2(n) && b < Pow2(n)
    ensures Xor(a, b) < Pow2(n)
    decreases a + b
  {
    if a != 0 || b != 0 {
      XorBound(a / 2, b / 2, n - 1);
    }
  }

  /** a ^ b is zero exactly when a == b. */
  lemma {:induction false} XorZero(a: nat, b: nat)
    ensures Xor(a, b) == 0 <==> a == b
    decreases a + b
  {
    if a != 0 || b != 0 {
      XorZero(a / 2, b / 2);
    }
  }

  /** a ^ b is a exactly when b is zero; and 0 ^ b is b. */
  lemma {:induction false} XorSelf(a: nat, b: nat)
    ensures Xor(a, b) == a <==> b == 0
    ensures Xor(0, b) == b
    decreases a + b
  {
    if a != 0 || b != 0 {
      XorSelf(a / 2, b / 2);
    }
  }

  /** The uint64_t `^`. */
  function Xor64(a: u64, b: u64): (r: u64)
    ensures r == Xor(a, b)
  {
    Pow2Of64();
    XorBound(a, b, 64);
    Xor(a, b)
  }

  /**
   * makeGroupIdFromName, given the name's std::hash: the hash itself, unless
   * it is 0 or the General id, in which case it is scrambled with the
   * golden-ratio constant.  Whenever the General id is not that constant,
   * the result is neither 0 nor the General id.
   */
  function MakeGroupIdFromHash(h: u64, generalGroupId: u64): (r: u64)
    ensures h != 0 && h != generalGroupId ==> r == h
    ensures generalGroupId != GoldenRatio64 ==> r != 0 && r != generalGroupId
  {
    if h == 0 || h == generalGroupId then
      XorZero(h, GoldenRatio64);
      XorSelf(h, GoldenRatio64);
      Xor64(h, GoldenRatio64)
    else h
  }

  // ---------------------------------------------------------------------
  // The store
  // ---------------------------------------------------------------------

  /** ensureGeneral: a General group with no owner is added when missing; an existing one is left alone. */
  function EnsureGeneral(groups: map<u64, Group>, generalGroupId: u64): (r: map<u64, Group>)
    ensures generalGroupId in r
    ensures generalGroupId in groups ==> r == groups
    ensures generalGroupId !in groups ==> r == groups[generalGroupId := NewGroup(generalGroupId, "General")]
    ensures r[generalGroupId].ownerUniqueId == "" || generalGroupId in groups
  {
    if generalGroupId in groups then groups else groups[generalGroupId := NewGroup(generalGroupId, "General")]
  }

  /** The identity manager as the chat store sees it. */
  datatype IdentityView = IdentityView(peerToUnique: map<CString, CString>, myUniqueId: CString)

  /** `uniqueForPeer(peer).value_or("Player")`, and the empty string without an identity manager. */
  function SenderUid(identity: Option<IdentityView>, peerId: CString): (r: CString)
    ensures identity.None? ==> r == ""
    ensures identity.Some? && peerId in identity.value.peerToUnique ==> r == identity.value.peerToUnique[peerId]
    ensures identity.Some? && peerId !in identity.value.peerToUnique ==> r == "Player"
  {
    match identity
    case None => ""
    case Some(v) => if peerId in v.peerToUnique then v.peerToUnique[peerId] else "Player"
  }

  /** The unread counter after one more message: `std::min<uint32_t>(unread + 1, 999u)`, with the uint32 addition wrapping. */
  function Bumped(unread: u32): (r: u32)
    ensures unread < 999 ==> r == unread + 1
    ensures 999 <= unread < 0xFFFF_FFFF ==> r == 999
    ensures unread == 0xFFFF_FFFF ==> r == 0
  {
    var next := (unread + 1) % U32_MODULUS;
    if next < 999 then next else 999
  }

  /** The store's state: the groups, the active group, the current table and the two UI flags that decide unread counting. */
  datatype ChatState = ChatState(
    groups: map<u64, Group>,
    activeGroupId: u64,
    currentTableId: u64,
    chatWindowFocused: bool,
    followScroll: bool)

  /** A message counts as unread unless its group is active, the window focused and the view following new messages. */
  predicate CountsUnread(st: ChatState, groupId: u64)
  {
    st.activeGroupId != groupId || !st.chatWindowFocused || !st.followScroll
  }

  /**
   * The append shared by incoming and local messages: a "(pending?)" stub
   * is created for an unknown group, the message goes at the back, and the
   * unread counter is bumped when the message counts as unread.
   */
  function AppendMessage(st: ChatState, groupId: u64, msg: Message): (r: ChatState)
    ensures r.activeGroupId == st.activeGroupId && r.currentTableId == st.currentTableId
    ensures r.chatWindowFocused == st.chatWindowFocused && r.followScroll == st.followScroll
    ensures r.groups.Keys == st.groups.Keys + {groupId}
    ensures forall id :: id in st.groups && id != groupId ==> r.groups[id] == st.groups[id]
    ensures var before := if groupId in st.groups then st.groups[groupId] else NewGroup(groupId, "(pending?)");
      r.groups[groupId] == before.(messages := before.messages + [msg],
                                   unread := if CountsUnread(st, groupId) then Bumped(before.unread) else before.unread)
  {
    var g := if groupId in st.groups then st.groups[groupId] else NewGroup(groupId, "(pending?)");
    var g' := g.(messages := g.messages + [msg], unread := if CountsUnread(st, groupId) then Bumped(g.unread) else g.unread);
    st.(groups := st.groups[groupId := g'])
  }

  /** The frame kinds applyReady handles, and the rest. */
  datatype ReadyKind = ChatGroupCreate | ChatGroupUpdate | ChatGroupDelete | ChatMessage | OtherFrame

  /** The fields of a decoded ReadyMessage that the chat store reads. */
  datatype ReadyMessage = ReadyMessage(
    kind: ReadyKind,
    fromPeerId: CString,
    tableId: Option<u64>,
    threadId: Option<u64>,
    name: Option<CString>,
    participants: Option<set<CString>>,
    ts: Option<u64>,
    text: Option<CString>)

  function ValueOr<T>(o: Option<T>, default: T): T
  {
    if o.Some? then o.value else default
  }

  /** A frame addressed to the current table, with its table and group ids present. */
  predicate ForCurrentTable(st: ChatState, m: ReadyMessage)
  {
    m.tableId.Some? && m.threadId.Some? && m.tableId.value == st.currentTableId
  }

  /** A chat-message frame carrying all five fields it needs. */
  predicate Complete(m: ReadyMessage)
  {
    m.tableId.Some? && m.threadId.Some? && m.ts.Some? && m.name.Some? && m.text.Some?
  }

  /** ChatGroupCreate: insert the group, or on an existing id replace only its name and participants (owner kept). */
  function ApplyCreate(st: ChatState, m: ReadyMessage, identity: Option<IdentityView>): (r: ChatState)
    requires ForCurrentTable(st, m)
    ensures r == st.(groups := r.groups)
    ensures r.groups.Keys == st.groups.Keys + {m.threadId.value}
    ensures forall id :: id in st.groups && id != m.threadId.value ==> r.groups[id] == st.groups[id]
    ensures m.threadId.value !in st.groups ==>
              r.groups[m.threadId.value] == Group(m.threadId.value, ValueOr(m.name, "Group"), SenderUid(identity, m.fromPeerId),
                                                  ValueOr(m.participants, {}), [], 0)
    ensures m.threadId.value in st.groups ==>
              r.groups[m.threadId.value] == st.groups[m.threadId.value].(name := ValueOr(m.name, "Group"),
                                                                         participants := ValueOr(m.participants, {}))
  {
    var id := m.threadId.value;
    var name := ValueOr(m.name, "Group");
    var parts := ValueOr(m.participants, {});
    if id !in st.groups then
      st.(groups := st.groups[id := Group(id, name, SenderUid(identity, m.fromPeerId), parts, [], 0)])
    else
      st.(groups := st.groups[id := st.groups[id].(name := name, participants := parts)])
  }

  /** ChatGroupUpdate: a stub for an unknown id, otherwise the name and participants that are present. */
  function ApplyUpdate(st: ChatState, m: ReadyMessage, identity: Option<IdentityView>): (r: ChatState)
    requires ForCurrentTable(st, m)
    ensures r == st.(groups := r.groups)
    ensures r.groups.Keys == st.groups.Keys + {m.threadId.value}
    ensures forall id :: id in st.groups && id != m.threadId.value ==> r.groups[id] == st.groups[id]
    ensures m.threadId.value !in st.groups ==>
              r.groups[m.threadId.value] == Group(m.threadId.value, ValueOr(m.name, "Group"), SenderUid(identity, m.fromPeerId),
                                                  ValueOr(m.participants, {}), [], 0)
    ensures m.threadId.value in st.groups ==>
              var g := st.groups[m.threadId.value];
              r.groups[m.threadId.value] == g.(name := if m.name.Some? then m.name.value else g.name,
                                               participants := if m.participants.Some? then m.participants.value else g.participants)
  {
    var id := m.threadId.value;
    if id !in st.groups then
      var stub := Group(id, ValueOr(m.name, "Group"), SenderUid(identity, m.fromPeerId), ValueOr(m.participants, {}), [], 0);
      st.(groups := st.groups[id := stub])
    else
      var g := st.groups[id];
      var g' := g.(name := ValueOr(m.name, g.name), participants := ValueOr(m.participants, g.participants));
      st.(groups := st.groups[id := g'])
  }

  /** The requester owns the group: a non-empty owner equal to the sender's unique id. */
  predicate OwnedBy(g: Group, requester: CString)
  {
    g.ownerUniqueId != "" && g.ownerUniqueId == requester
  }

  /** ChatGroupDelete: never General; only the owner's request removes the group, and an active deleted group hands over to General. */
  function ApplyDelete(st: ChatState, m: ReadyMessage, identity: Option<IdentityView>, generalGroupId: u64): (r: ChatState)
    requires ForCurrentTable(st, m)
    ensures var id := m.threadId.value;
      if id != generalGroupId && id in st.groups && OwnedBy(st.groups[id], SenderUid(identity, m.fromPeerId)) then
        r.groups == st.groups - {id}
        && r.activeGroupId == (if st.activeGroupId == id then generalGroupId else st.activeGroupId)
        && r == st.(groups := r.groups, activeGroupId := r.activeGroupId)
      else r == st
  {
    var id := m.threadId.value;
    if id == generalGroupId || id !in st.groups then st
    else if OwnedBy(st.groups[id], SenderUid(identity, m.fromPeerId)) then
      st.(groups := st.groups - {id}, activeGroupId := if st.activeGroupId == id then generalGroupId else st.activeGroupId)
    else st
  }

  /** applyReady: frames for other tables, or missing a required field, change nothing. */
  function ApplyReady(st: ChatState, m: ReadyMessage, identity: Option<IdentityView>, generalGroupId: u64): (r: ChatState)
    ensures !ForCurrentTable(st, m) ==> r == st
    ensures m.kind == ChatMessage && !Complete(m) ==> r == st
    ensures m.kind == OtherFrame ==> r == st
    ensures r.currentTableId == st.currentTableId
    ensures r.chatWindowFocused == st.chatWindowFocused && r.followScroll == st.followScroll
    ensures ForCurrentTable(st, m) && m.kind == ChatMessage && Complete(m) ==>
              r == AppendMessage(st, m.threadId.value,
                                 Message(ClassifyMessage(m.text.value), SenderUid(identity, m.fromPeerId), m.name.value,
                                         m.text.value, m.ts.value as real))
    ensures ForCurrentTable(st, m) && m.kind == ChatGroupDelete ==>
              var id := m.threadId.value;
              if id != generalGroupId && id in st.groups && OwnedBy(st.groups[id], SenderUid(identity, m.fromPeerId)) then
                id !in r.groups && r.groups == st.groups - {id}
                && r.activeGroupId == (if st.activeGroupId == id then generalGroupId else st.activeGroupId)
              else r == st
    ensures ForCurrentTable(st, m) && (m.kind == ChatGroupCreate || m.kind == ChatGroupUpdate) ==>
              var id := m.threadId.value;
              r.activeGroupId == st.activeGroupId && id in r.groups
              && r.groups[id].name == (if m.kind == ChatGroupUpdate && m.name.None? && id in st.groups
                                       then st.groups[id].name else ValueOr(m.name, "Group"))
              && r.groups[id].ownerUniqueId == (if id in st.groups then st.groups[id].ownerUniqueId
                                                else SenderUid(identity, m.fromPeerId))
              && (m.participants.Some? ==> r.groups[id].participants == m.participants.value)
              && (id in st.groups ==> r.groups[id].messages == st.groups[id].messages
                                      && r.groups[id].unread == st.groups[id].unread)
  {
    if !ForCurrentTable(st, m) then st
    else match m.kind
      case ChatGroupCreate => ApplyCreate(st, m, identity)
      case ChatGroupUpdate => ApplyUpdate(st, m, identity)
      case ChatGroupDelete => ApplyDelete(st, m, identity, generalGroupId)
      case ChatMessage =>
        if !Complete(m) then st
        else
          var text := m.text.value;
          var msg := Message(ClassifyMessage(text), SenderUid(identity, m.fromPeerId), m.name.value, text, m.ts.value as real);
          AppendMessage(st, m.threadId.value, msg)
      case OtherFrame => st
  }

  /** No frame removes General from the store. */
  lemma {:induction false} ApplyReadyKeepsGeneral(st: ChatState, m: ReadyMessage, identity: Option<IdentityView>, generalGroupId: u64)
    requires generalGroupId in st.groups
    ensures generalGroupId in ApplyReady(st, m, identity, generalGroupId).groups
  {
  }

  /**
   * A group disappears only through a delete frame for the current table,
   * naming that group, which is not General and whose non-empty owner is the
   * sender's unique id.
   */
  lemma {:induction false} ApplyReadyRemovesOnlyOwned(st: ChatState, m: ReadyMessage, identity: Option<IdentityView>, generalGroupId: u64, id: u64)
    requires id in st.groups && id !in ApplyReady(st, m, identity, generalGroupId).groups
    ensures m.kind == ChatGroupDelete && ForCurrentTable(st, m) && m.threadId == Some(id)
    ensures id != generalGroupId && OwnedBy(st.groups[id], SenderUid(identity, m.fromPeerId))
  {
  }

  /** A frame touches at most the group it names: every other group is unchanged. */
  lemma {:induction false} ApplyReadyTouchesOneGroup(st: ChatState, m: ReadyMessage, identity: Option<IdentityView>, generalGroupId: u64, id: u64)
    requires id in st.groups && (m.threadId.None? || m.threadId.value != id)
    ensures id in ApplyReady(st, m, identity, generalGroupId).groups
    ensures ApplyReady(st, m, identity, generalGroupId).groups[id] == st.groups[id]
  {
    if ForCurrentTable(st, m) && m.kind == ChatMessage && Complete(m) {
      var text := m.text.value;
      var msg := Message(ClassifyMessage(text), SenderUid(identity, m.fromPeerId), m.name.value, text, m.ts.value as real);
      assert ApplyReady(st, m, identity, generalGroupId) == AppendMessage(st, m.threadId.value, msg);
    }
  }

  /** Unread counters that start at most 999 stay at most 999. */
  lemma {:induction false} ApplyReadyKeepsUnreadBound(st: ChatState, m: ReadyMessage, identity: Option<IdentityView>, generalGroupId: u64)
    requires forall id :: id in st.groups ==> st.groups[id].unread <= 999
    ensures var r := ApplyReady(st, m, identity, generalGroupId);
      forall id :: id in r.groups ==> r.groups[id].unread <= 999
  {
  }

  /**
   * pushMessageLocal: the sender is the peer's unique id for an incoming
   * message and my own unique id otherwise (empty without an identity manager).
   */
  function PushMessageLocal(st: ChatState, groupId: u64, fromPeer: CString, username: CString, text: CString,
                            ts: real, incoming: bool, identity: Option<IdentityView>): (r: ChatState)
    ensures groupId in r.groups
    ensures var before := if groupId in st.groups then st.groups[groupId].messages else [];
      var sender := if incoming then SenderUid(identity, fromPeer) else if identity.Some? then identity.value.myUniqueId else "";
      r.groups[groupId].messages == before + [Message(ClassifyMessage(text), sender, username, text, ts)]
    ensures forall id :: id in st.groups && id != groupId ==> id in r.groups && r.groups[id] == st.groups[id]
  {
    var sender := if incoming then SenderUid(identity, fromPeer) else if identity.Some? then identity.value.myUniqueId else "";
    AppendMessage(st, groupId, Message(ClassifyMessage(text), sender, username, text, ts))
  }

  /**
   * The local part of emitGroupLeave: nothing happens without a network, a
   * current table or an identity manager, for General, for an unknown group,
   * or for the group's owner; otherwise my unique id leaves the participants
   * and, if the group was active, General becomes active.
   */
  function LeaveGroup(st: ChatState, groupId: u64, identity: Option<IdentityView>, networkUp: bool, hasCurrent: bool,
                      generalGroupId: u64): (r: ChatState)
    ensures r.groups.Keys == st.groups.Keys
    ensures forall id :: id in st.groups && id != groupId ==> r.groups[id] == st.groups[id]
    ensures r != st ==> identity.Some? && groupId in st.groups && groupId != generalGroupId
                        && !OwnedBy(st.groups[groupId], identity.value.myUniqueId)
    ensures r != st ==> r.groups[groupId] == st.groups[groupId].(participants := st.groups[groupId].participants - {identity.value.myUniqueId})
    ensures r.activeGroupId == st.activeGroupId || (r.activeGroupId == generalGroupId && st.activeGroupId == groupId)
    ensures networkUp && hasCurrent && identity.Some? && groupId in st.groups && groupId != generalGroupId
            && !OwnedBy(st.groups[groupId], identity.value.myUniqueId) ==>
              r.groups[groupId].participants == st.groups[groupId].participants - {identity.value.myUniqueId}
              && r.activeGroupId == (if st.activeGroupId == groupId then generalGroupId else st.activeGroupId)
    ensures !networkUp || !hasCurrent ==> r == st
  {
    if !networkUp || !hasCurrent || groupId == generalGroupId || groupId !in st.groups || identity.None? then st
    else
      var me := identity.value.myUniqueId;
      var g := st.groups[groupId];
      if OwnedBy(g, me) then st
      else
        var g' := g.(participants := g.participants - {me});
        st.(groups := st.groups[groupId := g'],
            activeGroupId := if st.activeGroupId == groupId && me !in g'.participants then generalGroupId else st.activeGroupId)
  }

  /** One message with its cached username replaced when it was sent by `uniqueId`. */
  function RenamedMessage(m: Message, uniqueId: CString, newUsername: CString): Message
  {
    if m.senderUniqueId == uniqueId then m.(username := newUsername) else m
  }

  /** replaceUsernameForUnique, on one group's history. */
  function RenamedGroup(g: Group, uniqueId: CString, newUsername: CString): (r: Group)
    ensures r.id == g.id && r.name == g.name && r.ownerUniqueId == g.ownerUniqueId
    ensures r.participants == g.participants && r.unread == g.unread
    ensures |r.messages| == |g.messages|
    ensures forall k :: 0 <= k < |g.messages| ==>
              r.messages[k] == if g.messages[k].senderUniqueId == uniqueId then g.messages[k].(username := newUsername) else g.messages[k]
  {
    g.(messages := seq(|g.messages|, k requires 0 <= k < |g.messages| => RenamedMessage(g.messages[k], uniqueId, newUsername)))
  }

  /** Renaming is exact: every message by that sender gets the new name, no other message changes. */
  lemma {:induction false} RenameIsExact(g: Group, uniqueId: CString, newUsername: CString, k: nat)
    requires k < |g.messages|
    ensures RenamedGroup(g, uniqueId, newUsername).messages[k].username
         == if g.messages[k].senderUniqueId == uniqueId then newUsername else g.messages[k].username
    ensures RenamedGroup(g, uniqueId, newUsername).messages[k].content == g.messages[k].content
  {
  }

  // ---------------------------------------------------------------------
  // "/roll NdM(+K)"
  // ---------------------------------------------------------------------

  /** The end of the run of digits starting at `i`. */
  function DigitRunEnd(s: string, i: nat): (j: nat)
    requires i <= |s|
    ensures i <= j <= |s|
    ensures forall k :: i <= k < j ==> IsDigit(s[k])
    ensures j == |s| || !IsDigit(s[j])
    decreases |s| - i
  {
    if i < |s| && IsDigit(s[i]) then DigitRunEnd(s, i + 1) else i
  }

  /**
   * The parseInt lambda: the digits at `i`, as the `int` it accumulates them
   * in, and the index after them; -1 when there are none.
   */
  function ParseIntAt(s: string, i: nat): (r: (int32, nat))
    requires i <= |s|
    ensures r.1 == DigitRunEnd(s, i)
    ensures r.1 == i ==> r.0 == -1
    ensures r.1 > i ==> r.0 == WrapInt32(DigitsValue(s[i..r.1]))
    ensures r.1 > i && DigitsValue(s[i..r.1]) < 0x8000_0000 ==> r.0 == DigitsValue(s[i..r.1])
  {
    var j := DigitRunEnd(s, i);
    if j == i then (-1, i) else (WrapInt32(DigitsValue(s[i..j])), j)
  }

  /** The index after the white space starting at `i`. */
  function SkipSpaces(s: string, i: nat): (j: nat)
    requires i <= |s|
    ensures i <= j <= |s|
    ensures forall k :: i <= k < j ==> IsSpace(s[k])
    ensures j == |s| || !IsSpace(s[j])
    decreases |s| - i
  {
    if i < |s| && IsSpace(s[i]) then SkipSpaces(s, i + 1) else i
  }

  /** The modifier once the sign at `k` is seen and Z is read after it. */
  lemma {:induction false} ModifierOf(input: string, k: nat, z: int32)
    requires k < |input| && (input[k] == '+' || input[k] == '-')
    requires z == ParseIntAt(input, k + 1).0
    ensures ParseModifier(input, k) == if z <= 0 then 0 else if input[k] == '-' then -z else z
  {
  }

  /** The dice count, the die size and the modifier of a roll command. */
  datatype RollSpec = RollSpec(count: int32, sides: int32, modifier: int32)

  /** The optional "+Z" or "-Z" at `k`: Z with its sign when Z > 0, and 0 otherwise. */
  function ParseModifier(input: string, k: nat): (z: int32)
    requires k <= |input|
    ensures z != 0 ==> k < |input| && (input[k] == '+' || input[k] == '-')
    ensures z > 0 ==> input[k] == '+'
    ensures z < 0 ==> input[k] == '-'
  {
    if k < |input| && (input[k] == '+' || input[k] == '-') then
      var z := ParseIntAt(input, k + 1).0;
      if z > 0 then (if input[k] == '-' then -z else z) else 0
    else 0
  }

  /** "NdM" and the modifier, from index `i`: N > 0, then 'd', then M > 0. */
  function ParseDice(input: string, i: nat): (r: Option<RollSpec>)
    requires i <= |input|
    ensures r.Some? ==> r.value.count > 0 && r.value.sides > 0
  {
    var (n, j) := ParseIntAt(input, i);
    if j >= |input| || input[j] != 'd' || n <= 0 then None
    else
      var (m, k) := ParseIntAt(input, j + 1);
      if m <= 0 then None
      else Some(RollSpec(n, m, ParseModifier(input, k)))
  }

  /**
   * The parsing in tryHandleSlashCommand: "/roll", white space, N > 0, 'd',
   * M > 0, then optionally '+' or '-' and Z, which counts only when Z > 0;
   * anything after that is ignored.
   */
  function ParseRoll(input: string): (r: Option<RollSpec>)
    ensures !("/roll" <= input) ==> r.None?
    ensures r.Some? ==> r.value.count > 0 && r.value.sides > 0
  {
    if !("/roll" <= input) then None
    else ParseDice(input, SkipSpaces(input, 5))
  }

  /** The written form of a modifier: "+K", "-K", or nothing for 0. */
  function ModifierText(z: int): string
  {
    if z > 0 then "+" + DecimalString(z)
    else if z < 0 then "-" + DecimalString(-z)
    else ""
  }

  /** The canonical command text for a roll: "/roll NdM" and the modifier. */
  function RollCommand(spec: RollSpec): string
    requires spec.count > 0 && spec.sides > 0
  {
    "/roll " + DecimalString(spec.count) + "d" + DecimalString(spec.sides) + ModifierText(spec.modifier)
  }

  lemma {:induction false} DigitRunFrom(s: string, i: nat, j: nat)
    requires i <= j <= |s|
    requires forall k :: i <= k < j ==> IsDigit(s[k])
    requires j == |s| || !IsDigit(s[j])
    ensures DigitRunEnd(s, i) == j
    decreases j - i
  {
    if i < j {
      DigitRunFrom(s, i + 1, j);
    }
  }

  /**
   * The digits of `n` followed by text that does not start with a digit read
   * back as `n` wrapped to an `int`, which is `n` itself below 2^31.
   */
  lemma {:induction false} ParseDecimalAt(pre: string, n: nat, post: string)
    requires post == [] || !IsDigit(post[0])
    ensures var s := pre + DecimalString(n) + post;
      ParseIntAt(s, |pre|) == (WrapInt32(n), |pre| + |DecimalString(n)|)
  {
    var d := DecimalString(n);
    var s := pre + d + post;
    DigitRunFrom(s, |pre|, |pre| + |d|);
    assert s[|pre|..|pre| + |d|] == d;
    DecimalStringValue(n);
  }

  /** The digits of a number below 2^31 read back as that number. */
  lemma {:induction false} ParseSmallDecimalAt(pre: string, n: nat, post: string)
    requires n < 0x8000_0000
    requires post == [] || !IsDigit(post[0])
    ensures ParseIntAt(pre + DecimalString(n) + post, |pre|).0 == n
    ensures ParseIntAt(pre + DecimalString(n) + post, |pre|).1 == |pre| + |DecimalString(n)|
  {
    ParseDecimalAt(pre, n, post);
  }

  lemma {:induction false} ModifierRoundTrip(pre: string, z: int32)
    requires z != -0x8000_0000
    ensures ParseModifier(pre + ModifierText(z), |pre|) == z
  {
    var s := pre + ModifierText(z);
    if z != 0 {
      var sign := if z > 0 then '+' else '-';
      var v := if z > 0 then z else -z;
      assert s == (pre + [sign]) + DecimalString(v) + "";
      ParseSmallDecimalAt(pre + [sign], v, "");
      assert s[|pre|] == sign;
    }
  }

  lemma {:induction false} DiceRoundTrip(pre: string, spec: RollSpec)
    requires spec.count > 0 && spec.sides > 0 && spec.modifier != -0x8000_0000
    ensures var s := pre + DecimalString(spec.count) + "d" + DecimalString(spec.sides) + ModifierText(spec.modifier);
      ParseDice(s, |pre|) == Some(spec)
  {
    var n, m, tail := DecimalString(spec.count), DecimalString(spec.sides), ModifierText(spec.modifier);
    var s := pre + n + "d" + m + tail;
    assert s == pre + n + ("d" + m + tail);
    ParseSmallDecimalAt(pre, spec.count, "d" + m + tail);
    var j := |pre| + |n|;
    assert s[j] == 'd';
    assert s == (pre + n + "d") + m + tail;
    if tail != [] {
      assert tail[0] == '+' || tail[0] == '-';
    }
    ParseSmallDecimalAt(pre + n + "d", spec.sides, tail);
    assert s == (pre + n + "d" + m) + tail;
    ModifierRoundTrip(pre + n + "d" + m, spec.modifier);
    DiceParsed(s, |pre|, spec.count, j, spec.sides, j + 1 + |m|, spec.modifier);
  }

  /** Parsing the canonical command gives the roll back. */
  lemma {:induction false} RollCommandRoundTrip(spec: RollSpec)
    requires spec.count > 0 && spec.sides > 0 && spec.modifier != -0x8000_0000
    ensures ParseRoll(RollCommand(spec)) == Some(spec)
  {
    var n := DecimalString(spec.count);
    var s := RollCommand(spec);
    var rest := n + "d" + DecimalString(spec.sides) + ModifierText(spec.modifier);
    assert s == "/roll " + rest;
    assert s[..5] == "/roll";
    assert s[5] == ' ' && s[6] == n[0];
    assert SkipSpaces(s, 6) == 6;
    assert SkipSpaces(s, 5) == 6;
    DiceRoundTrip("/roll ", spec);
  }

  /**
   * Any count is read as its wrap to an `int`: a count that wraps to zero
   * or below (3000000000, say) makes the command malformed, and one that
   * wraps to a positive value (4294967297 wraps to 1) rolls that many dice.
   */
  lemma {:induction false} RollCountWraps(n: nat)
    ensures ParseRoll("/roll " + DecimalString(n) + "d6")
         == if WrapInt32(n) > 0 then Some(RollSpec(WrapInt32(n), 6, 0)) else None
  {
    var d := DecimalString(n);
    var s := "/roll " + d + "d6";
    ParseDecimalAt("/roll ", n, "d6");
    assert s[5] == ' ' && s[6] == d[0];
    assert SkipSpaces(s, 6) == 6;
    assert SkipSpaces(s, 5) == 6;
    assert "/roll" <= s;
    if WrapInt32(n) > 0 {
      var j := 6 + |d|;
      assert s[j] == 'd';
      assert DecimalString(6) == "6";
      assert s == ("/roll " + d + "d") + DecimalString(6) + "";
      ParseSmallDecimalAt("/roll " + d + "d", 6, "");
      DiceParsed(s, 6, WrapInt32(n), j, 6, |s|, 0);
    }
  }

  /** The parseInt lambda: a digit loop from `i`, leaving `j` after the digits. */
  method ParseInt(s: string, i: nat) returns (v: int32, j: nat)
    requires i <= |s|
    ensures v == ParseIntAt(s, i).0 && j == ParseIntAt(s, i).1
  {
    v := 0;
    var any := false;
    j := i;
    while j < |s| && IsDigit(s[j])
      invariant i <= j <= |s|
      invariant forall k :: i <= k < j ==> IsDigit(s[k])
      invariant any <==> j > i
      invariant v == WrapInt32(DigitsValue(s[i..j]))
      invariant DigitRunEnd(s, i) == DigitRunEnd(s, j)
      decreases |s| - j
    {
      any := true;
      assert s[i..j + 1] == s[i..j] + [s[j]];
      WrapStep(DigitsValue(s[i..j]), s[j] as int - '0' as int);
      v := WrapInt32(v * 10 + (s[j] as int - '0' as int));
      j := j + 1;
    }
    if !any {
      v := -1;
    }
  }

  /**
   * The parsing steps of tryHandleSlashCommand, in the order the source
   * takes them: the prefix test, the white-space loop, N and 'd', M, and
   * the optional signed modifier.
   */
  method ParseRollCommand(input: string) returns (spec: Option<RollSpec>)
    ensures spec == ParseRoll(input)
  {
    if !(|input| >= 5 && input[..5] == "/roll") {
      return None;
    }
    var i := 5;
    while i < |input| && IsSpace(input[i])
      invariant 5 <= i <= |input|
      invariant SkipSpaces(input, 5) == SkipSpaces(input, i)
      decreases |input| - i
    {
      i := i + 1;
    }
    assert "/roll" <= input && i == SkipSpaces(input, 5);
    spec := ParseDiceFrom(input, i);
  }

  /** The rest of tryHandleSlashCommand's parsing: N, 'd', M and the optional modifier, read from `i`. */
  method ParseDiceFrom(input: string, i: nat) returns (spec: Option<RollSpec>)
    requires i <= |input|
    ensures spec == ParseDice(input, i)
  {
    var n, j, m, k2, z;
    n, j := ParseInt(input, i);
    if j >= |input| || input[j] != 'd' || n <= 0 {
      return None;
    }
    m, k2 := ParseInt(input, j + 1);
    if m <= 0 {
      return None;
    }
    var k: int32 := 0;
    if k2 < |input| && (input[k2] == '+' || input[k2] == '-') {
      var neg := input[k2] == '-';
      var after;
      z, after := ParseInt(input, k2 + 1);
      ModifierOf(input, k2, z);
      if z > 0 {
        k := if neg then -z else z;
      }
    }
    DiceParsed(input, i, n, j, m, k2, k);
    return Some(RollSpec(n, m, k));
  }

  lemma {:induction false} DiceParsed(input: string, i0: nat, n: int32, j: nat, m: int32, j2: nat, k: int32)
    requires i0 <= |input|
    requires n == ParseIntAt(input, i0).0 && j == ParseIntAt(input, i0).1
    requires j < |input| && input[j] == 'd' && n > 0
    requires m == ParseIntAt(input, j + 1).0 && j2 == ParseIntAt(input, j + 1).1 && m > 0
    requires k == ParseModifier(input, j2)
    ensures ParseDice(input, i0) == Some(RollSpec(n, m, k))
  {
  }

  /** markGroupRead: only that group's unread counter goes to zero; an unknown id changes nothing. */
  function MarkGroupRead(groups: map<u64, Group>, groupId: u64): (r: map<u64, Group>)
    ensures r.Keys == groups.Keys
    ensures groupId in groups ==> r[groupId] == groups[groupId].(unread := 0)
    ensures forall id :: id in groups && id != groupId ==> r[id] == groups[id]
  {
    if groupId in groups then groups[groupId := groups[groupId].(unread := 0)] else groups
  }

  /** replaceUsernameForUnique: every group's history renamed; nothing else in any group changes. */
  function RenameEverywhere(groups: map<u64, Group>, uniqueId: CString, newUsername: CString): (r: map<u64, Group>)
    ensures r.Keys == groups.Keys
    ensures forall id :: id in groups ==> r[id] == RenamedGroup(groups[id], uniqueId, newUsername)
  {
    map id | id in groups :: RenamedGroup(groups[id], uniqueId, newUsername)
  }
}
