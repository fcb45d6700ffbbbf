# RunicVTT core, modelled in Dafny

This project models the self-contained logic of RunicVTT, a virtual tabletop
for playing role-playing games over WebRTC, and proves properties of it.
Each core source file has its own Dafny module, in the form the source has:
pure functions where the source only computes, and classes with `modifies`
clauses where the source updates state in place.

- `EpochArbiter` (include/network/EpochArbiter.h) decides which peer owns
  the drag of a marker. Drag epochs only grow, and ownership is settled by
  a lexicographic tie-break. Stale sequence numbers and echoes of our own
  moves are dropped.
- `Serializer` (include/Serializer.h) covers the byte encoders and
  offset-advancing decoders, with a round trip for each.
- `ChatGroups` and `ChatLog` (src/ChatManager.cpp) model the chat group
  store and its save/load log format. Their partners in
  include/network/ChatManager.h are the header-only thread store,
  `ChatThreads`, and its file format, `ChatThreadsLog`.
- The game data channel of src/network/NetworkManager.cpp spans five
  modules:
  - `GameFrames`: the frame builders and the chunked image send;
  - `ImageReceiver`: the decoder and its handlers;
  - `ImageDelivery`: the sender-to-receiver delivery theorems;
  - `FrameFindings`: two discrepancies, as written and corrected;
  - `NetworkAddress`: connection strings.
  `PeerTable` models its peer pruning.
- `LegacyNetwork` (src/NetworkManager_OLD.cpp) models the two-queue send
  scheduler, message framing, image chunk reassembly and the password
  check.
- `Identity` (src/IdentityManager.cpp) is the peer/unique-id address book.
- `Logger` (include/debug/Logger.h) covers bounded channels, sinks, level
  detection and the line-splitting stream buffer. `Toaster`
  (include/ImGuiToaster.h) is the bounded toast queue.
- `MarkdownRenderer` and `MarkerRenderer` handle link dispatch in the note
  editor. `NoteManager` parses front matter and generates UUIDs.
- `AssetIO` models asset naming and the deletion guard. `FirewallUtils`
  models PowerShell quoting.
- `DirectoryWindow` and `DebugConsole` model the image list and channel
  lists. `VertexLayout` models vertex attribute layout.
- `PeerLink` (src/network/PeerLink.cpp) models ICE candidate buffering,
  channel flags and the send guard.
- `TunnelController` and `TunnelControllerPackaged` model the two versions
  of the localtunnel controller subprocess. The first is
  external/lt-controller.js; the second is the copy shipped in the Windows
  package.
- `CTypes` holds the fixed-width C++ types and their wrap-around, and
  `Wrappers` holds `Option` and `Result`.

## Model

| member | source | states |
|---|---|---|
| AssetIO.SlugChar | include/AssetIO.h:62-70 | each character yields at most one slug-safe character, and a slug-safe one is kept as it is |
| AssetIO.SlugBody | include/AssetIO.h:60-71 | the kept characters are slug-safe and no more than the input's |
| AssetIO.Slug | include/AssetIO.h:56-75 | the slug is never empty, is slug-safe, and is "asset" exactly when nothing was kept |
| AssetIO.SlugBodyAppend | include/AssetIO.h:60-71 | slugging works character by character: the slug body of a join is the join of the slug bodies |
| AssetIO.SlugBodyOfSafe | include/AssetIO.h:63-66 | a string of slug-safe characters is its own slug body |
| AssetIO.SlugIdempotent | include/AssetIO.h:56-75 | slugify is idempotent |
| AssetIO.Slugify | include/AssetIO.h:56-75 | the loop computes the slug |
| AssetIO.LastDot | include/AssetIO.h:86 | the index found is the last '.', and none is found only without a '.' |
| AssetIO.Extension | include/AssetIO.h:86 | the extension is empty or a '.'-led tail of the name with no other '.' and not the whole name (also lines 157 and 240) |
| AssetIO.Stem | include/AssetIO.h:85 | stem followed by extension is the file name, and a name with an extension has a non-empty stem (also lines 158 and 241) |
| AssetIO.ImportBaseName | include/AssetIO.h:156-159 | the imported name ends with the original extension and is slug-safe before it (also lines 240-242) |
| AssetIO.Numbered | include/AssetIO.h:89 | the numbered alternative is longer than the base name |
| AssetIO.Duplicate | include/AssetIO.h:94 | the fallback adds "_dup" to the base name |
| AssetIO.UniqueName | include/AssetIO.h:78-95 | the base name when it is free; otherwise the first free "stem (i)ext" with i below 100000; otherwise "stem_dup"+ext when all of those are taken |
| AssetIO.LastSeparator | include/AssetIO.h:231 | the index found is the last '/' or '\\', and none is found only without one |
| AssetIO.UrlFileName | include/AssetIO.h:230-237 | the download name is the non-empty text after the last separator, or "asset" when there is no separator or the URL ends with one |
| AssetIO.Narrow | include/AssetIO.h:239 | the narrow copy has the same length and keeps each code unit's low byte |
| AssetIO.CommonPrefix | include/AssetIO.h:305 | the common prefix is shared by both paths and cannot be extended |
| AssetIO.LexicallyRelative | include/AssetIO.h:305 | the relative path is empty exactly across drives, and otherwise non-empty |
| AssetIO.RefusesExactlyOutside | include/AssetIO.h:303-309 | the intended guard refuses exactly the targets outside the assets root |
| AssetIO.RefusesAsWrittenSafe | include/AssetIO.h:303-309 | the guard as written lets nothing outside the assets root through |
| AssetIO.RefusesAsWrittenInside | include/AssetIO.h:306 | the guard as written refuses the file "..a.png" inside the root, which the intended guard accepts |
| AssetIO.EntryCheck | include/AssetIO.h:311-319 | a target passes exactly when it exists as a regular file; a missing one is "File not found" |
| AssetIO.DeleteCheck | include/AssetIO.h:284-319 | an invalid root, a failed canonicalization and a refused target each give their error; a deletion goes ahead only for an existing regular file the guard as written lets through |
| AssetIO.DeleteStaysInside | include/AssetIO.h:284-319 | what the checks as written let through is a regular file inside the assets root |
| AssetIO.DeleteCheckIntended | include/AssetIO.h:284-319 | the same checks with the intended guard, with the same errors |
| AssetIO.DeleteStaysInsideIntended | include/AssetIO.h:284-319 | with the intended guard a deletion goes ahead exactly for a regular file inside the root, and it accepts whatever the guard as written accepts |
| AssetIO.DeleteRefusedInside | include/AssetIO.h:306 | an existing "..a.png" in the root is refused as written and deleted as intended |
| ChatGroups.EndsWithIgnoreCase | src/ChatManager.cpp:21-28 | true exactly when the suffix fits and both ends agree after C-locale tolower |
| ChatGroups.ClassifyMessage | src/ChatManager.cpp:30-37 | IMAGE exactly for a case-insensitive .png/.jpg/.jpeg suffix (tested first), LINK exactly for a non-image with an http:// or https:// prefix, TEXT exactly otherwise |
| ChatGroups.ImageLinkIsImage | src/ChatManager.cpp:32-35 | a link ending in .PNG is classified as an image, because the suffix test comes first |
| ChatGroups.Xor64 | src/ChatManager.cpp:226 | the uint64 exclusive or is the bitwise exclusive or of the two values |
| ChatGroups.MakeGroupIdFromHash | src/ChatManager.cpp:220-228 | the name's hash is kept unless it is 0 or the General id; whenever General's id is not the golden-ratio constant the result is neither 0 nor General's id |
| ChatGroups.EnsureGeneral | src/ChatManager.cpp:65-75 | General is present afterwards; a missing General is added with no owner, and an existing store is returned unchanged |
| ChatGroups.SenderUid | src/ChatManager.cpp:336-355 | the sender's unique id: the bound one, "Player" for an unbound peer, and empty without an identity manager |
| ChatGroups.Bumped | src/ChatManager.cpp:370-371 | the unread counter after one more message: +1 below 999, 999 from there, and 0 when the uint32 addition wraps |
| ChatGroups.AppendMessage | src/ChatManager.cpp:359-371 | the message goes at the back of its group, a "(pending?)" stub is created for an unknown group, unread is bumped unless the group is active, focused and following, and no other group changes |
| ChatGroups.ApplyCreate | src/ChatManager.cpp:249-281 | only the named group changes: a new id gets the frame's name or "Group", the sender's unique id as owner, the frame's participants or none, no messages and no unread; an existing group keeps its owner, messages and unread and takes the name and participants with the same defaults |
| ChatGroups.ApplyUpdate | src/ChatManager.cpp:283-313 | only the named group changes: an unknown id gets a stub with the frame's name or "Group", the sender as owner and the frame's participants or none; an existing group takes only the name and participants the frame carries |
| ChatGroups.ApplyDelete | src/ChatManager.cpp:315-337 | a delete of a non-General group whose non-empty owner is the sender removes exactly that group and moves an active deleted group to General; any other delete changes nothing |
| ChatGroups.ApplyReady | src/ChatManager.cpp:243-378 | frames for another table, frames missing a required field, and other frame kinds change nothing; a complete chat message is appended to its group as AppendMessage does, with the sender's unique id, name, text and timestamp; an owner's delete of a non-General group removes exactly that group and moves an active deleted group to General, any other delete changes nothing; create and update leave the active group alone and give the group the frame's name (or "Group", or for update its old name), the participants the frame carries and, for a new group, the sender as owner, keeping an existing group's messages and unread count; table, focus and scroll flags are never changed |
| ChatGroups.ApplyReadyKeepsGeneral | src/ChatManager.cpp:320-321 | no frame removes General |
| ChatGroups.ApplyReadyRemovesOnlyOwned | src/ChatManager.cpp:315-337 | a group disappears only through a delete frame for the current table naming it, when it is not General and its non-empty owner is the sender's unique id |
| ChatGroups.ApplyReadyTouchesOneGroup | src/ChatManager.cpp:243-378 | a frame changes at most the group it names |
| ChatGroups.ApplyReadyKeepsUnreadBound | src/ChatManager.cpp:370-371 | unread counters that start at most 999 stay at most 999 |
| ChatGroups.PushMessageLocal | src/ChatManager.cpp:381-418 | the classified message is appended to its group with the peer's unique id as sender for an incoming message and my own id otherwise; other groups are unchanged |
| ChatGroups.LeaveGroup | src/ChatManager.cpp:511-546 | nothing changes without network or table, nor without identity, for General, an unknown group or the owner; when all hold, my id leaves that group's participants and an active group becomes General; no other group changes |
| ChatGroups.RenamedGroup | src/ChatManager.cpp:580-584 | one group's history with exactly the messages of that sender renamed; everything else in the group kept |
| ChatGroups.RenameIsExact | src/ChatManager.cpp:580-584 | each message gets the new name exactly when its sender matches, and its content never changes |
| ChatGroups.RenameEverywhere | src/ChatManager.cpp:566-586 | every group's history is renamed and nothing else in any group changes |
| ChatGroups.MarkGroupRead | src/ChatManager.cpp:1622-1626 | only that group's unread counter becomes 0; an unknown id changes nothing |
| ChatGroups.DigitRunEnd | src/ChatManager.cpp:741 | the end of the run of digits at `i`: everything before it is a digit and the character at it is not |
| ChatGroups.ParseIntAt | src/ChatManager.cpp:738-748 | the index after the digit run, -1 when there are no digits, and otherwise the digits' value wrapped to a 32-bit int, which is the value itself below 2^31 |
| ChatGroups.SkipSpaces | src/ChatManager.cpp:751-753 | the index after the white space at `i` |
| ChatGroups.ModifierOf | src/ChatManager.cpp:766-773 | after a sign, the modifier is Z with that sign when Z > 0 and 0 otherwise |
| ChatGroups.ParseModifier | src/ChatManager.cpp:765-773 | a non-zero modifier needs a sign at `k`, positive after '+' and negative after '-' |
| ChatGroups.ParseDice | src/ChatManager.cpp:755-773 | an accepted "NdM" has N > 0 and M > 0 |
| ChatGroups.ParseRoll | src/ChatManager.cpp:727-773 | a command not starting with "/roll" is not a roll; an accepted one has positive count and sides |
| ChatGroups.DigitRunFrom | src/ChatManager.cpp:741 | a run of digits ending before a non-digit is found by DigitRunEnd |
| ChatGroups.ParseDecimalAt | src/ChatManager.cpp:738-748 | the decimal digits of any n followed by a non-digit read back as n wrapped to an int |
| ChatGroups.ParseSmallDecimalAt | src/ChatManager.cpp:738-748 | the decimal digits of n below 2^31 read back as n |
| ChatGroups.ModifierRoundTrip | src/ChatManager.cpp:765-773 | the text of any modifier but the int minimum reads back as that modifier |
| ChatGroups.DiceRoundTrip | src/ChatManager.cpp:755-773 | "NdM" plus modifier text reads back as the roll for positive N and M |
| ChatGroups.RollCommandRoundTrip | src/ChatManager.cpp:727-773 | parsing the canonical "/roll NdM+K" command gives the roll back |
| ChatGroups.RollCountWraps | src/ChatManager.cpp:738-759 | a count is read as its 32-bit wrap: one that wraps to 0 or below makes the command malformed, one that wraps to a positive value rolls that many dice |
| ChatGroups.ParseInt | src/ChatManager.cpp:738-748 | the digit loop with its int accumulator computes ParseIntAt's value and end index |
| ChatGroups.ParseRollCommand | src/ChatManager.cpp:727-773 | the source's step-by-step parse computes ParseRoll |
| ChatGroups.ParseDiceFrom | src/ChatManager.cpp:755-773 | the source's parse of N, 'd', M and the modifier computes ParseDice |
| ChatGroups.DiceParsed | src/ChatManager.cpp:755-773 | once N > 0, 'd', M > 0 and the modifier are read, the roll is exactly those three values |
| CTypes.WrapInt32 | src/ChatManager.cpp:744 | an int result kept to 32 bits: unchanged within range, 2^32 less just above it |
| CTypes.WrapStep | src/ChatManager.cpp:744 | `v = v*10 + digit` on an int that has already wrapped gives the wrap of the true value |
| ChatLog.BelowIrreflexive | src/ChatManager.cpp:97-98 | std::string's operator< never holds between a string and itself |
| ChatLog.BelowTransitive | src/ChatManager.cpp:97-98 | std::string's operator< is transitive |
| ChatLog.BelowTotal | src/ChatManager.cpp:97-98 | of two distinct strings one is below the other |
| ChatLog.SetOrder | src/ChatManager.cpp:97-98 | the participants in the order a range-for over std::set visits them: each exactly once, strictly ascending |
| ChatLog.SetOrderFirst | src/ChatManager.cpp:97-98 | the visit starts with the least participant and continues with the rest |
| ChatLog.WireInverts | include/Serializer.h:278-335 | the serializer's int, uint64 and string readers invert its writers at any offset of any buffer |
| ChatLog.KindOfCode | src/ChatManager.cpp:146 | the kind cast back from an int gives that int's code again |
| ChatLog.KindRoundTrip | src/ChatManager.cpp:104-146 | a stored message kind reads back as the same kind |
| ChatLog.WholeSeconds | src/ChatManager.cpp:108 | the uint64 cast of a timestamp is its whole part: at most the timestamp and less than one below it |
| ChatLog.Visit | src/ChatManager.cpp:91 | the groups saveLog visits are the store's groups in the iteration order given |
| ChatLog.Elements | src/ChatManager.cpp:140-141 | the participants inserted into a set are exactly the strings read |
| ChatLog.AtLeastZero | src/ChatManager.cpp:124-143 | a for-loop up to a negative int count runs zero times |
| ChatLog.Emplace | src/ChatManager.cpp:161 | emplacing groups in order adds their ids and never replaces an existing key, so the first group with an id wins |
| ChatLog.Adopt | src/ChatManager.cpp:164-167 | after loading, General exists, the key set gains only General, and the active group is kept if it exists and otherwise becomes General |
| ChatLog.LoadLog | src/ChatManager.cpp:114-169 | a wrong magic string fails before the store is touched; a successful load has General and an existing active group, keeping the old active group when it exists |
| ChatLog.ReadItemsInverse | src/ChatManager.cpp:124-162 | a counted list of items written in order reads back as the same values, ending after the last one |
| ChatLog.Reloaded | src/ChatManager.cpp:104-151 | a message comes back from the file with kind, sender, username and content kept and the timestamp cut to whole seconds |
| ChatLog.ReloadedAll | src/ChatManager.cpp:143-152 | every message of a list is reloaded, in order |
| ChatLog.ReloadedGroup | src/ChatManager.cpp:91-110 | a group comes back with id, name, owner, participants and unread kept and each message reloaded |
| ChatLog.ReadRecordInverse | src/ChatManager.cpp:104-151 | a message record written at an offset reads back field by field |
| ChatLog.ReadMessageInverse | src/ChatManager.cpp:101-152 | a stored message reads back as its reloaded form, ending after its record |
| ChatLog.ReadMessagesInverse | src/ChatManager.cpp:101-152 | a group's messages read back, in order, as their reloaded forms |
| ChatLog.ReadParticipantsInverse | src/ChatManager.cpp:97-141 | the participant strings written in set order read back in that order |
| ChatLog.GroupHeadInverse | src/ChatManager.cpp:93-138 | a group record's id, name and owner read back |
| ChatLog.CountInverse | src/ChatManager.cpp:97-142 | a written count reads back as the int cast of the length |
| ChatLog.GroupFieldsInverse | src/ChatManager.cpp:129-160 | each field of a group record reads back in order, each ending where the next begins (written at lines 93-110) |
| ChatLog.GroupFieldsRead | src/ChatManager.cpp:129-160 | the fields read back make up the saved group, with reloaded messages and unread cast back to uint32 |
| ChatLog.ReadGroupInverse | src/ChatManager.cpp:127-161 | a stored group reads back as its reloaded form, ending after its record (written at lines 91-110) |
| ChatLog.ReloadedGroups | src/ChatManager.cpp:91-110 | every group of a list is reloaded, in order |
| ChatLog.ReadGroupsInverse | src/ChatManager.cpp:124-162 | the groups written in visiting order read back, in that order, as their reloaded forms (written at lines 90-111) |
| ChatLog.LogHeadInverse | src/ChatManager.cpp:87-124 | the magic string, version and group count read back from offset 0 |
| ChatLog.LoadFromParts | src/ChatManager.cpp:114-169 | once magic, version, count and groups are read, loadLog's result is the groups emplaced and adopted |
| ChatLog.EmplaceDistinct | src/ChatManager.cpp:161 | emplacing groups with distinct ids keeps each under its id |
| ChatLog.ReloadedStore | src/ChatManager.cpp:85-169 | the store as it comes back: same keys, every group reloaded |
| ChatLog.RebuildStore | src/ChatManager.cpp:124-162 | reading the groups back in visiting order rebuilds the store, each group under its own id (written at lines 90-91) |
| ChatLog.LoadLogFrom | src/ChatManager.cpp:114-169 | a log written from a list of groups reads back as those groups, reloaded and emplaced |
| ChatLog.LoadLogInverse | src/ChatManager.cpp:85-169 | for any codec that inverts its encoders, loadLog after saveLog restores every group's id, name, owner, participants, messages (timestamps cut to whole seconds) and unread, ensures General and keeps an existing active group |
| ChatLog.SaveThenLoad | src/ChatManager.cpp:85-169 | the same round trip for the serializer the chat log is written with |
| ChatLog.UnreadRoundTrip | src/ChatManager.cpp:110-160 | an unread counter written as an int and cast back to uint32 is unchanged |
| ChatThreads.JoinSnoc | include/network/ChatManager.h:244-248 | joining one more item appends the separator and the item |
| ChatThreads.OrderStep | include/network/ChatManager.h:244 | one step of a range-for over a std::set visits the least remaining element |
| ChatThreads.MakeThreadId | include/network/ChatManager.h:241-251 | the loop computes the thread id of the set: "all" when it is empty, otherwise the participants in set order with '\|' between them |
| ChatThreads.JoinStep | include/network/ChatManager.h:245-247 | pushing '\|' unless first and then the item extends the join by that item |
| ChatThreads.JoinedInOrder | include/network/ChatManager.h:244-248 | when the loop ends it has visited the whole set in order |
| ChatThreads.FindBar | include/network/ChatManager.h:284 | std::string::find('\|', start): the first '\|' at or after start, or npos (the length) when there is none |
| ChatThreads.FindBarIs | include/network/ChatManager.h:284 | an index with no bar before it and a bar or the end at it is what find returns |
| ChatThreads.Pieces | include/network/ChatManager.h:282-289 | the text between bars, empty pieces included: never an empty list |
| ChatThreads.PiecesFrom | include/network/ChatManager.h:284-288 | the pieces from start are the one up to the next bar followed by the pieces after it |
| ChatThreads.SplitId | include/network/ChatManager.h:281-289 | the split loop of getOrCreateThreadById collects exactly the non-empty pieces of the id |
| ChatThreads.SplitStart | include/network/ChatManager.h:282-283 | before the loop nothing is collected and the walk starts at 0 |
| ChatThreads.SplitStep | include/network/ChatManager.h:284-288 | one piece: after the last one the collected set is complete, otherwise the walk continues after the bar |
| ChatThreads.SplitJoin | include/network/ChatManager.h:241-289 | splitting a join at '\|' gives back the items when none of them contains '\|' |
| ChatThreads.IdRoundTrip | include/network/ChatManager.h:241-289 | rebuilding the participants from a thread id gives back the set, for non-empty ids free of '\|', except the set {"all"} |
| ChatThreads.GeneralPieces | include/network/ChatManager.h:279 | the id "all" is one piece |
| ChatThreads.ThreadIdCollision | include/network/ChatManager.h:242 | the participant set {"all"} gets the same id as the empty set, General's |
| ChatThreads.ShownName | include/network/ChatManager.h:267-269 | a participant's shown name: the network's display name when present and non-empty, else the id |
| ChatThreads.ShownNames | include/network/ChatManager.h:266-271 | the shown name of each participant, in order |
| ChatThreads.DisplayNameFor | include/network/ChatManager.h:264-272 | the name loop computes the shown names joined with ", " |
| ChatThreads.NameStep | include/network/ChatManager.h:267-270 | one more participant adds ", " unless first, then its shown name |
| ChatThreads.GetOrCreate | include/network/ChatManager.h:253-276 | the set's thread is added when missing, with that id and participants and no messages; an existing store is returned unchanged and no other thread changes |
| ChatThreads.GetOrCreateIdempotent | include/network/ChatManager.h:253-276 | a second getOrCreateThread with the same set changes nothing |
| ChatThreads.ByIdFindsParticipants | include/network/ChatManager.h:278-291 | getOrCreateThreadById of makeThreadId(s) reaches the thread whose participants are s, and the store stays consistent |
| ChatThreads.Appended | include/network/ChatManager.h:337 | one more message at the back of one thread; every other thread and every other field unchanged (the message type of line 91) |
| ChatThreads.LocalMessage | include/network/ChatManager.h:331-337 | the local copy is from "me", with the text, a non-empty username (mine or "me") and the classified kind |
| ChatThreads.ValueOr | include/network/ChatManager.h:78-82 | json value(key, default): the field when present, else the default |
| ChatThreads.IncomingMessage | include/network/ChatManager.h:78-90 | sender and text from the frame, the username falling back to the sender's guest label when absent or empty |
| ChatThreads.ParseCommand | include/network/ChatManager.h:479-511 | unknown exactly when the text does not start with "/roll"; a roll always has a positive count |
| ChatThreads.ParseDiceAt | include/network/ChatManager.h:490-498 | after "/roll" the result is never "unknown"; a roll has a positive count (the die size is not checked) |
| ChatThreads.ParsersAgree | include/network/ChatManager.h:479-498 | whatever the group store's /roll parser accepts is read here as the same roll, and a roll read here with positive sides is exactly what it accepts |
| ChatThreads.CommandReply | include/network/ChatManager.h:491-510 | "Unknown command", "Invalid /roll syntax", or the roll's reply |
| ChatThreads.ProcessCommand | include/network/ChatManager.h:479-498 | the source's step-by-step parse computes ParseCommand |
| ChatThreads.ParseDiceCommand | include/network/ChatManager.h:490-498 | the parse after the spaces computes ParseDiceAt |
| ChatThreads.DiceParsed | include/network/ChatManager.h:490-498 | once N > 0, 'd', M and the modifier are read, the roll is exactly those values |
| ChatThreads.ThreadStore.constructor | include/network/ChatManager.h:50-54 | the store starts with only General, which is active |
| ChatThreads.ThreadStore.CurrentThread | include/network/ChatManager.h:470-474 | the active thread exactly when it exists |
| ChatThreads.ThreadStore.GetOrCreateThread | include/network/ChatManager.h:253-276 | returns the set's id, which is then present; the store becomes GetOrCreate of the old one |
| ChatThreads.ThreadStore.GetOrCreateThreadById | include/network/ChatManager.h:278-291 | "all" is General; any other id is split into its participants, whose thread is found or created |
| ChatThreads.ThreadStore.EnsureGeneral | include/network/ChatManager.h:293-296 | General exists and is active; nothing else is created |
| ChatThreads.ThreadStore.SendToThread | include/network/ChatManager.h:299-338 | nothing without a network; otherwise exactly the local message is appended to that thread |
| ChatThreads.ThreadStore.OnIncomingChat | include/network/ChatManager.h:73-92 | an unparsable or non-chat frame changes nothing; otherwise its message is appended to the thread of its channel ("all" when absent), created when missing |
| ChatThreads.ThreadStore.OnSubmit | include/network/ChatManager.h:448-468 | empty text or no active thread changes nothing; a command adds one System message with its reply; other text is sent to the active thread |
| ChatThreadsLog.ThreadLayoutIs | include/network/ChatManager.h:105-125 | a thread record is its id, its name, the participant count and participants, then the message count and messages, in that order |
| ChatThreadsLog.ThreadParts | include/network/ChatManager.h:104-126 | the file body holds one record per thread visited, each the bytes of that thread |
| ChatThreadsLog.Visit | include/network/ChatManager.h:104 | the range-for visits the threads in the map's iteration order, one thread per key visited |
| ChatThreadsLog.Emplace | include/network/ChatManager.h:178 | emplacing the threads read keeps the store's keys and adds every thread id read; an id already there keeps its first thread |
| ChatThreadsLog.WithGeneral | include/network/ChatManager.h:181 | after ensureGeneral the General thread exists, nothing else changes, and a missing General is created empty |
| ChatThreadsLog.WithGeneralIsEnsureGeneral | include/network/ChatManager.h:293-296 | ensureGeneral is getOrCreateThread of the empty participant set, whatever the network |
| ChatThreadsLog.LoadThreads | include/network/ChatManager.h:134-183 | a wrong magic string fails and leaves the store alone; a load that succeeds has General in the store and active |
| ChatThreadsLog.ReloadedThread | include/network/ChatManager.h:123-174 | a thread read back keeps id, name and participants, and each message comes back with its timestamp cut to whole seconds |
| ChatThreadsLog.ThreadHeadInverse | include/network/ChatManager.h:106-159 | the id and name written at the head of a record read back in order |
| ChatThreadsLog.ThreadFieldsInverse | include/network/ChatManager.h:157-176 | each field of a thread record written at an offset reads back at the offset where the previous one ended (written at lines 105-125) |
| ChatThreadsLog.ReadThreadRecordInverse | include/network/ChatManager.h:157-176 | a whole thread record reads back as the thread, participants as a set and timestamps cut, ending at the record's end |
| ChatThreadsLog.ReadThreadInverse | include/network/ChatManager.h:157-176 | a thread written at an offset reads back as the reloaded thread and the read ends right after it |
| ChatThreadsLog.ReloadedThreads | include/network/ChatManager.h:156-179 | the threads read back are the saved ones, each reloaded, in file order |
| ChatThreadsLog.ReadThreadsInverse | include/network/ChatManager.h:156-179 | reading as many threads as were written gives back all of them and ends after the last |
| ChatThreadsLog.FileHeadInverse | include/network/ChatManager.h:101-156 | magic, version and thread count written at the start read back in order, and the thread records follow |
| ChatThreadsLog.EmplaceLast | include/network/ChatManager.h:178 | emplacing a thread whose id is new adds it under its id |
| ChatThreadsLog.EmplaceDistinct | include/network/ChatManager.h:178 | with distinct ids every thread read ends up under its own id |
| ChatThreadsLog.ReloadedStore | include/network/ChatManager.h:96-183 | the store as it comes back: the same keys, each thread reloaded |
| ChatThreadsLog.ReloadedVisit | include/network/ChatManager.h:157-178 | the i-th thread read back is the reloaded thread saved under the i-th key visited, and carries that key as id (saved at line 104) |
| ChatThreadsLog.RebuildStore | include/network/ChatManager.h:178 | emplacing the threads read in visiting order rebuilds the saved store, reloaded |
| ChatThreadsLog.LoadFrom | include/network/ChatManager.h:134-183 | a file written from a list of threads loads as those threads emplaced, with General ensured and active |
| ChatThreadsLog.LoadInverse | include/network/ChatManager.h:96-183 | loadFromFile reads back what saveToFile wrote, for any codec that inverts its encoders: every thread under its id with name, participants and messages, timestamps cut to whole seconds; General ensured and active |
| ChatThreadsLog.SaveThenLoad | include/network/ChatManager.h:96-183 | the same round trip for the serializer the chat file is written with |
| DebugConsole.ActiveFrom | include/debug/DebugConsole.h:49-55 | exactly the toggles whose flag is set and that have an onTick, by increasing index |
| DebugConsole.DisplayNamesAt | include/debug/DebugConsole.h:138-155 | every entry of the display list is the display name of the channel at the same place in the order |
| DebugConsole.OthersUpToMembers | include/debug/DebugConsole.h:149-156 | the channels the loop pushes are exactly the logger's channels other than "main" and "localtunnel" |
| DebugConsole.ChannelOrderShape | include/debug/DebugConsole.h:126-162 | the channel order is never empty, starts with "main" when the logger has it, has "localtunnel" right after, and lists every channel of the logger |
| DebugConsole.DebugConsole.constructor | include/debug/DebugConsole.h:334-335 | no toggles and debug execution off at start |
| DebugConsole.DebugConsole.AddToggle | include/debug/DebugConsole.h:36-39 | the toggle is appended and nothing else changes |
| DebugConsole.DebugConsole.ClearToggles | include/debug/DebugConsole.h:40-43 | the toggles are emptied and nothing else changes |
| DebugConsole.DebugConsole.SetDebugExecEnabled | include/debug/DebugConsole.h:58-61 | sets the flag and leaves the toggles alone |
| DebugConsole.DebugConsole.RunActiveDebugToggles | include/debug/DebugConsole.h:45-56 | nothing runs while execution is disabled; otherwise exactly the active toggles run, in toggle order |
| DebugConsole.BuildChannelLists | include/debug/DebugConsole.h:126-162 | the loop builds the channel order and the display list that matches it |
| DebugConsole.FallBackToMain | include/debug/DebugConsole.h:157-161 | when no channel was pushed the lists fall back to "main" shown as "Main" |
| DebugConsole.ChannelsListed | include/debug/DebugConsole.h:149-157 | a non-empty order after the loop is the channel order |
| DebugConsole.PinnedFirst | include/debug/DebugConsole.h:138-147 | the two pushes before the loop put the pinned channels first, each shown by its display name |
| DebugConsole.ChannelPushed | include/debug/DebugConsole.h:151-155 | a channel that is not built in is pushed onto both lists |
| DebugConsole.ChannelSkipped | include/debug/DebugConsole.h:151 | a built-in channel is skipped by the loop |
| DirectoryWindow.TruncateString | include/DirectoryWindow.h:32-39 | a label longer than the limit keeps its first limit characters followed by "..."; a shorter one is unchanged |
| DirectoryWindow.TruncateIdempotent | include/DirectoryWindow.h:32-39 | truncating an already truncated label changes nothing |
| DirectoryWindow.FirstMatch | include/DirectoryWindow.h:188-195 | the index of the first image, in list order, whose file name is a suffix of the path; none when no image matches |
| DirectoryWindow.DirectoryWindow.constructor | include/DirectoryWindow.h:18-22 | the window starts with the given images and the empty selection |
| DirectoryWindow.DirectoryWindow.GetImageByPath | include/DirectoryWindow.h:186-204 | finds the first image whose file name ends the path; fails exactly when none does, with "Image not found: " and the path |
| DirectoryWindow.DirectoryWindow.ClearSelectedImage | include/DirectoryWindow.h:162-165 | the selection becomes id 0, a zero size and no file name; the image list is untouched |
| DirectoryWindow.EmptyNameMatchesAll | include/DirectoryWindow.h:190-193 | an image with an empty file name matches every path, so lookup never fails while it is in the list |
| EpochArbiter.OwnerWinsDecides | include/network/EpochArbiter.h:311-313 | the tie-break is a strict total order: of two distinct peers exactly one wins, and no peer beats itself |
| EpochArbiter.OwnerWinsTransitive | include/network/EpochArbiter.h:311-313 | the tie-break is transitive, so a chain of takeovers never returns to an earlier owner |
| EpochArbiter.Get | include/network/EpochArbiter.h:75 | `st_[markerId]` on a missing marker sees the default record (closed, epoch 0) |
| EpochArbiter.StartDrag | include/network/EpochArbiter.h:74-84 | proposes epoch+1 (32-bit) when the drag was closed, else the current epoch; afterwards the drag is open, owned locally, localSeq 0, and the stored epoch is the larger of old and proposed |
| EpochArbiter.StartDragProposesNext | include/network/EpochArbiter.h:77-83 | a closed drag reopens exactly one epoch higher unless the 32-bit epoch is at its maximum |
| EpochArbiter.ThrottleMove | include/network/EpochArbiter.h:86-94 | true, and the send time recorded, exactly when at least the minimum period has elapsed (unsigned 64-bit difference); otherwise the record is unchanged |
| EpochArbiter.StampOutgoing | include/network/EpochArbiter.h:96-133 | an outgoing message carries the proposed epoch and localSeq+1, which becomes the new localSeq; a final clears locallyDragging; epoch and closed are untouched |
| EpochArbiter.AdoptEpoch | include/network/EpochArbiter.h:314-322 | adopting sets the epoch, reopens the drag for the sender, resets lastSeq and lastMoveRxMs, and keeps the local-drag flags |
| EpochArbiter.TakeOver | include/network/EpochArbiter.h:145-149 | a winning challenger becomes owner of the same epoch and cancels a local drag; the current owner changes nothing |
| EpochArbiter.AcceptMoveStep | include/network/EpochArbiter.h:141-159 | accepted exactly when the epoch is higher, or equal with an open drag the sender owns or wins, and the seq (if any) is above lastSeq (above 0 after adopting a higher epoch), and the marker is not being dragged here after a take-over; an older epoch or a losing/closed same-epoch move leaves the record unchanged; a higher epoch is adopted for the sender; an accepted move records its seq and stamps the receive time; the epoch becomes the max of old and incoming |
| EpochArbiter.EchoSuppressed | include/network/EpochArbiter.h:151-155 | a move that passes every check while the marker is dragged locally is still refused, but its seq is recorded |
| EpochArbiter.AcceptFinalStep | include/network/EpochArbiter.h:163-183 | accepted exactly when the epoch is higher, or equal with an open drag the sender owns or wins and seq (if any) at least lastSeq; an older epoch or a losing/closed same-epoch final leaves the record unchanged; an accepted final closes the drag, clears the local flags, takes its timestamp (or now) and records its seq; a higher epoch is accepted with lastSeq 0 |
| EpochArbiter.ForceCloseStep | include/network/EpochArbiter.h:203-211 | the drag is closed, the local flags cleared and epoch, owner and lastSeq kept |
| EpochArbiter.ApplyKeepsEpochs | include/network/EpochArbiter.h:74-211 | no single operation of the arbiter lowers any marker's epoch |
| EpochArbiter.EpochNeverDecreases | include/network/EpochArbiter.h:74-211 | no sequence of operations lowers any marker's epoch |
| EpochArbiter.OutgoingSeqsIncrease | include/network/EpochArbiter.h:109-128 | without a 32-bit wrap, successive outgoing messages carry localSeq+1, localSeq+2, ..., strictly increasing |
| EpochArbiter.StampAfterStart | include/network/EpochArbiter.h:74-133 | after a local drag starts, a move and then a final carry the proposed epoch with seq 1 and 2 |
| EpochArbiter.AdmitMove | include/network/EpochArbiter.h:140-159 | the branch sequence acceptIncomingMove runs on the marker's record gives exactly the decision and record of AcceptMoveStep, including what early returns leave written |
| EpochArbiter.EpochArbiter.constructor | include/network/EpochArbiter.h:71 | a new arbiter has its configuration and no records |
| EpochArbiter.EpochArbiter.OnLocalDragStart | include/network/EpochArbiter.h:74-84 | only the marker's record changes, to StartDrag of its old (or default) record |
| EpochArbiter.EpochArbiter.ShouldSendMoveNow | include/network/EpochArbiter.h:86-94 | the answer is whether the period elapsed since the last send, and only that marker's record changes |
| EpochArbiter.EpochArbiter.BuildOutgoingMove | include/network/EpochArbiter.h:96-113 | the message has the given board, marker, position and sender, isDragging true, the proposed epoch, the next seq and now; only that record changes |
| EpochArbiter.EpochArbiter.BuildOutgoingFinal | include/network/EpochArbiter.h:115-133 | the final has isDragging false, the proposed epoch, the next seq and now; only that record changes |
| EpochArbiter.EpochArbiter.AcceptIncomingMove | include/network/EpochArbiter.h:136-160 | a move without an epoch, or too old when dropping is enabled, is refused with no record created; otherwise the decision and the marker's new record are AcceptMoveStep's |
| EpochArbiter.EpochArbiter.AcceptIncomingFinal | include/network/EpochArbiter.h:162-184 | a final without an epoch is refused with no record created; otherwise the decision and new record are AcceptFinalStep's |
| EpochArbiter.EpochArbiter.ForceClose | include/network/EpochArbiter.h:203-211 | an existing record is force-closed; a missing marker gets no record |
| EpochArbiter.EpochArbiter.PollWatchdogs | include/network/EpochArbiter.h:187-201 | reports exactly the inactivity and max-duration events of every open drag, each once |
| EpochArbiter.EpochArbiter.OnPeerDisconnectedSuggest | include/network/EpochArbiter.h:213-221 | one OwnerDisconnected event for exactly each open drag owned by the departed peer, with its epoch |
| EpochArbiter.EpochArbiter.IsLocallyDragging | include/network/EpochArbiter.h:224-227 | a known marker's stored locallyDragging flag; false for an unknown marker |
| EpochArbiter.EpochArbiter.CurrentEpoch | include/network/EpochArbiter.h:228-231 | the stored epoch, and 0 for an unknown marker |
| EpochArbiter.EpochArbiter.CurrentOwner | include/network/EpochArbiter.h:232-236 | a known marker's stored owner, and the empty string for an unknown marker |
| EpochArbiter.MarkerEvents | include/network/EpochArbiter.h:191-198 | a marker's events name that marker and are distinct: inactivity when both receive and activity are overdue, max duration when the epoch has run too long, none when closed |
| EpochArbiter.WatchdogEventsAre | include/network/EpochArbiter.h:190-199 | the watchdog report is the union over known markers of each marker's events |
| FirewallUtils.Escaped | include/network/FirewallUtils.h:12-19 | the escaped text is as long as the input plus one per apostrophe |
| FirewallUtils.EscapedAppend | include/network/FirewallUtils.h:16-17 | escaping works character by character: the escape of a concatenation is the concatenation of the escapes |
| FirewallUtils.PsEscape | include/network/FirewallUtils.h:12-19 | the loop builds the escaped text: every apostrophe doubled, every other character copied, in order |
| FirewallUtils.CollapseEscaped | include/network/FirewallUtils.h:12-19 | collapsing each doubled apostrophe of the escaped text gives the input back, so the escape loses nothing |
| FirewallUtils.EscapedLiteral | include/network/FirewallUtils.h:12-19 | an escaped string without typographic quotes, closed by an apostrophe, is one PowerShell literal whose value is the input |
| FirewallUtils.QuotePairRead | include/network/FirewallUtils.h:17 | a doubled apostrophe inside a literal stands for one apostrophe of its value |
| FirewallUtils.PlainCharRead | include/network/FirewallUtils.h:17 | any character that is not a quote is copied into the literal's value |
| FirewallUtils.Quoted | include/network/FirewallUtils.h:66-81 | a quoted literal starts and ends with an apostrophe and is two longer than the escaped text |
| FirewallUtils.QuotedReadsBack | include/network/FirewallUtils.h:66-81 | a quoted name or path without typographic quotes reads back as exactly itself wherever it is placed |
| FirewallUtils.SmartQuoteEndsLiteral | include/network/FirewallUtils.h:12-66 | as written: a name holding U+2019 ends the literal early, so the rest of the name is read as PowerShell code |
| FirewallUtils.EscapeCharIntended | include/network/FirewallUtils.h:17 | the intended escape doubles every quote character PowerShell accepts and copies everything else |
| FirewallUtils.EscapedIntended | include/network/FirewallUtils.h:12-19 | the intended escape never shortens its input |
| FirewallUtils.EscapedIntendedAgrees | include/network/FirewallUtils.h:12-19 | without typographic quotes the intended escape is psEscape's |
| FirewallUtils.QuotePairReadAny | include/network/FirewallUtils.h:17 | any two quote characters inside a literal stand for the second one |
| FirewallUtils.EscapedIntendedLiteral | include/network/FirewallUtils.h:12-19 | with every quote character doubled, any string at all closed by an apostrophe reads back as itself |
| FirewallUtils.QuotedIntended | include/network/FirewallUtils.h:66-81 | the intended quoted literal starts with an apostrophe and is at least two longer than its value |
| FirewallUtils.QuotedIntendedReadsBack | include/network/FirewallUtils.h:66-81 | the intended quoted literal reads back as exactly its value, whatever it holds |
| FirewallUtils.RemoveRuleCommand | include/network/FirewallUtils.h:63-70 | the remove command starts with the assignment to $n, and a display name without typographic quotes is exactly the literal bound to $n |
| FirewallUtils.FirstOfTwo | include/network/FirewallUtils.h:79-95 | of two quoted literals the first reads back as its value |
| FirewallUtils.SecondOfTwo | include/network/FirewallUtils.h:79-95 | of two quoted literals the second reads back as its value |
| FirewallUtils.RuleMiddle | include/network/FirewallUtils.h:80-94 | the protocol part, TCP on any local port or UDP, starts with a space, so it never extends the name's literal |
| FirewallUtils.ProfileClause | include/network/FirewallUtils.h:82-96 | the profile part starts with a space, so it never extends the path's literal |
| FirewallUtils.AddInboundRuleName | include/network/FirewallUtils.h:73-98 | in a new TCP or UDP rule a display name without typographic quotes is exactly the first literal |
| FirewallUtils.AddInboundRulePath | include/network/FirewallUtils.h:73-98 | in a new TCP or UDP rule a program path without typographic quotes is exactly the second literal |
| FirewallUtils.RemoveRuleCommandIntended | include/network/FirewallUtils.h:63-70 | the intended remove command is the written one without typographic quotes, and binds the whole display name to $n for every name |
| FirewallUtils.AddInboundRuleCommandIntended | include/network/FirewallUtils.h:73-98 | the intended rule command is the written one when neither argument holds a typographic quote |
| FirewallUtils.AddInboundIntendedName | include/network/FirewallUtils.h:73-98 | in the intended rule command the display name is exactly one literal, for every name |
| FirewallUtils.AddInboundIntendedPath | include/network/FirewallUtils.h:73-98 | in the intended rule command the program path is exactly one literal, for every path |
| FrameFindings.BoardTailAsWritten | src/network/NetworkManager.cpp:1312-1329 | after the name the board frame writes 36 bytes: panning, a 19-byte grid, width, height and the image size, the last nine being the height's final byte and the size |
| FrameFindings.BoardFrameMisread | src/network/NetworkManager.cpp:834-842 | as written: the reader stops one byte short of the frame, and the image size it takes is built from the height's last byte and the size's first seven bytes; the size's last byte is left over (built at lines 1296-1331) |
| FrameFindings.ValueOfMisread | src/network/NetworkManager.cpp:840-842 | with height 0.0 and size 1 the eight bytes read as the size are 256, and the byte left over is 0 |
| FrameFindings.BoardTotalMisread | src/network/NetworkManager.cpp:834-853 | a zeroed board with a 1-byte image is read with an image size of 256, and a 0 byte is left over to be taken as the next tag (built at lines 1296-1331) |
| FrameFindings.ChunkGuardAgrees | src/network/NetworkManager.cpp:911 | every chunk that fits passes the wrapping check, and the two checks agree when the 64-bit sum does not wrap |
| FrameFindings.HandleImageChunkAsWritten | src/network/NetworkManager.cpp:895-917 | as written: a failure is either one the corrected handler has too or a chunk for a known image that passed the wrapping check without fitting |
| FrameFindings.AsWrittenAgrees | src/network/NetworkManager.cpp:895-917 | wherever the handler as written has a defined outcome it is the corrected handler's |
| FrameFindings.ChunkGuardWraps | src/network/NetworkManager.cpp:911-914 | an 8-byte chunk at offset 2^64-8 into a 16-byte image wraps to 0 and passes the check as written, so the copy lands outside the buffer; the corrected check drops it |
| FrameFindings.ChunkGuardNegative | src/network/NetworkManager.cpp:903-911 | a negative length passes the check as written and the corrected check drops it |
| GameFrames.GameTableFrame | src/network/NetworkManager.cpp:1287-1294 | the game-table frame is the tag, the 8-byte id and the length-prefixed name |
| GameFrames.BoardFrameAsWritten | src/network/NetworkManager.cpp:1296-1329 | as written the board frame is 49 bytes plus the name, starting with the board tag: its grid takes 19 bytes |
| GameFrames.BoardFrame | src/network/NetworkManager.cpp:834-842 | the board frame laid out as handleBoardMeta reads it, grid in 18 bytes: 48 bytes plus the name, starting with the board tag |
| GameFrames.IdText | src/network/NetworkManager.cpp:1342 | std::to_string of an id is its decimal text, at least one digit |
| GameFrames.MarkerName | src/network/NetworkManager.cpp:1342 | the marker's name is "marker_" followed by the decimal id |
| GameFrames.MarkerFrame | src/network/NetworkManager.cpp:1331-1355 | the marker frame is 47 bytes plus the name, starting with the marker-create tag |
| GameFrames.FogFrame | src/network/NetworkManager.cpp:1357-1373 | the fog frame is 34 bytes starting with the fog tag |
| GameFrames.ChunkFrame | src/network/NetworkManager.cpp:1375-1386 | the chunk frame is a 22-byte header (tag, owner kind, id, offset, length) followed by exactly the data |
| GameFrames.CommitBoardFrame | src/network/NetworkManager.cpp:1388-1394 | the board commit is 9 bytes: the tag and the board id |
| GameFrames.CommitMarkerFrame | src/network/NetworkManager.cpp:1396-1403 | the marker commit is 17 bytes: the tag, the board id and the marker id |
| GameFrames.ChunkData | src/network/NetworkManager.cpp:713-714 | the i-th piece of an image is non-empty, at most a chunk long, and ends at min((i+1)·chunk, size) |
| GameFrames.ImageChunkFrames | src/network/NetworkManager.cpp:709-745 | the loop sends one frame per piece of the image, in order, each the chunk frame of that piece; none exactly when the image is empty |
| GameFrames.ChunkFramesExtend | src/network/NetworkManager.cpp:714-718 | appending the next piece's frame keeps every frame the frame of its piece |
| GameFrames.NextChunk | src/network/NetworkManager.cpp:711-718 | after k steps the loop's offset is k·chunk, and the next piece ends where the (k+1)-th begins |
| GameFrames.SendMarker | src/network/NetworkManager.cpp:725-749 | sendMarker sends the marker frame, the chunk frames of the image with owner kind 1, then the marker commit |
| GameFrames.SendBoard | src/network/NetworkManager.cpp:698-723 | as written sendBoard sends the 19-byte-grid board frame, the chunk frames of the image with owner kind 0, then the board commit |
| GameFrames.SendBoardIntended | src/network/NetworkManager.cpp:698-723 | the same frames with the board frame laid out as handleBoardMeta reads it |
| Identity.EntryFor | src/IdentityManager.cpp:47 | byUnique_[id] is the stored entry, or a default-constructed one when the id is new (also lines 79 and 150) |
| Identity.Renamed | src/IdentityManager.cpp:49-55 | a rename sets the username and keeps the entry's unique id and peer id (also lines 84-90 and 150-157) |
| Identity.RenamedHistory | src/IdentityManager.cpp:49-55 | the history stays within 10 entries; the same name or an entry with no name leaves it alone; otherwise the former name is the newest entry and the rest is the old history, minus its oldest entry when it was full (also lines 84-90 and 150-157) |
| Identity.RenameKeepsBook | src/IdentityManager.cpp:47-55 | renaming an entry keeps every entry under its own unique id with a history within the cap |
| Identity.UsernameFor | src/IdentityManager.cpp:102-115 | the book's non-empty username; else my username when the id is mine and I have one; else the id cut to its first 8 characters |
| Identity.UsernameNonEmpty | src/IdentityManager.cpp:102-115 | the name shown for a non-empty id is never empty |
| Identity.UniqueFor | src/IdentityManager.cpp:117-123 | a peer resolves exactly when it is bound, to the unique id it is bound to |
| Identity.BindThenLookup | src/IdentityManager.cpp:73-123 | after bindPeer the peer resolves to the unique id, whose entry shows the bound username and records the peer |
| Identity.IdentityManager.constructor | include/IdentityManager.h:60-67 | no identity, an empty address book and no session bindings at start |
| Identity.IdentityManager.SetMyIdentity | src/IdentityManager.cpp:40-57 | my id and name are replaced and my book entry is renamed to match; the session map is untouched |
| Identity.IdentityManager.BindPeer | src/IdentityManager.cpp:73-93 | the peer is bound to the unique id, and the entry gets the id, the peer and the username; my identity is untouched |
| Identity.IdentityManager.ErasePeer | src/IdentityManager.cpp:95-98 | only the session binding goes; the address book and my identity are kept |
| Identity.IdentityManager.PeerForUnique | src/IdentityManager.cpp:125-131 | a peer bound to the unique id when there is one; none exactly when no peer is bound to it |
| Identity.IdentityManager.UsernameForPeer | src/IdentityManager.cpp:133-139 | a name exactly when the peer is bound: the name shown for its unique id |
| Identity.IdentityManager.SetUsernameForUnique | src/IdentityManager.cpp:141-160 | my username follows when the id is mine; the book entry is always renamed; nothing else changes |
| ImageDelivery.MarkerNameShort | src/network/NetworkManager.cpp:1342 | a marker name is at most 27 characters: "marker_" and at most 20 digits |
| ImageDelivery.GameTableRoundTrip | src/network/NetworkManager.cpp:824-831 | a game-table frame is handled to its end and queues one message with the id and name it was built from (built at lines 1287-1294) |
| ImageDelivery.BoardMetaRoundTrip | src/network/NetworkManager.cpp:834-842 | a board frame laid out as the reader expects reads back as its meta and image size, up to its last byte |
| ImageDelivery.MarkerMetaRoundTrip | src/network/NetworkManager.cpp:857-867 | a marker frame reads back as the ids, the generated name, the components and the image size, up to its last byte (built at lines 1331-1355) |
| ImageDelivery.FogRoundTrip | src/network/NetworkManager.cpp:882-893 | a fog frame reads back as one fog message with the board id and the fog's components (built at lines 1357-1373) |
| ImageDelivery.ChunkHeaderRoundTrip | src/network/NetworkManager.cpp:897-902 | a chunk frame's header reads back as its owner kind, id, offset and length, with the data right after (built at lines 1375-1386) |
| ImageDelivery.CommitRoundTrip | src/network/NetworkManager.cpp:920-972 | the commit frames read back as the ids they were built from (built at lines 1388-1403) |
| ImageDelivery.DecodeAllAppend | src/network/NetworkManager.cpp:1056-1109 | decoding two runs of messages is decoding the first, then the second |
| ImageDelivery.WholeFrame | src/network/NetworkManager.cpp:1056-1109 | a message whose one frame is handled to its end leaves what that handler leaves |
| ImageDelivery.MarkerMetaResets | src/network/NetworkManager.cpp:857-879 | a marker frame (re)initialises the record under the marker id: kind Marker, the meta, total, nothing received, a zeroed buffer, keeping a board meta it had; nothing else changes |
| ImageDelivery.BoardMetaResets | src/network/NetworkManager.cpp:834-854 | a board frame (re)initialises the record under the board id likewise, keeping a marker meta it had |
| ImageDelivery.ChunkAccepted | src/network/NetworkManager.cpp:895-917 | a chunk that passes every check is copied at its offset and its length is added to received; nothing else changes |
| ImageDelivery.ChunkDropped | src/network/NetworkManager.cpp:904-912 | a chunk with an unknown id, another owner, total 0 or bytes outside the image leaves the state alone, and decoding resumes right after its header |
| ImageDelivery.ChunkResent | src/network/NetworkManager.cpp:914-916 | a chunk that arrives twice leaves the buffer as once but counts its bytes again in received |
| ImageDelivery.SplicedTwice | src/network/NetworkManager.cpp:914 | copying the same bytes to the same place twice is copying them once |
| ImageDelivery.CommitMarkerRule | src/network/NetworkManager.cpp:946-972 | a marker commit for a Marker record of that board with no image or a complete one queues its ready message (when its meta arrived) and erases it; any other commit changes nothing |
| ImageDelivery.CommitBoardRule | src/network/NetworkManager.cpp:920-943 | a board commit for a Board record with no image or a complete one queues its ready message (when its meta arrived) and erases it; any other commit changes nothing |
| ImageDelivery.Partial | src/network/NetworkManager.cpp:914 | a buffer filled up to a mark holds the image's bytes before it; at 0 it is all zeros and at the end it is the image |
| ImageDelivery.SplicePartial | src/network/NetworkManager.cpp:914 | copying the next piece into a partial buffer extends it by that piece |
| ImageDelivery.Filled | src/network/NetworkManager.cpp:914-916 | filling the record under one id sets its buffer and received count and changes no other record or the queue |
| ImageDelivery.FilledTwice | src/network/NetworkManager.cpp:914-916 | filling twice is filling to the second mark |
| ImageDelivery.FilledNothing | src/network/NetworkManager.cpp:850-853 | a fresh record is its own fill to 0 |
| ImageDelivery.FillStep | src/network/NetworkManager.cpp:895-917 | the chunk frame of the next piece extends a partial fill by that piece |
| ImageDelivery.Covered | src/network/NetworkManager.cpp:711-718 | after i pieces the covered part is i·chunk, capped at the image size |
| ImageDelivery.FillNext | src/network/NetworkManager.cpp:895-917 | the k-th chunk frame takes a record filled to the k-th mark to the (k+1)-th (sent at lines 711-718) |
| ImageDelivery.ChunksFill | src/network/NetworkManager.cpp:895-917 | the first j chunk frames fill a fresh record up to min(j·chunk, size) and count that many bytes received (sent at lines 711-718) |
| ImageDelivery.DecodeThree | src/network/NetworkManager.cpp:1056-1109 | decoding a first frame, some frames and a last frame, one message each, is decoding them in order |
| ImageDelivery.FilledErased | src/network/NetworkManager.cpp:941 | a record replaced, filled and then erased leaves the map it was erased from |
| ImageDelivery.CommitMarkerDone | src/network/NetworkManager.cpp:960-970 | the marker commit for a complete record with a meta queues the meta with the buffer and erases the record |
| ImageDelivery.CommitBoardDone | src/network/NetworkManager.cpp:930-941 | the board commit for a complete record with a meta queues the meta with the buffer and erases the record |
| ImageDelivery.ChunksComplete | src/network/NetworkManager.cpp:895-917 | all the chunk frames of an image fill a fresh record with the whole image (sent at lines 711-718) |
| ImageDelivery.MarkerDelivered | src/network/NetworkManager.cpp:857-972 | the frames sendMarker sends, each decoded as its own message, erase the record and queue exactly one ready message: the marker's meta with the whole image (sent at lines 725-749) |
| ImageDelivery.BoardDelivered | src/network/NetworkManager.cpp:834-943 | the board frames, with the board frame laid out as the reader expects, deliver the board's meta with the whole image in the same way |
| ImageReceiver.Zeros | src/network/NetworkManager.cpp:852-853 | a resized buffer of n bytes is n zeros |
| ImageReceiver.Spliced | src/network/NetworkManager.cpp:914 | memcpy replaces exactly the bytes at the offset with the data and keeps all the others |
| ImageReceiver.ReadBoardMeta | src/network/NetworkManager.cpp:836-842 | reading a board meta consumes at least one byte and never reads past the frame |
| ImageReceiver.ReadMarkerMeta | src/network/NetworkManager.cpp:859-867 | reading a marker meta consumes at least one byte and never reads past the frame |
| ImageReceiver.ReadFogCreate | src/network/NetworkManager.cpp:882-893 | reading a fog frame consumes bytes within the frame and yields a fog message |
| ImageReceiver.ReadChunkHeader | src/network/NetworkManager.cpp:897-902 | the chunk header is read exactly when 21 bytes remain; the data starts right after it and the owner kind is its first byte |
| ImageReceiver.HandleGameTableSnapshot | src/network/NetworkManager.cpp:824-831 | the snapshot queues exactly one message and leaves the pending images alone |
| ImageReceiver.HandleBoardMeta | src/network/NetworkManager.cpp:834-854 | a board meta only touches the pending images, which stay sized to their totals |
| ImageReceiver.HandleMarkerMeta | src/network/NetworkManager.cpp:857-879 | a marker meta only touches the pending images, which stay sized to their totals |
| ImageReceiver.HandleFogCreate | src/network/NetworkManager.cpp:882-893 | a fog frame queues exactly one message and leaves the pending images alone |
| ImageReceiver.HandleImageChunk | src/network/NetworkManager.cpp:895-917 | a chunk never adds or removes a pending image or queues a message, and buffers stay sized to their totals |
| ImageReceiver.HandleCommitBoard | src/network/NetworkManager.cpp:920-943 | a board commit only appends to the queue and keeps buffers sized |
| ImageReceiver.HandleCommitMarker | src/network/NetworkManager.cpp:946-972 | a marker commit only appends to the queue and keeps buffers sized |
| ImageReceiver.Step | src/network/NetworkManager.cpp:1060-1107 | one turn of the loop moves forward within the buffer, keeps buffers sized and only appends to the queue |
| ImageReceiver.DecodeFrom | src/network/NetworkManager.cpp:1056-1109 | decoding a buffer keeps buffers sized and only appends to the queue |
| ImageReceiver.GameReceiver.State | src/network/NetworkManager.cpp:1056-1109 | the receiver's state is its pending images and its inbound queue |
| ImageReceiver.GameReceiver.constructor | src/network/NetworkManager.cpp:1056 | the receiver starts with no pending image and an empty queue |
| ImageReceiver.GameReceiver.DecodeRawGameBuffer | src/network/NetworkManager.cpp:1056-1109 | the loop leaves the state that decoding the buffer from offset 0 gives |
| LegacyNetwork.SerializeMessage | src/NetworkManager_OLD.cpp:309-322 | the wire form is the type's 4 bytes followed by exactly the payload |
| LegacyNetwork.DeserializeMessage | src/NetworkManager_OLD.cpp:324-340 | fails exactly on a buffer shorter than the type; otherwise the payload is every byte after it, and serializing the result gives the buffer back |
| LegacyNetwork.MessageRoundTrip | src/NetworkManager_OLD.cpp:309-340 | reading back what serializeMessage wrote gives the same type and payload |
| LegacyNetwork.SendRound | src/NetworkManager_OLD.cpp:530-547 | one round sends the front of the real-time queue (five messages, or all of it when shorter) and then the front of the non-real-time queue when it has one; what stays is each queue's back part |
| LegacyNetwork.Drained | src/NetworkManager_OLD.cpp:530-547 | sending round after round until both queues are empty sends as many messages as were queued |
| LegacyNetwork.OfTypeAppend | src/NetworkManager_OLD.cpp:577-584 | selecting messages by type distributes over concatenation |
| LegacyNetwork.OfTypeAll | src/NetworkManager_OLD.cpp:577-584 | selecting by type keeps a queue whose messages all have the wanted type, and selecting the other way keeps nothing |
| LegacyNetwork.RoundRouted | src/NetworkManager_OLD.cpp:530-584 | a round keeps both queues routed: the non-image messages it sends come from the real-time queue, the image chunks from the other |
| LegacyNetwork.DrainedKeepsEachQueue | src/NetworkManager_OLD.cpp:530-584 | sending round after round loses nothing, sends nothing twice and keeps each queue's order |
| LegacyNetwork.SendQueues.constructor | src/NetworkManager_OLD.cpp:530-547 | both queues start empty |
| LegacyNetwork.SendQueues.QueueMessage | src/NetworkManager_OLD.cpp:577-584 | an image chunk joins the back of the non-real-time queue, any other message the back of the real-time one; the other queue is untouched |
| LegacyNetwork.SendQueues.ProcessSentMessages | src/NetworkManager_OLD.cpp:530-547 | the loop sends what one round sends, in that order, and leaves what the round leaves |
| LegacyNetwork.ChunkPayload | src/NetworkManager_OLD.cpp:227-235 | the chunk payload is the path's length-prefixed string, two ints and the data |
| LegacyNetwork.ParseChunk | src/NetworkManager_OLD.cpp:227-235 | a chunk read from a payload uses every byte: path, two ints and the data to the end |
| LegacyNetwork.ChunkPayloadRoundTrip | src/NetworkManager_OLD.cpp:227-235 | the chunk case of handleMessage reads back the path, number, count and data a payload was built from |
| LegacyNetwork.ChunkArrived | src/NetworkManager_OLD.cpp:244-287 | a chunk number already seen changes nothing; a new one is recorded and appended; the image is saved exactly when both entries are forgotten, and ends with this chunk's data; other paths are untouched |
| LegacyNetwork.Feed | src/NetworkManager_OLD.cpp:244-287 | chunks arriving one by one save at most one image per chunk |
| LegacyNetwork.Numbers | src/NetworkManager_OLD.cpp:257 | every chunk number that arrived is in the set of numbers seen |
| LegacyNetwork.NumbersCount | src/NetworkManager_OLD.cpp:257-263 | for chunks of one image with distinct numbers, the set seen has one number per chunk and nothing else |
| LegacyNetwork.FeedLast | src/NetworkManager_OLD.cpp:244-266 | the last chunk arrives on the tables the earlier ones leave |
| LegacyNetwork.ArrivesFirst | src/NetworkManager_OLD.cpp:246-266 | the first chunk of a new image opens its entry, or is saved at once when the count is one |
| LegacyNetwork.ArrivesNext | src/NetworkManager_OLD.cpp:255-266 | a chunk with a new number is added to the entry, or completes the image and saves the whole buffer |
| LegacyNetwork.FeedCollects | src/NetworkManager_OLD.cpp:244-266 | while fewer chunks than announced have arrived the entry holds exactly the numbers seen and the data in arrival order, and nothing is saved |
| LegacyNetwork.CollectFirst | src/NetworkManager_OLD.cpp:246-260 | the first chunk of an image of several opens its entry with its number and data |
| LegacyNetwork.CollectNext | src/NetworkManager_OLD.cpp:255-260 | a further chunk that does not complete the image is added to its entry |
| LegacyNetwork.FeedCompletes | src/NetworkManager_OLD.cpp:244-287 | once the announced number of distinct chunks has arrived the image saved is all their data in arrival order, and the tables are as before the first chunk |
| LegacyNetwork.ImageAssembler.State | src/NetworkManager_OLD.cpp:244-287 | the assembler's state is its two tables |
| LegacyNetwork.ImageAssembler.constructor | src/NetworkManager_OLD.cpp:244-287 | both tables start empty |
| LegacyNetwork.ImageAssembler.HandleImageChunk | src/NetworkManager_OLD.cpp:244-266 | the new tables and the image saved are what a chunk's arrival gives |
| LegacyNetwork.ImageAssembler.FinalizeImage | src/NetworkManager_OLD.cpp:268-287 | the buffer written is the path's buffer (empty when it had none), and both entries are forgotten; nothing else changes |
| LegacyNetwork.CStrLen | src/NetworkManager_OLD.cpp:506 | strlen counts the characters before the first NUL |
| LegacyNetwork.CStr | src/NetworkManager_OLD.cpp:506 | the password as a C string is the prefix up to its NUL |
| LegacyNetwork.Rejects | src/NetworkManager_OLD.cpp:505-513 | a peer is let in exactly when the server password is empty or the received one equals it |
| LegacyNetwork.Classify | src/NetworkManager_OLD.cpp:295-300 | data is a password attempt exactly when it starts with "PASSWORD:", and the password is the text after those nine characters; anything else is a message |
| LegacyNetwork.PasswordHandshake | src/NetworkManager_OLD.cpp:492-513 | what sendPassword sends with the server password is classified as a password and accepted |
| Logger.SearchFrom | include/debug/Logger.h:271-279 | the case-insensitive search succeeds exactly when the needle matches at some position |
| Logger.AutoDetect | include/debug/Logger.h:268-290 | an error marker gives Error; else a warn marker gives Warn; else "[debug]" gives Debug; else "[trace]" gives Trace; else Info |
| Logger.HasIgnoresCase | include/debug/Logger.h:276-277 | searching the lower-cased line finds the same as searching the line |
| Logger.AutoDetectIgnoresCase | include/debug/Logger.h:268-290 | detection does not depend on letter case |
| Logger.LevelFor | include/debug/Logger.h:54-61 | an explicit level other than Info is kept; Info is auto-detected |
| Logger.Trimmed | include/debug/Logger.h:297-298 | the trimmed channel is no longer than the capacity or the channel |
| Logger.TrimmedKeepsNewest | include/debug/Logger.h:297-298 | the trim keeps the newest entries in order: the whole channel when it fits, exactly capacity entries otherwise |
| Logger.CommittedBackAsWritten | include/debug/Logger.h:296-300 | as written: the entry fanned out is the committed one when the capacity is at least 1, and undefined at capacity 0 |
| Logger.CommitWithZeroCapacity | include/debug/Logger.h:297-300 | at capacity 0, which setChannelCapacity accepts, commit_ reads the back of an empty deque (accepted at lines 89-93) |
| Logger.Without | include/debug/Logger.h:103-110 | removeSink keeps exactly the sinks with other ids |
| Logger.WithoutKeepsOrder | include/debug/Logger.h:103-110 | removing sinks keeps the remaining ids in increasing order |
| Logger.TrimFront | include/debug/Logger.h:297-298 | the pop-front loop leaves the trimmed channel |
| Logger.FanOut | include/debug/Logger.h:301-302 | every sink, in registration order, receives the entry once |
| Logger.Logger.constructor | include/debug/Logger.h:306-313 | capacity 4000, no channels, no sinks, sink ids from 0, not seeded (capacity default at line 153) |
| Logger.Logger.GetChannel | include/debug/Logger.h:64-71 | a channel's entries oldest first, or none for an unknown channel |
| Logger.Logger.Channels | include/debug/Logger.h:73-81 | every channel name exactly once |
| Logger.Logger.Commit | include/debug/Logger.h:292-303 | the entry is appended to its channel, which is then trimmed to the capacity; at capacity 1 or more every sink receives the entry in order; nothing else changes |
| Logger.Logger.Log | include/debug/Logger.h:54-61 | the line is committed with the requested level, or the detected one for Info |
| Logger.Logger.LogInfo | include/debug/Logger.h:48-51 | the two-argument log always stores the detected level |
| Logger.Logger.ClearChannel | include/debug/Logger.h:83-87 | the channel becomes empty and exists; the others are untouched |
| Logger.Logger.SetChannelCapacity | include/debug/Logger.h:89-93 | sets the capacity and changes nothing else; existing channels are not trimmed |
| Logger.Logger.AddSink | include/debug/Logger.h:96-102 | the new id is one more than the last issued, above every registered id, and the sink goes last |
| Logger.Logger.RemoveSink | include/debug/Logger.h:103-110 | drops every sink with that id and keeps the rest in order |
| Logger.Logger.ClearSinks | include/debug/Logger.h:111-115 | no sinks remain; nothing else changes |
| Logger.Logger.EnsureSeed | include/debug/Logger.h:252-260 | the first call makes "main" and "localtunnel" exist without touching an existing channel; later calls change nothing |
| Logger.Logger.InstallStdCapture | include/debug/Logger.h:118-126 | both streams end up redirected and the channels seeded |
| Logger.Logger.UninstallStdCapture | include/debug/Logger.h:127-132 | both redirections are undone; nothing else changes |
| Logger.SeedChannels | include/debug/Logger.h:256-257 | seeding adds "main" and "localtunnel" and keeps every existing channel as it is |
| Logger.SplitLines | include/debug/Logger.h:173-210 | the emitted lines hold no newline, the rest holds no newline, and lines joined with newlines plus the rest give the text back |
| Logger.JoinLinesAppend | include/debug/Logger.h:201-210 | joining one more line appends it and its newline |
| Logger.SplitLinesSnoc | include/debug/Logger.h:179-181 | one more character: a newline completes the pending line, anything else extends it |
| Logger.WriteStep | include/debug/Logger.h:178-210 | one turn of the xsputn loop keeps the emitted lines and the buffer equal to the split of the text so far |
| Logger.PrefixSnoc | include/debug/Logger.h:176-178 | the text written so far grows by the next character |
| Logger.SplitLinesNoNewline | include/debug/Logger.h:185-198 | text without a newline is all pending rest |
| Logger.LineBuffer.constructor | include/debug/Logger.h:159-160 | a line buffer starts empty with its channel and forced level |
| Logger.LineBuffer.RequestedLevel | include/debug/Logger.h:191-208 | each emitted line is logged with the forced level, or Info to be auto-detected |
| Logger.LineBuffer.Write | include/debug/Logger.h:173-184 | every character is appended and each newline emits the line before it: the emitted lines and the buffer are the split of the old buffer plus the text |
| Logger.LineBuffer.Put | include/debug/Logger.h:163-172 | overflow with a character is writing that one character |
| Logger.LineBuffer.Sync | include/debug/Logger.h:185-198 | the pending rest, if any, becomes one line and the buffer empties |
| MarkdownRenderer.StartsWith | src/note_editor/MarkdownRenderer.cpp:110-114 | holds exactly when the prefix is a prefix of the string |
| MarkdownRenderer.ParseHref | src/note_editor/MarkdownRenderer.cpp:51-74 | http:// and https:// open externally with the whole href; otherwise a roll: link (roll:// tried first) is a roll of the text after the prefix; otherwise a note link (note://open/, then note:/, then note:) opens the text after the prefix; anything else is Unknown with an empty payload |
| MarkdownRenderer.RollLinkRoundTrip | src/note_editor/MarkdownRenderer.cpp:58-62 | a roll link built from an expression parses back to that expression, minus a leading "//" which reads as roll:// |
| MarkdownRenderer.UuidIsNotShortId | src/note_editor/MarkdownRenderer.cpp:116-148 | a UUID is never a short id, since it has dashes |
| MarkdownRenderer.LooksLikeUuid | src/note_editor/MarkdownRenderer.cpp:116-134 | the scan accepts exactly 36 characters with dashes at 8, 13, 18 and 23 and hex digits elsewhere |
| MarkdownRenderer.LooksLikeShortId | src/note_editor/MarkdownRenderer.cpp:136-148 | the scan accepts exactly strings of at least 8 characters, all hex digits |
| MarkdownRenderer.ResolveNote | src/note_editor/MarkdownRenderer.cpp:76-85 | a UUID-shaped reference is used as it is; anything else goes to the resolver when one is set, and resolves to nothing otherwise |
| MarkdownRenderer.DefaultBrowser | src/note_editor/MarkdownRenderer.cpp:88-107 | an empty URL does nothing; any other opens the browser |
| MarkdownRenderer.OpenUrl | src/note_editor/MarkdownRenderer.cpp:8-39 | external links go to onOpenExternal when set and nowhere otherwise; rolls call onRoll exactly when it is set; note links call onNoteOpen exactly when it is set and the resolved UUID is not empty; an Unknown href goes to onOpenExternal or else the default browser |
| MarkdownRenderer.NoteLinkOpensUuid | src/note_editor/MarkdownRenderer.cpp:23-80 | a note://open/ link to a UUID opens that note when a note handler is set, whatever the resolver |
| MarkerRenderer.ResolveNote | include/note_editor/MarkerRenderer.h:103-116 | a UUID is used as it is; a short id and any other reference both go to the resolver when one is set, so the result is the markdown renderer's resolution |
| MarkerRenderer.OpenUrl | include/note_editor/MarkerRenderer.h:33-56 | external and unknown links go to the default browser and onOpenExternal is never called; rolls and notes are dispatched as in the markdown renderer |
| NetworkAddress.Find | src/network/NetworkManager.cpp:238-248 | std::string::find: the first position of the character, or the length when there is none |
| NetworkAddress.SkipSpace | src/network/NetworkManager.cpp:255 | stoi skips exactly the leading white space |
| NetworkAddress.DigitsEnd | src/network/NetworkManager.cpp:255 | stoi reads exactly the run of decimal digits that follows |
| NetworkAddress.StoI | src/network/NetworkManager.cpp:255-260 | stoi only succeeds on text that holds a digit |
| NetworkAddress.ToU16 | src/network/NetworkManager.cpp:255 | the cast to unsigned short keeps a value in range and otherwise wraps it modulo 2^16 |
| NetworkAddress.StripRunic | src/network/NetworkManager.cpp:231-233 | a leading "runic:" is dropped, anything else is kept |
| NetworkAddress.ParseConnectionString | src/network/NetworkManager.cpp:225-263 | the password is the text after the first '?'; a left part with a URL scheme is the whole server on port 0; otherwise the server is the text before the first ':', and the port is stoi of the rest cast to 16 bits, or 0 when stoi throws or there is no ':' |
| NetworkAddress.NetworkInfo | src/network/NetworkManager.cpp:197-218 | LAN and public strings start with "runic:" and the address, tunnel strings with the URL; each ends with '?' and the password; any other type gives the empty string |
| NetworkAddress.PortText | src/network/NetworkManager.cpp:205-210 | std::to_string of a port is its decimal digits |
| NetworkAddress.StoIDigits | src/network/NetworkManager.cpp:255 | stoi reads a run of digits back as the number they denote |
| NetworkAddress.AddressRoundTrip | src/network/NetworkManager.cpp:197-263 | a LAN or public address string is read back as the address, port and password it was built from, when the address holds no ':' or '?' and does not look like a URL |
| NetworkAddress.SplitAt | src/network/NetworkManager.cpp:238-253 | a text splits at its first separator into the parts on either side |
| NetworkAddress.ParseHostPort | src/network/NetworkManager.cpp:225-263 | a string whose host, port digits and password have been located parses to them |
| NetworkAddress.TunnelRoundTrip | src/network/NetworkManager.cpp:212-248 | a tunnel string is read back as the URL and the password on port 0, when the URL holds no '?', has a scheme and does not start with "runic:" |
| NetworkAddress.BareHost | src/network/NetworkManager.cpp:225-263 | a host with no '?', no ':' and no scheme is the server on port 0 with no password |
| NetworkAddress.DisplayNameFor | src/network/NetworkManager.cpp:500-507 | the peer's username, else the signalling client's, else the raw id |
| NoteManager.FindChar | src/note_editor/NoteManager.cpp:71-72 | the first position of the character, or none exactly when it does not occur |
| NoteManager.LeftTrim | src/note_editor/NoteManager.cpp:76 | drops exactly the leading spaces and tabs and keeps the rest |
| NoteManager.ApplyMeta | src/note_editor/NoteManager.cpp:69-90 | a line with ':' sets the known key named before the first ':' to the left-trimmed text after it; other keys and lines without ':' change nothing; the text and the flags are never touched |
| NoteManager.BodyText | src/note_editor/NoteManager.cpp:94 | the body holds every body line with a newline after it |
| NoteManager.RunAppend | src/note_editor/NoteManager.cpp:57-96 | the getline loop over two runs of lines is the loop over the first, then the second |
| NoteManager.ParseNote | src/note_editor/NoteManager.cpp:45-100 | a parsed note has every flag cleared |
| NoteManager.RunKeepsFlags | src/note_editor/NoteManager.cpp:57-96 | the loop never touches the note's flags |
| NoteManager.RunDropsPreamble | src/note_editor/NoteManager.cpp:59-91 | lines before the first "---" are dropped |
| NoteManager.RunMeta | src/note_editor/NoteManager.cpp:69-90 | inside the metadata block each line is applied to the note in turn |
| NoteManager.RunBody | src/note_editor/NoteManager.cpp:92-95 | after the block every line goes to the body with its newline |
| NoteManager.NoFrontMatter | src/note_editor/NoteManager.cpp:45-100 | a file without any "---" line gives an empty note with an empty body |
| NoteManager.FrontMatter | src/note_editor/NoteManager.cpp:45-100 | for preamble, "---", metadata, "---", body: the metadata lines alone fill the note, and the body is every line after the closing "---" with its newline; later "---" lines are body text |
| NoteManager.ParseNoteFromFile | src/note_editor/NoteManager.cpp:45-100 | the loop with its two flags and the body stream gives the parsed note, and a default note when the file cannot be opened |
| NoteManager.Template | src/note_editor/NoteManager.cpp:109 | the template is the 36 characters of "xxxxxxxx-xxxx-4xxx-yxxx-xxxxxxxxxxxx" |
| NoteManager.HexDigit | src/note_editor/NoteManager.cpp:108-115 | a hex digit, never a dash; values 8 to 11 give exactly 8, 9, a and b |
| NoteManager.Filled | src/note_editor/NoteManager.cpp:110-116 | filling keeps the template's length |
| NoteManager.FilledAt | src/note_editor/NoteManager.cpp:110-116 | each position is filled from its own draw, the k-th placeholder taking the k-th draw |
| NoteManager.FilledTemplateIsUuid | src/note_editor/NoteManager.cpp:102-118 | whatever the draws, the result is UUID-shaped, its version digit is '4' and its variant digit is 8, 9, a or b |
| NoteManager.FillStep | src/note_editor/NoteManager.cpp:110-116 | one turn of the loop fills the next position and leaves the rest of the template as it was |
| NoteManager.GenerateUuid | src/note_editor/NoteManager.cpp:102-118 | the loop fills the template left to right, and the result is UUID-shaped |
| NoteManager.LoadedNote | src/note_editor/NoteManager.cpp:29-38 | a loaded note has a UUID, is saved locally and is not shared |
| NoteManager.LoadAll | src/note_editor/NoteManager.cpp:24-42 | loading never removes an entity |
| NoteManager.LoadAllMarksLocal | src/note_editor/NoteManager.cpp:24-42 | every entity loading adds or replaces is keyed by its own UUID, saved locally and not shared; others are left as they were |
| NoteManager.LoadKeepsGivenUuid | src/note_editor/NoteManager.cpp:26-41 | a .md file that names its UUID is stored under it with the parsed fields, marked saved locally |
| NoteManager.NoteManager.constructor | src/note_editor/NoteManager.cpp:11-14 | the manager keeps its directory and starts with no notes |
| NoteManager.NoteManager.LoadAllNotesFromDisk | src/note_editor/NoteManager.cpp:16-43 | a missing directory loads nothing; otherwise every regular .md entry, in directory order, is set on the entity named by its UUID |
| NoteManager.NoteManager.CreateNewNote | src/note_editor/NoteManager.cpp:136-161 | a UUID-shaped id, the title "Note_" plus its first eight characters, both dates from ctime without its newline, a heading as text, editor open, selected and saved; set on the entity named by the UUID |
| NoteManager.NoteManager.DiscardUnsavedSharedNotes | src/note_editor/NoteManager.cpp:120-134 | exactly the shared notes not saved locally are destroyed |
| PeerLink.ClosedOrFailedExactly | src/network/PeerLink.cpp:321-328 | a link is usable exactly when it has a peer connection in state New, Connecting, Connected or Disconnected |
| PeerLink.Link.constructor | src/network/PeerLink.cpp:4-20 | a fresh link has a new peer connection, no channels, no candidates, nothing open and no bootstrap sent |
| PeerLink.Link.SetRemoteDescription | src/network/PeerLink.cpp:88-100 | the queued candidates are applied in arrival order, the queue empties and later candidates go straight through; nothing else changes |
| PeerLink.Link.AddIceCandidate | src/network/PeerLink.cpp:102-113 | before the remote description a candidate is queued at the back; afterwards it is applied at once; nothing else changes |
| PeerLink.Link.CreateChannels | src/network/PeerLink.cpp:48-66 | with a peer connection the game, chat and notes channels are created, not yet open; without one nothing changes |
| PeerLink.Link.OnDataChannel | src/network/PeerLink.cpp:148-153 | a channel the remote side opened is filed under its label |
| PeerLink.Link.CanSend | src/network/PeerLink.cpp:164-175 | sending is allowed exactly when the label has a channel, it is open and its buffered amount is within 5 MiB |
| PeerLink.Link.SendOn | src/network/PeerLink.cpp:162-185 | true exactly when the guards pass, and then a copy of the bytes is handed to that channel; false sends nothing; nothing else changes |
| PeerLink.Link.AllRequiredOpen | src/network/PeerLink.cpp:191-196 | holds exactly when the game channel is recorded open |
| PeerLink.Link.OnChannelOpen | src/network/PeerLink.cpp:203-211 | the channel's label is recorded open; nothing else changes |
| PeerLink.Link.OnChannelClosed | src/network/PeerLink.cpp:213-217 | the label is recorded closed and the bootstrap must be sent again |
| PeerLink.Link.SetOpen | include/network/PeerLink.h:52-54 | records the label's open flag; nothing else changes |
| PeerLink.Link.SetBootstrapSent | include/network/PeerLink.h:61-68 | sets or resets the bootstrap flag; nothing else changes |
| PeerLink.Link.IsClosedOrFailed | src/network/PeerLink.cpp:321-328 | holds exactly when there is no peer connection or it is Closed or Failed |
| PeerLink.Link.Close | src/network/PeerLink.cpp:281-312 | every channel is closed and forgotten, the peer connection is reset, and the manager, when alive, is asked to remove this peer |
| PeerLink.CandidatesKeepArrivalOrder | src/network/PeerLink.cpp:88-113 | on any link still waiting for its remote description, a candidate that arrives before it is applied after those queued and ahead of one that arrives after it |
| PeerLink.ReopenClearsBootstrap | src/network/PeerLink.cpp:203-217 | a channel that closes and reopens is recorded open but the bootstrap flag stays cleared; reopening the game channel makes the link ready again |
| PeerTable.Doomed | src/network/NetworkManager.cpp:365-374 | the ids picked for erasure are exactly those whose link is null or closed/failed |
| PeerTable.ToClose | src/network/NetworkManager.cpp:365-374 | the links to close are exactly the picked ones that are not null |
| PeerTable.Pruned | src/network/NetworkManager.cpp:376-378 | the table left holds every usable entry unchanged and nothing else |
| PeerTable.PrunedSplits | src/network/NetworkManager.cpp:357-399 | the erased and the kept entries split the table: the count returned plus what is left is the old size |
| PeerTable.PrunedIdempotent | src/network/NetworkManager.cpp:357-399 | pruning again removes nothing more |
| PeerTable.Peers.constructor | src/network/NetworkManager.cpp:357 | the table starts as given |
| PeerTable.Peers.RemoveDisconnectedPeers | src/network/NetworkManager.cpp:357-399 | erases exactly the null or closed/failed entries, returns their number and closes exactly the non-null ones among them |
| Serializer.LeBytes | include/Serializer.h:278-280 | the `width` little-endian bytes of a value: exactly `width` of them, and their value is the number |
| Serializer.LeBytesOfValue | include/Serializer.h:306-316 | re-encoding the value of any byte string gives the same bytes, so little-endian reading is injective |
| Serializer.EncodedAfter | include/Serializer.h:278-304 | what an encoder appends after a prefix sits right after that prefix, whatever is appended later |
| Serializer.IntBytes | include/Serializer.h:278-280 | serializeInt appends exactly 4 bytes |
| Serializer.ReadInt | include/Serializer.h:312-316 | deserializeInt advances the offset by 4 and returns the int whose 4 bytes are the ones at the offset |
| Serializer.ReadIntInverse | include/Serializer.h:278-280 | an int written by serializeInt reads back as the same int, offset advanced by 4 |
| Serializer.U64Bytes | include/Serializer.h:302-304 | serializeUInt64 appends exactly 8 bytes |
| Serializer.ReadU64 | include/Serializer.h:306-310 | deserializeUInt64 advances by 8 and returns the value whose 8 bytes are the ones at the offset |
| Serializer.ReadU64Inverse | include/Serializer.h:302-310 | a uint64 written by serializeUInt64 reads back unchanged, offset advanced by 8 |
| Serializer.FloatBytes | include/Serializer.h:282-284 | serializeFloat appends exactly the 4 bytes of the float's bit pattern |
| Serializer.ReadFloat | include/Serializer.h:318-322 | deserializeFloat advances by 4 and returns the bit pattern stored at the offset |
| Serializer.ReadFloatInverse | include/Serializer.h:282-284 | a float written by serializeFloat reads back with the same bit pattern |
| Serializer.BoolBytes | include/Serializer.h:286-289 | serializeBool appends one byte: 1 exactly for true, 0 exactly for false |
| Serializer.ReadBool | include/Serializer.h:324-328 | deserializeBool advances by 1 and is true exactly for a non-zero byte |
| Serializer.ReadBoolInverse | include/Serializer.h:286-289 | a bool written by serializeBool reads back unchanged |
| Serializer.BoolReencode | include/Serializer.h:324-328 | a byte read as a bool and written again is unchanged exactly when it was 0 or 1 |
| Serializer.CastToInt | include/Serializer.h:292 | static_cast<int> of a length keeps it modulo 2^32, and keeps it exactly below 2^31 |
| Serializer.StringBytes | include/Serializer.h:291-295 | serializeString appends a 4-byte length and then the characters: 4 + length bytes |
| Serializer.ReadString | include/Serializer.h:330-335 | deserializeString returns the characters stored after the length and advances by 4 + their number |
| Serializer.ReadStringInverse | include/Serializer.h:291-295 | a string shorter than 2^31 written by serializeString reads back unchanged, offset advanced by 4 + its length |
| Serializer.TryInt | include/Serializer.h:312-316 | the checked read of an int: present exactly when 4 bytes remain, and then equal to deserializeInt |
| Serializer.TryU64 | include/Serializer.h:306-310 | the checked read of a uint64: present exactly when 8 bytes remain, and then equal to deserializeUInt64 |
| Serializer.TryString | include/Serializer.h:330-335 | the checked read of a string: present exactly when the length is non-negative and the characters fit, and then equal to deserializeString |
| Serializer.Vec2Bytes | include/Serializer.h:297-300 | serializeVec2 appends 8 bytes |
| Serializer.ReadVec2 | include/Serializer.h:337-341 | deserializeVec2 advances by 8 |
| Serializer.ReadVec2Inverse | include/Serializer.h:297-300 | a vec2 written by serializeVec2 reads back unchanged, x then y |
| Serializer.PositionBytes | include/Serializer.h:343-346 | serializePosition appends 8 bytes |
| Serializer.ReadPosition | include/Serializer.h:348-352 | deserializePosition advances by 8 |
| Serializer.ReadPositionInverse | include/Serializer.h:343-352 | a position round-trips as two ints, x then y |
| Serializer.SizeBytes | include/Serializer.h:354-357 | serializeSize appends 8 bytes |
| Serializer.ReadSize | include/Serializer.h:359-363 | deserializeSize advances by 8 |
| Serializer.ReadSizeInverse | include/Serializer.h:354-363 | a size round-trips as two floats, width then height |
| Serializer.VisibilityBytes | include/Serializer.h:367-369 | serializeVisibility writes the flag as one bool |
| Serializer.ReadVisibility | include/Serializer.h:371-374 | deserializeVisibility advances by 1 and reads the flag as a bool |
| Serializer.MovingBytes | include/Serializer.h:377-379 | serializeMoving writes the flag as one bool |
| Serializer.ReadMoving | include/Serializer.h:381-384 | deserializeMoving advances by 1 and reads the flag as a bool |
| Serializer.PanningBytes | include/Serializer.h:401-403 | serializePanning writes the flag as one bool |
| Serializer.ReadPanning | include/Serializer.h:405-408 | deserializePanning advances by 1 and reads the flag as a bool |
| Serializer.FlagComponentsRoundTrip | include/Serializer.h:367-408 | Visibility, Moving and Panning each round-trip through a single bool |
| Serializer.TextureBytes | include/Serializer.h:387-391 | serializeTextureComponent appends id, path and size: 16 bytes plus the path |
| Serializer.ReadTexture | include/Serializer.h:393-398 | deserializeTextureComponent always yields texture id 0 and advances past id, path and size |
| Serializer.ReadTextureInverse | include/Serializer.h:387-398 | a texture reads back with its path and size and with id 0 |
| Serializer.TextureIdLost | include/Serializer.h:393-398 | a texture with a non-zero id does not survive the round trip |
| Serializer.GridBytes | include/Serializer.h:411-416 | serializeGrid appends 18 bytes: offset, scale, is_hex, snap_to_grid |
| Serializer.ReadGrid | include/Serializer.h:418-425 | deserializeGrid advances by 18 |
| Serializer.ReadGridInverse | include/Serializer.h:411-425 | a grid round-trips field by field |
| Serializer.BoardBytes | include/Serializer.h:427-429 | a board is its name string on the wire |
| Serializer.ReadBoard | include/Serializer.h:431-434 | deserializeBoard reads the name string and advances past it |
| Serializer.GameTableBytes | include/Serializer.h:437-439 | a game table is its name string on the wire |
| Serializer.ReadGameTable | include/Serializer.h:441-444 | deserializeGameTable reads the name string and advances past it |
| Serializer.NamedComponentsRoundTrip | include/Serializer.h:427-444 | Board and GameTable round-trip through their name string |
| Serializer.MarkerBytes | include/Serializer.h:73-88 | serializeMarkerEntity writes id, position, size, moving, visibility, texture: 42 bytes plus the path |
| Serializer.ReadMarker | include/Serializer.h:90-109 | deserializeMarkerEntity reads the same fields in the same order and sets texture id 0 |
| Serializer.MarkerRoundTrip | include/Serializer.h:73-109 | a marker's fields decode back in encoding order, every field except the texture id |
| Serializer.MarkerAfterPrefix | include/Serializer.h:73-109 | a marker written after any prefix reads back from the end of that prefix, whatever follows |
| Serializer.FogBytes | include/Serializer.h:111-121 | serializeFogEntity writes id, position, size, visibility: 25 bytes |
| Serializer.ReadFog | include/Serializer.h:123-137 | deserializeFogEntity advances by 25 |
| Serializer.FogRoundTrip | include/Serializer.h:111-137 | a fog entity's fields round-trip in order |
| Serializer.SerializeInt | include/Serializer.h:278-280 | the buffer grows by exactly the int's 4 bytes, nothing else changes |
| Serializer.SerializeFloat | include/Serializer.h:282-284 | the buffer grows by exactly the float's 4 bytes |
| Serializer.SerializeBool | include/Serializer.h:286-289 | the buffer grows by exactly the bool's byte |
| Serializer.SerializeString | include/Serializer.h:291-295 | the buffer grows by exactly the length and the characters |
| Serializer.SerializeVec2 | include/Serializer.h:297-300 | the buffer grows by exactly x and y |
| Serializer.SerializeUInt64 | include/Serializer.h:302-304 | the buffer grows by exactly the value's 8 bytes |
| Serializer.DeserializeUInt64 | include/Serializer.h:306-310 | returns the value and offset of ReadU64, so the round trip and the 8-byte advance hold |
| Serializer.DeserializeInt | include/Serializer.h:312-316 | returns the value and offset of ReadInt |
| Serializer.DeserializeFloat | include/Serializer.h:318-322 | returns the value and offset of ReadFloat |
| Serializer.DeserializeBool | include/Serializer.h:324-328 | returns the value and offset of ReadBool |
| Serializer.DeserializeString | include/Serializer.h:330-335 | returns the string and offset of ReadString, defined only when the length read is valid |
| Serializer.DeserializeVec2 | include/Serializer.h:337-341 | returns the value and offset of ReadVec2 |
| Serializer.SerializePosition | include/Serializer.h:343-346 | the buffer grows by exactly the position's bytes |
| Serializer.DeserializePosition | include/Serializer.h:348-352 | returns the value and offset of ReadPosition |
| Serializer.SerializeSize | include/Serializer.h:354-357 | the buffer grows by exactly the size's bytes |
| Serializer.DeserializeSize | include/Serializer.h:359-363 | returns the value and offset of ReadSize |
| Serializer.SerializeVisibility | include/Serializer.h:367-369 | the buffer grows by exactly the flag's byte |
| Serializer.DeserializeVisibility | include/Serializer.h:371-374 | returns the value and offset of ReadVisibility |
| Serializer.SerializeMoving | include/Serializer.h:377-379 | the buffer grows by exactly the flag's byte |
| Serializer.DeserializeMoving | include/Serializer.h:381-384 | returns the value and offset of ReadMoving |
| Serializer.SerializePanning | include/Serializer.h:401-403 | the buffer grows by exactly the flag's byte |
| Serializer.DeserializePanning | include/Serializer.h:405-408 | returns the value and offset of ReadPanning |
| Serializer.SerializeTextureComponent | include/Serializer.h:387-391 | the buffer grows by exactly id, path and size |
| Serializer.DeserializeTextureComponent | include/Serializer.h:393-398 | returns the value and offset of ReadTexture, with texture id 0 |
| Serializer.SerializeGrid | include/Serializer.h:411-416 | the buffer grows by exactly the grid's 18 bytes |
| Serializer.DeserializeGrid | include/Serializer.h:418-425 | returns the value and offset of ReadGrid |
| Serializer.SerializeBoard | include/Serializer.h:427-429 | the buffer grows by exactly the board name string |
| Serializer.DeserializeBoard | include/Serializer.h:431-434 | returns the value and offset of ReadBoard |
| Serializer.SerializeGameTable | include/Serializer.h:437-439 | the buffer grows by exactly the table name string |
| Serializer.DeserializeGameTable | include/Serializer.h:441-444 | returns the value and offset of ReadGameTable |
| Toaster.Pushed | include/ImGuiToaster.h:59-61 | the new toast goes to the back; the front one is dropped when the queue grows past the bound, so a queue within the bound stays within it |
| Toaster.PrunedFront | include/ImGuiToaster.h:83-84 | drops exactly the leading toasts that have expired and stops at the first live one |
| Toaster.PruneKeepsExpiredBehindLive | include/ImGuiToaster.h:83-84 | an expired toast behind a live one is kept |
| Toaster.ImGuiToaster.constructor | include/ImGuiToaster.h:48-49 | the queue starts empty with its bound (default bound at line 37) |
| Toaster.ImGuiToaster.Push | include/ImGuiToaster.h:51-63 | a toast expiring the duration after now is pushed, and the queue stays within the bound |
| Toaster.ImGuiToaster.Info | include/ImGuiToaster.h:64 | pushes an Info toast |
| Toaster.ImGuiToaster.Good | include/ImGuiToaster.h:65 | pushes a Good toast |
| Toaster.ImGuiToaster.Warn | include/ImGuiToaster.h:66 | pushes a Warning toast |
| Toaster.ImGuiToaster.Error | include/ImGuiToaster.h:67 | pushes an Error toast |
| Toaster.ImGuiToaster.Clear | include/ImGuiToaster.h:69-72 | the queue empties |
| Toaster.ImGuiToaster.PruneForRender | include/ImGuiToaster.h:78-86 | expired toasts at the front are popped and the copy drawn is what is left |
| TunnelController.IndexOf | external/lt-controller.js:21 | the index found holds the character and none comes before it; none is found only when the character is absent |
| TunnelController.Trim | external/lt-controller.js:74 | the result is no longer than the input |
| TunnelController.TrimIs | external/lt-controller.js:74 | trim keeps a contiguous middle part: everything dropped before and after it is white space and the part kept neither starts nor ends with white space |
| TunnelController.ParseIntOfDecimal | external/lt-controller.js:45 | parseInt(s, 10) reads back a decimal number followed by any non-digit text, and the "undefined" of an absent option is not a number |
| TunnelController.Option | external/lt-controller.js:18-36 | "--k=v" splits at the first '='; "--k" takes the next token when it does not start with "--", else "true"; the index moves past what was consumed |
| TunnelController.ParseFrom | external/lt-controller.js:17-37 | options parsed earlier stay keys of the result |
| TunnelController.ParseFromOverrides | external/lt-controller.js:17-37 | a later option overrides an earlier one under the same key |
| TunnelController.ParseArgs | external/lt-controller.js:15-39 | the loop over argv computes the option map of the whole command line |
| TunnelController.PortArg | external/lt-controller.js:45 | a present --port is passed on as written; an absent one is undefined |
| TunnelController.CheckedPort | external/lt-controller.js:44-50 | accepted exactly when parseInt yields an integer in 1..65535, which is then the port; otherwise the fixed error message |
| TunnelController.PortFromCommandLine | external/lt-controller.js:42-50 | "--port N" for a port N in decimal is accepted as N; a command line without --port is refused |
| TunnelController.Lookup | external/lt-controller.js:53-54 | an optional option is present exactly when its key is, with its value |
| TunnelController.Configured | external/lt-controller.js:44-54 | the tunnel options are the checked port with the optional subdomain and host, and fail exactly when the port check fails |
| TunnelController.Configure | external/lt-controller.js:42-54 | parsing the command line and checking it gives the configured options |
| TunnelController.Scan | external/lt-controller.js:71-81 | when no stop line is met, what stays buffered holds no line break |
| TunnelController.ScanKeepsTail | external/lt-controller.js:71-81 | what stays buffered is exactly the text after the last line break |
| TunnelController.ScanStopsOnStopLine | external/lt-controller.js:71-81 | the loop stops exactly when a complete line trims to "stop" |
| TunnelController.ScanAcrossChunks | external/lt-controller.js:69-82 | data split across chunks is read as if it came in one chunk |
| TunnelController.StopWithCarriageReturn | external/lt-controller.js:74-77 | a "stop" line ended by "\r\n" stops too |
| TunnelController.ScanInput | external/lt-controller.js:69-82 | the loop method stops exactly when Scan stops, and otherwise keeps Scan's tail |
| TunnelController.Started | external/lt-controller.js:44-91 | a bad port writes the port error and exits 1; a failed launch writes its message and exits 1; an opened tunnel writes one ready event with its url and keeps listening |
| TunnelController.Controller.constructor | external/lt-controller.js:41-42 | nothing is written, no exit code, not listening, an empty buffer |
| TunnelController.Controller.Run | external/lt-controller.js:41-91 | the options handed to the library are the configured ones and the output, exit code and listening state are those of Started |
| TunnelController.Controller.Report | external/lt-controller.js:44-91 | the output, exit code and listening state are those of Started |
| TunnelController.Controller.OnData | external/lt-controller.js:69-82 | a stop line closes the tunnel once and exits 0; otherwise the buffer becomes Scan's tail and nothing else changes |
| TunnelController.Controller.OnEnd | external/lt-controller.js:83-86 | the tunnel is closed once and the exit code is 0 |
| TunnelController.Controller.OnTunnelClose | external/lt-controller.js:63 | one closed event is written |
| TunnelController.Controller.OnTunnelError | external/lt-controller.js:64 | one error event with the message is written |
| TunnelControllerPackaged.Booted | dist/_CPack_Packages/win64/ZIP/RunicVTT-0.1.0-win64/external/lt-controller.cjs:11-30 | two lines are written: the boot event, then require_ok with the version, or require_err with exit code 1 exactly when package.json is missing or loading throws, with the matching message |
| TunnelControllerPackaged.UserArgs | dist/_CPack_Packages/win64/ZIP/RunicVTT-0.1.0-win64/external/lt-controller.cjs:33 | the user arguments are argv without its first two entries |
| TunnelControllerPackaged.TokenOrUndefined | dist/_CPack_Packages/win64/ZIP/RunicVTT-0.1.0-win64/external/lt-controller.cjs:36-37 | an index inside the arguments reads that argument |
| TunnelControllerPackaged.ArgsFrom | dist/_CPack_Packages/win64/ZIP/RunicVTT-0.1.0-win64/external/lt-controller.cjs:35-38 | a subdomain found is the earlier one or one of the arguments |
| TunnelControllerPackaged.ParseOptions | dist/_CPack_Packages/win64/ZIP/RunicVTT-0.1.0-win64/external/lt-controller.cjs:33-38 | the loop with its skipping index computes the port and subdomain of the whole argument list |
| TunnelControllerPackaged.ArgsShift | dist/_CPack_Packages/win64/ZIP/RunicVTT-0.1.0-win64/external/lt-controller.cjs:35-38 | a token that is neither option is passed over without effect |
| TunnelControllerPackaged.HostIgnored | dist/_CPack_Packages/win64/ZIP/RunicVTT-0.1.0-win64/external/lt-controller.cjs:35-38 | "--host h" changes neither the port nor the subdomain |
| TunnelControllerPackaged.PortOptionAhead | dist/_CPack_Packages/win64/ZIP/RunicVTT-0.1.0-win64/external/lt-controller.cjs:36 | "--port v" sets the port to parseInt(v) and the loop continues after v |
| TunnelControllerPackaged.PortGiven | dist/_CPack_Packages/win64/ZIP/RunicVTT-0.1.0-win64/external/lt-controller.cjs:36-39 | "--port N" gives the port N, accepted exactly when N is not 0 |
| TunnelControllerPackaged.LaterPortArgs | external/lt-controller.js:15-39 | the later controller reads "--port N" as the single option port = N's text |
| TunnelControllerPackaged.PortWithoutUpperBound | dist/_CPack_Packages/win64/ZIP/RunicVTT-0.1.0-win64/external/lt-controller.cjs:39 | a port above 65535 passes this controller's check while the later controller refuses it |
| TunnelControllerPackaged.PortMissing | dist/_CPack_Packages/win64/ZIP/RunicVTT-0.1.0-win64/external/lt-controller.cjs:34-42 | no --port, a trailing --port, and --port followed by another option all leave no usable port |
| TunnelControllerPackaged.Answered | dist/_CPack_Packages/win64/ZIP/RunicVTT-0.1.0-win64/external/lt-controller.cjs:52-63 | the callback succeeds exactly without an error and with t or the returned value, preferring t; its failure message is the error's or the missing-instance message |
| TunnelControllerPackaged.ReadyCountAtMostOne | dist/_CPack_Packages/win64/ZIP/RunicVTT-0.1.0-win64/external/lt-controller.cjs:49-50 | with at most one ready event counted, no two events of the output are both ready |
| TunnelControllerPackaged.ReadyCountZero | dist/_CPack_Packages/win64/ZIP/RunicVTT-0.1.0-win64/external/lt-controller.cjs:49-50 | no ready event counted means none in the output |
| TunnelControllerPackaged.Controller.constructor | dist/_CPack_Packages/win64/ZIP/RunicVTT-0.1.0-win64/external/lt-controller.cjs:34-46 | nothing written, no exit code, no tunnel, not started |
| TunnelControllerPackaged.Controller.Start | dist/_CPack_Packages/win64/ZIP/RunicVTT-0.1.0-win64/external/lt-controller.cjs:11-30 | the output and exit code are those of Booted and nothing else changes |
| TunnelControllerPackaged.Controller.Fail | dist/_CPack_Packages/win64/ZIP/RunicVTT-0.1.0-win64/external/lt-controller.cjs:40-41 | one error event is written and the exit code becomes 1; nothing else changes |
| TunnelControllerPackaged.Controller.Open | dist/_CPack_Packages/win64/ZIP/RunicVTT-0.1.0-win64/external/lt-controller.cjs:33-98 | the port and subdomain handed to lt are the parsed ones; a refused port writes "Missing --port" and exits 1; a throwing call writes its message and exits 1; a returning call keeps its value as the tunnel |
| TunnelControllerPackaged.Controller.OnReady | dist/_CPack_Packages/win64/ZIP/RunicVTT-0.1.0-win64/external/lt-controller.cjs:48-90 | a second callback changes nothing; the first reports Answered's failure and exits 1, or writes one ready event with the url and starts listening |
| TunnelControllerPackaged.Controller.OnData | dist/_CPack_Packages/win64/ZIP/RunicVTT-0.1.0-win64/external/lt-controller.cjs:74-85 | a stop line closes the tunnel once and exits 0; otherwise the buffer becomes Scan's tail |
| TunnelControllerPackaged.Controller.OnEnd | dist/_CPack_Packages/win64/ZIP/RunicVTT-0.1.0-win64/external/lt-controller.cjs:86-89 | the tunnel is closed once and the exit code is 0 |
| TunnelControllerPackaged.Controller.OnTunnelClose | dist/_CPack_Packages/win64/ZIP/RunicVTT-0.1.0-win64/external/lt-controller.cjs:68 | one closed event is written |
| TunnelControllerPackaged.Controller.OnTunnelError | dist/_CPack_Packages/win64/ZIP/RunicVTT-0.1.0-win64/external/lt-controller.cjs:69 | one error event with the message is written |
| VertexLayout.SizeOfType | src/renderer/VertexBufferLayout.h:14-24 | 4 bytes for GL_FLOAT and GL_UNSIGNED_INT, 1 for GL_UNSIGNED_BYTE; 0 exactly for every other type |
| VertexLayout.ByteSizeAppend | src/renderer/VertexBufferLayout.h:31-32 | appending an attribute adds count times its component size to the true byte size |
| VertexLayout.StrideOfAppend | src/renderer/VertexBufferLayout.h:48 | adding to the unsigned 32-bit stride step by step gives the sum of all sizes taken modulo 2^32 |
| VertexLayout.VertexBufferLayout.constructor | src/renderer/VertexBufferLayout.h:34-35 | a new layout has no attributes and stride 0, and the stride invariant holds |
| VertexLayout.VertexBufferLayout.PushElement | src/renderer/VertexBufferLayout.h:46-48 | the attribute is appended and the stride grows by its size modulo 2^32; the stride stays the byte size of all attributes modulo 2^32 |
| VertexLayout.VertexBufferLayout.PushFloat | src/renderer/VertexBufferLayout.h:43-49 | appends a non-normalized GL_FLOAT attribute and adds 4 bytes per component to the stride |
| VertexLayout.VertexBufferLayout.PushUnsignedInt | src/renderer/VertexBufferLayout.h:51-57 | appends a non-normalized GL_UNSIGNED_INT attribute and adds 4 bytes per component to the stride |
| VertexLayout.VertexBufferLayout.PushUnsignedByte | src/renderer/VertexBufferLayout.h:59-65 | appends a normalized GL_UNSIGNED_BYTE attribute and adds 1 byte per component to the stride |
| VertexLayout.VertexBufferLayout.PushUnsupported | src/renderer/VertexBufferLayout.h:37-41 | the generic Push leaves attributes and stride unchanged, because the exception it constructs is never thrown |
| VertexLayout.VertexBufferLayout.GetStride | src/renderer/VertexBufferLayout.h:68 | the stride read back is the byte size of all attributes modulo 2^32 |

## Left out

- Byte order and widths: `int` is taken as 4 bytes, `uint64_t` as 8 and `bool` as 1, all little-endian, which is the x86-64 Windows target the program is built for. Other platforms are not modelled.
- Floating point: a `float` is modelled as its raw 32-bit pattern, which memcpy copies. No float arithmetic is modelled: geometry, sizes, grid values and the opacity of fog and markers are opaque. Chat timestamps are `real`, and their `double` rounding is not modelled.
- Reads past the end of a buffer: the deserializers of include/Serializer.h do no bounds checks, so such a read is undefined behaviour.
  - The `Serializer` read functions require the bytes to be there.
  - The decoders built on them (`ChatLog`, `ChatThreadsLog`, `ImageReceiver`) and `LegacyNetwork.ParseChunk`, which reads its length fields without checking the buffer size, report an overrun, or None, instead of modelling what the program would do.
- Character classes: `isspace`, `isdigit`, `isalnum` and `tolower` are those of the "C" locale. Strings are sequences of characters or bytes, with no UTF-8 decoding and no Unicode case folding.
  - `AssetIO.Narrow` keeps the low byte of each UTF-16 code unit; it does not model a UTF-8 conversion.
- Toast durations: they are whole clock ticks of a `now` parameter, not float seconds converted to a steady-clock duration. The drawing and layout of the toaster are not modelled.
- Clocks and randomness are parameters:
  - the arbiter's `nowMs()`, the logger's timestamps and the toast clock;
  - `ctime` text in new notes, and the random draws of `generateUUID`;
  - the dice results and the text of a roll's reply (`rollReply`). Only the /roll parsing is modelled.
- Helpers whose definitions are not shown are parameters:
  - `std::hash` (for group ids);
  - `hasUrlScheme`;
  - `PendingImage::isComplete`;
  - the numeric `DCType` tag values;
  - `MessageType::ImageChunk`;
  - the send chunk size `kChunk`.
- Container iteration order is a parameter: the order in which `std::unordered_map`s are visited when saving chat logs and fanning out to sinks.
- `AssetIO.Extension`: follows the POSIX rule for a file name (from the last '.' on). The Windows standard library first cuts the name at an alternate-data-stream ':', so for "XYZ.jpg:large" it gives ".jpg" where the model gives ".jpg:large". It also treats a drive prefix ("C:x.png") as a root name outside the file name. Names holding ':' are not modelled as Windows splits them.
- `AssetIO.Stem`: follows the same POSIX rule (everything before the extension). The Windows standard library cuts at an alternate-data-stream ':' first, so for "notes:v1.txt" it gives "notes" where the model gives "notes:v1", and it keeps a drive prefix out of the stem.
- `ChatGroups.ParseIntAt`: signed `int` overflow in the digit loop is undefined behaviour in C++. It is modelled as the two's-complement wrap that the build produces in practice.
- `ChatThreads.ParseCommand`: does not bound the die size, because processCommand checks only N. A long M wraps to any `int`, so no bound holds.
- `ChatThreads.ParseDiceAt`: does not bound the die size, for the same reason.
- `Logger.Logger.Commit`: promises no delivery to sinks at capacity 0. There, commit_ reads the back of an empty deque, which is undefined behaviour (see Findings).
- `FirewallUtils.EscapedLiteral`: holds only for text without the typographic quotes U+2018 to U+201B, which PowerShell also takes as string delimiters (see Findings).
- `FirewallUtils.RemoveRuleCommand`: its round trip is proved only for display names without those quotes.
- `FirewallUtils.AddInboundRuleName`: proved only for rule names without those quotes.
- `FirewallUtils.AddInboundRulePath`: proved only for program paths without those quotes.
- Running the elevated PowerShell process and the UTF-8 to UTF-16 conversion of the command line are not modelled.
- `TunnelControllerPackaged.Controller.Open`: the library's callback is taken to run after `lt(...)` has returned.
  - If the callback ran synchronously with a falsy `t`, `t || maybe` would touch `maybe` before its initialisation (a ReferenceError). That case is not modelled.
- JavaScript numbers: `parseInt` is modelled as the exact integer of its leading digits. The rounding of very long digit strings to a double, and Infinity, are not modelled. Both port checks decide the same either way.
- The localtunnel library, JSON encoding of events, and `process.stdout` failures (which the controllers swallow) are outside the model. An event is its fields.
- JSON parsing of incoming chat frames (nlohmann) is not modelled: a frame is taken as already parsed, or as not a chat frame.
- Rendering, ImGui, OpenGL and every render/popup function are not modelled. The debug console's windows and toggle callbacks appear only as whether a toggle has an action.
- The ECS entity composition of the serializer (`serialize*Entity`, include/Serializer.h:73-274) is not modelled: it calls the flecs library. Only the component field orders are modelled.
- Networking and processes are not modelled:
  - libdatachannel's peer connections and data channels, which appear as their state and the messages handed to `send`;
  - the asio sockets of src/NetworkManager_OLD.cpp;
  - the signaling server and client;
  - NetworkUtilities and UPnP.
- Concurrency is not modelled:
  - the Logger's and the Toaster's mutexes (both classes are modelled sequentially);
  - the raw drain thread of the network manager;
  - the message queues' blocking;
  - DirectoryWindow's monitor thread.
- File I/O is not modelled:
  - writing and reading the chat logs, whose byte layout is modelled;
  - the identity files "RUNIC-ME" and "RUNIC-BOOK";
  - note files, given as their lines and directory entries;
  - AssetIO's copy, download, listing and removal, with the file system given as sets and maps;
  - the Win32 file picker.
- BoardManager, GameTableManager, the note editor UI and the fog geometry are not part of this model.

## Findings

| source | as written | input that shows it | evidently intended | confidence | as-written member | corrected member |
|---|---|---|---|---|---|---|
| src/network/NetworkManager.cpp:1312-1319 | buildSnapshotBoardFrame writes the grid as offset, cell size, three bools and opacity (19 bytes), but handleBoardMeta reads it with deserializeGrid (include/Serializer.h:418-424), which takes two vec2 and two bools (18 bytes) | a board frame for a zeroed board with a 1-byte image: the receiver reads the image size from one byte too early, as 256 | the grid bytes the receiver reads are the ones the sender writes, so the board and its image arrive intact | not executed | FrameFindings.BoardTotalMisread | GameFrames.SendBoardIntended |
| src/network/NetworkManager.cpp:911 | the chunk bounds check `off64 + uint64(len) > total` is computed in 64-bit unsigned arithmetic and wraps | 8 bytes at offset 2^64-8 into a 16-byte image: the sum wraps to 0, the check passes and memcpy writes outside the buffer (a length of -1 at offset 1 passes the same way) | a chunk is copied only when offset + length fits in the image | not executed | FrameFindings.ChunkGuardWraps | ImageReceiver.HandleImageChunk |
| include/AssetIO.h:306 | deleteAsset refuses every relative path whose text starts with "..", not just a leading ".." component | an existing file "C:\assets\..a.png" in the assets root C:\assets (a name slugify can produce) is refused | refuse exactly the targets outside the assets root | not executed | AssetIO.DeleteRefusedInside | AssetIO.DeleteStaysInsideIntended |
| include/debug/Logger.h:297-302 | commit_ trims the channel to the capacity and then reads q.back(), while setChannelCapacity (lines 89-93) accepts 0 | capacity 0: the new entry is popped and back() is read from an empty deque | the committed entry reaches every sink, which holds for capacities of at least 1 | not executed | Logger.CommitWithZeroCapacity | Logger.Logger.Commit |
| include/network/FirewallUtils.h:12-19 | psEscape doubles only the ASCII apostrophe, but PowerShell also ends a single-quoted literal at U+2018 to U+201B | the rule name "a’b" (U+2019): the literal ends after "a", and the rest of the name is read as PowerShell code | the whole name is one literal whatever it contains | not executed | FirewallUtils.SmartQuoteEndsLiteral | FirewallUtils.EscapedIntendedLiteral |
