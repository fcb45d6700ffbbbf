/**
 * The in-memory part of the identity manager (src/IdentityManager.cpp):
 * my own unique id and username, the address book keyed by unique id
 * (username, last known peer id and a short history of former usernames),
 * and the session map from live peer ids to unique ids.  Writing the
 * "RUNIC-ME" and "RUNIC-BOOK" files is not part of this model.
 */
module Identity {
  import opened CTypes
  import opened Wrappers

  /** PeerIdentity: one address-book entry. */
  datatype PeerIdentity = PeerIdentity(
    uniqueId: CString,
    username: CString,
    peerId: CString,
    usernamesHistory: seq<CString>)

  /** How many former usernames an entry keeps. */
  const HistoryCap: nat := 10

  /** What `byUnique_[uniqueId]` refers to: the stored entry, or a default-constructed one. */
  function EntryFor(book: map<CString, PeerIdentity>, uniqueId: CString): (r: PeerIdentity)
    ensures uniqueId in book ==> r == book[uniqueId]
    ensures uniqueId !in book ==> r == PeerIdentity("", "", "", [])
  {
    if uniqueId in book then book[uniqueId] else PeerIdentity("", "", "", [])
  }

  /**
   * The rename shared by setMyIdentity, bindPeer and setUsernameForUnique:
   * a non-empty former username that differs from the new one goes to the
   * back of the history, whose oldest entry is dropped past the cap.
   */
  function Renamed(pi: PeerIdentity, username: CString): (r: PeerIdentity)
    ensures r.username == username && r.uniqueId == pi.uniqueId && r.peerId == pi.peerId
  {
    if pi.username != [] && pi.username != username then
      var h := pi.usernamesHistory + [pi.username];
      pi.(usernamesHistory := if |h| > HistoryCap then h[1..] else h, username := username)
    else
      pi.(username := username)
  }

  /**
   * A rename keeps the history within the cap. Keeping the same name, or
   * naming an entry that had no name, leaves the history alone; otherwise
   * the former name is the newest history entry and the rest is the old
   * history, minus its oldest entry when it was full.
   */
  lemma {:induction false} RenamedHistory(pi: PeerIdentity, username: CString)
    requires |pi.usernamesHistory| <= HistoryCap
    ensures var h := Renamed(pi, username).usernamesHistory;
      |h| <= HistoryCap
      && (pi.username == [] || pi.username == username ==> h == pi.usernamesHistory)
      && (pi.username != [] && pi.username != username ==>
            h != [] && h[|h| - 1] == pi.username
            && h[..|h| - 1] == (if |pi.usernamesHistory| == HistoryCap then pi.usernamesHistory[1..] else pi.usernamesHistory))
  {
    var h := Renamed(pi, username).usernamesHistory;
    if pi.username != [] && pi.username != username {
      var grown := pi.usernamesHistory + [pi.username];
      if |grown| > HistoryCap {
        assert h == grown[1..];
        assert h[..|h| - 1] == pi.usernamesHistory[1..];
      } else {
        assert h[..|h| - 1] == pi.usernamesHistory;
      }
    }
  }

  /** Every entry is filed under its own unique id and keeps at most HistoryCap former names. */
  ghost predicate WellFormedBook(book: map<CString, PeerIdentity>)
  {
    forall u :: u in book ==> book[u].uniqueId == u && |book[u].usernamesHistory| <= HistoryCap
  }

  /** The book after `uniqueId`'s entry is renamed (and optionally rebound to a peer). */
  lemma {:induction false} RenameKeepsBook(book: map<CString, PeerIdentity>, uniqueId: CString, pi: PeerIdentity, username: CString)
    requires WellFormedBook(book)
    requires pi.uniqueId == uniqueId && |pi.usernamesHistory| <= HistoryCap
    ensures WellFormedBook(book[uniqueId := Renamed(pi, username)])
  {
    RenamedHistory(pi, username);
  }

  /**
   * usernameForUnique: the book's non-empty username; else my username when
   * the id is mine and I have one; else the id cut to its first 8 characters.
   */
  function UsernameFor(book: map<CString, PeerIdentity>, myUniqueId: CString, myUsername: CString, uniqueId: CString): (r: CString)
    ensures uniqueId in book && book[uniqueId].username != [] ==> r == book[uniqueId].username
    ensures (uniqueId !in book || book[uniqueId].username == []) && uniqueId == myUniqueId && myUsername != [] ==>
              r == myUsername
    ensures (uniqueId !in book || book[uniqueId].username == []) && (uniqueId != myUniqueId || myUsername == []) ==>
              |r| == (if |uniqueId| > 8 then 8 else |uniqueId|) && r <= uniqueId
  {
    if uniqueId in book && book[uniqueId].username != [] then book[uniqueId].username
    else if uniqueId == myUniqueId && myUsername != [] then myUsername
    else if |uniqueId| > 8 then uniqueId[..8]
    else uniqueId
  }

  /** A shown name is never empty unless the id itself is empty. */
  lemma {:induction false} UsernameNonEmpty(book: map<CString, PeerIdentity>, myUniqueId: CString, myUsername: CString, uniqueId: CString)
    requires uniqueId != []
    ensures UsernameFor(book, myUniqueId, myUsername, uniqueId) != []
  {
  }

  /** uniqueForPeer: the unique id a live peer is bound to, if any. */
  function UniqueFor(peers: map<CString, CString>, peerId: CString): (r: Option<CString>)
    ensures r.Some? <==> peerId in peers
    ensures r.Some? ==> r.value == peers[peerId]
  {
    if peerId in peers then Some(peers[peerId]) else None
  }

  /** After bindPeer, the peer resolves to the unique id and the unique id shows the bound (non-empty) username. */
  lemma {:induction false} BindThenLookup(book: map<CString, PeerIdentity>, peers: map<CString, CString>, myUniqueId: CString,
                                          myUsername: CString, peerId: CString, uniqueId: CString, username: CString)
    requires username != []
    ensures UniqueFor(peers[peerId := uniqueId], peerId) == Some(uniqueId)
    ensures var book' := book[uniqueId := Renamed(EntryFor(book, uniqueId).(uniqueId := uniqueId, peerId := peerId), username)];
      UsernameFor(book', myUniqueId, myUsername, uniqueId) == username && book'[uniqueId].peerId == peerId
  {
  }

  class IdentityManager {
    var myUniqueId: CString
    var myUsername: CString
    var byUnique: map<CString, PeerIdentity>
    var peerToUnique: map<CString, CString>

    ghost predicate Valid()
      reads this
    {
      WellFormedBook(byUnique)
    }

    constructor ()
      ensures Valid()
      ensures myUniqueId == [] && myUsername == [] && byUnique == map[] && peerToUnique == map[]
    {
      myUniqueId, myUsername := [], [];
      byUnique, peerToUnique := map[], map[];
    }

    /** setMyIdentity: my id and name are replaced, and mirrored into my book entry. */
    method SetMyIdentity(uniqueId: CString, username: CString)
      requires Valid()
      modifies this
      ensures Valid()
      ensures myUniqueId == uniqueId && myUsername == username
      ensures byUnique == old(byUnique)[uniqueId := Renamed(EntryFor(old(byUnique), uniqueId).(uniqueId := uniqueId), username)]
      ensures peerToUnique == old(peerToUnique)
    {
      myUniqueId := uniqueId;
      myUsername := username;
      var pi := EntryFor(byUnique, uniqueId).(uniqueId := uniqueId);
      RenameKeepsBook(byUnique, uniqueId, pi, username);
      byUnique := byUnique[uniqueId := Renamed(pi, username)];
    }

    /** bindPeer: the session binding, and the entry's unique id, peer id and username. */
    method BindPeer(peerId: CString, uniqueId: CString, username: CString)
      requires Valid()
      modifies this
      ensures Valid()
      ensures peerToUnique == old(peerToUnique)[peerId := uniqueId]
      ensures byUnique == old(byUnique)[uniqueId := Renamed(EntryFor(old(byUnique), uniqueId).(uniqueId := uniqueId, peerId := peerId), username)]
      ensures myUniqueId == old(myUniqueId) && myUsername == old(myUsername)
    {
      peerToUnique := peerToUnique[peerId := uniqueId];
      var pi := EntryFor(byUnique, uniqueId).(uniqueId := uniqueId, peerId := peerId);
      RenameKeepsBook(byUnique, uniqueId, pi, username);
      byUnique := byUnique[uniqueId := Renamed(pi, username)];
    }

    /** erasePeer: only the session binding goes; the address book is kept. */
    method ErasePeer(peerId: CString)
      requires Valid()
      modifies this
      ensures Valid()
      ensures peerToUnique == old(peerToUnique) - {peerId}
      ensures byUnique == old(byUnique) && myUniqueId == old(myUniqueId) && myUsername == old(myUsername)
    {
      peerToUnique := peerToUnique - {peerId};
    }

    /** usernameForUnique on the current state. */
    function UsernameForUnique(uniqueId: CString): CString
      reads this
    {
      UsernameFor(byUnique, myUniqueId, myUsername, uniqueId)
    }

    /** uniqueForPeer on the current state. */
    function UniqueForPeer(peerId: CString): Option<CString>
      reads this
    {
      UniqueFor(peerToUnique, peerId)
    }

    /**
     * peerForUnique: walks the session map (in the container's order, here
     * any order) and returns the first peer bound to the unique id.
     */
    method PeerForUnique(uniqueId: CString) returns (r: Option<CString>)
      ensures r.Some? ==> r.value in peerToUnique && peerToUnique[r.value] == uniqueId
      ensures r.None? ==> forall p :: p in peerToUnique ==> peerToUnique[p] != uniqueId
    {
      var unseen := peerToUnique.Keys;
      while unseen != {}
        invariant unseen <= peerToUnique.Keys
        invariant forall p :: p in peerToUnique && p !in unseen ==> peerToUnique[p] != uniqueId
        decreases |unseen|
      {
        var p :| p in unseen;
        if peerToUnique[p] == uniqueId {
          return Some(p);
        }
        unseen := unseen - {p};
      }
      return None;
    }

    /** usernameForPeer: the shown name of the unique id a live peer is bound to. */
    function UsernameForPeer(peerId: CString): (r: Option<CString>)
      reads this
      ensures r.Some? <==> peerId in peerToUnique
      ensures r.Some? ==> r.value == UsernameFor(byUnique, myUniqueId, myUsername, peerToUnique[peerId])
    {
      if peerId in peerToUnique then Some(UsernameForUnique(peerToUnique[peerId])) else None
    }

    /** setUsernameForUnique: my username follows when the id is mine; the book entry is always renamed. */
    method SetUsernameForUnique(uniqueId: CString, username: CString)
      requires Valid()
      modifies this
      ensures Valid()
      ensures myUniqueId == old(myUniqueId)
      ensures myUsername == if uniqueId == old(myUniqueId) then username else old(myUsername)
      ensures byUnique == old(byUnique)[uniqueId := Renamed(EntryFor(old(byUnique), uniqueId), username).(uniqueId := uniqueId)]
      ensures peerToUnique == old(peerToUnique)
    {
      if uniqueId == myUniqueId {
        if myUsername != username {
          myUsername := username;
        }
      }
      var pi := EntryFor(byUnique, uniqueId);
      RenameKeepsBook(byUnique, uniqueId, pi.(uniqueId := uniqueId), username);
      assert Renamed(pi, username).(uniqueId := uniqueId) == Renamed(pi.(uniqueId := uniqueId), username);
      byUnique := byUnique[uniqueId := Renamed(pi, username).(uniqueId := uniqueId)];
    }
  }
}
