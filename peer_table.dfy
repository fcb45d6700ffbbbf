/**
 * The peer table of the network manager (src/network/NetworkManager.cpp):
 * removeDisconnectedPeers, which first picks the ids whose link is null or
 * closed/failed, then erases them from the map, then closes the links it
 * kept, and returns how many entries it erased.
 *
 * A link is represented by the state of its peer connection (PeerLink's
 * isClosedOrFailed is all the pruning looks at); the close calls are
 * returned as the set of ids whose link is to be closed.
 */
module PeerTable {
  import opened CTypes
  import opened Wrappers
  import opened PeerLink

  /** An entry of peers: a null shared_ptr, or a link with its peer-connection state. */
  datatype Slot = NullLink | Live(pc: Option<PcState>)

  /** Whether removeDisconnectedPeers removes an entry: a null link, or one that is closed or failed. */
  predicate Unusable(s: Slot)
  {
    s.NullLink? || ClosedOrFailed(s.pc)
  }

  /** The ids removeDisconnectedPeers erases. */
  function Doomed(peers: map<CString, Slot>): (r: set<CString>)
    ensures forall id :: id in r <==> id in peers && Unusable(peers[id])
  {
    set id | id in peers && Unusable(peers[id])
  }

  /** The ids whose link it closes: the erased ones that are not null. */
  function ToClose(peers: map<CString, Slot>): (r: set<CString>)
    ensures forall id :: id in r <==> id in peers && peers[id].Live? && Unusable(peers[id])
    ensures r <= Doomed(peers)
  {
    set id | id in peers && peers[id].Live? && Unusable(peers[id])
  }

  /** The table left behind: every usable entry, unchanged, and nothing else. */
  function Pruned(peers: map<CString, Slot>): (r: map<CString, Slot>)
    ensures forall id :: id in r <==> id in peers && !Unusable(peers[id])
    ensures forall id :: id in r ==> r[id] == peers[id]
  {
    map id | id in peers && !Unusable(peers[id]) :: peers[id]
  }

  /** The erased and the kept entries split the table: the count returned plus what is left is its old size. */
  lemma {:induction false} PrunedSplits(peers: map<CString, Slot>)
    ensures |Doomed(peers)| + |Pruned(peers)| == |peers|
    ensures Pruned(peers).Keys == peers.Keys - Doomed(peers)
  {
    var kept := Pruned(peers).Keys;
    assert kept == peers.Keys - Doomed(peers);
    assert Doomed(peers) <= peers.Keys;
  }

  /** Pruning twice removes nothing more: every entry left is usable. */
  lemma {:induction false} PrunedIdempotent(peers: map<CString, Slot>)
    ensures Doomed(Pruned(peers)) == {}
    ensures Pruned(Pruned(peers)) == Pruned(peers)
  {
    assert forall id :: id !in Doomed(Pruned(peers));
  }

  class Peers {
    var peers: map<CString, Slot>

    constructor(initial: map<CString, Slot>)
      ensures peers == initial
    {
      peers := initial;
    }

    /**
     * removeDisconnectedPeers: erases exactly the null or closed/failed
     * entries, returns their number, and names the links to close.
     */
    method RemoveDisconnectedPeers() returns (erased: nat, toClose: set<CString>)
      modifies this
      ensures peers == Pruned(old(peers))
      ensures erased == |Doomed(old(peers))|
      ensures toClose == ToClose(old(peers))
    {
      var table := peers;
      // 1) decide who to remove; the map is not touched yet
      var toErase: set<CString> := {};
      toClose := {};
      var pending := table.Keys;
      while pending != {}
        invariant pending <= table.Keys
        invariant forall id :: id in toErase <==> id in table && id !in pending && Unusable(table[id])
        invariant forall id :: id in toClose <==> id in table && id !in pending && table[id].Live? && Unusable(table[id])
        decreases |pending|
      {
        var pid :| pid in pending;
        var link := table[pid];
        if link.NullLink? || ClosedOrFailed(link.pc) {
          toErase := toErase + {pid};
          if link.Live? {
            toClose := toClose + {pid};
          }
        }
        pending := pending - {pid};
      }
      assert toErase == Doomed(table);
      assert toClose == ToClose(table);
      // 2) erase them
      var left := toErase;
      var kept := table;
      while left != {}
        invariant left <= toErase
        invariant forall id :: id in kept <==> id in table && (id !in toErase || id in left)
        invariant forall id :: id in kept ==> kept[id] == table[id]
        decreases |left|
      {
        var pid :| pid in left;
        kept := kept - {pid};
        left := left - {pid};
      }
      assert kept == Pruned(table);
      peers := kept;
      erased := |toErase|;
    }
  }
}
