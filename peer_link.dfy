/**
 * One WebRTC peer link (src/network/PeerLink.cpp): the remote ICE candidates
 * held back until the remote description is set, the data channels by
 * name with their open flags, the bootstrap flag, the back-pressure guard
 * of sendOn, and close.
 *
 * The peer connection and the data channels are foreign objects. The peer
 * connection is represented by its state (absent once it has been reset);
 * a data channel by whether it is open, its bufferedAmount, and the binary
 * messages handed to its send, in order. The candidates handed to
 * addRemoteCandidate are recorded in `applied`, in order. The channel
 * labels of the message header are a value fixed at construction.
 */
module PeerLink {
  import opened CTypes
  import opened Wrappers

  /** rtc::PeerConnection::State. */
  datatype PcState = New | Connecting | Connected | Disconnected | Failed | Closed

  /** A slot of dcs_: a null pointer, or a channel. */
  datatype Channel =
    | NullChannel
    | Dc(isOpen: bool, bufferedAmount: nat, sent: seq<seq<byte>>)

  /** The labels msg::dc::name gives the game, chat and notes channels. */
  datatype Labels = Labels(game: CString, chat: CString, notes: CString)

  /** The send queue above which sendOn refuses: 5 MB. */
  const MaxBufferedBytes: nat := 5 * 1024 * 1024

  /** A remote ICE candidate, as its SDP text. */
  type Candidate = CString

  /** isClosedOrFailed: no peer connection, or one that is closed or has failed. */
  predicate ClosedOrFailed(pc: Option<PcState>)
  {
    pc.None? || pc.value == Closed || pc.value == Failed
  }

  /** isClosedOrFailed holds exactly when the link cannot be used any more: every other state keeps it. */
  lemma {:induction false} ClosedOrFailedExactly(pc: Option<PcState>)
    ensures !ClosedOrFailed(pc) <==> pc.Some? && pc.value in {New, Connecting, Connected, Disconnected}
  {
  }

  class Link {
    const peerId: CString
    const labels: Labels
    var pc: Option<PcState>
    var remoteDescSet: bool
    var pendingRemoteCandidates: seq<Candidate>
    var applied: seq<Candidate>
    /** Every remote candidate added so far, in arrival order. */
    ghost var arrived: seq<Candidate>
    var dcs: map<CString, Channel>
    var dcOpen: map<CString, bool>
    var bootstrapSent: bool

    /**
     * No candidate is lost or reordered: those applied followed by those
     * still pending are the candidates in arrival order, and nothing is
     * pending once the remote description is set.
     */
    ghost predicate Valid()
      reads this
    {
      applied + pendingRemoteCandidates == arrived
      && (remoteDescSet ==> pendingRemoteCandidates == [])
    }

    /** A fresh link: a new peer connection, no channels, no candidates. */
    constructor (id: CString, labels: Labels)
      ensures Valid()
      ensures peerId == id && this.labels == labels && pc == Some(New)
      ensures !remoteDescSet && pendingRemoteCandidates == [] && applied == [] && arrived == []
      ensures dcs == map[] && dcOpen == map[] && !bootstrapSent
    {
      peerId, this.labels := id, labels;
      pc := Some(New);
      remoteDescSet := false;
      pendingRemoteCandidates, applied := [], [];
      arrived := [];
      dcs, dcOpen := map[], map[];
      bootstrapSent := false;
    }

    /**
     * setRemoteDescription: the queued candidates are applied in arrival
     * order, the queue is emptied and later candidates go straight through.
     */
    method SetRemoteDescription()
      requires Valid() && pc.Some?
      modifies this
      ensures Valid()
      ensures remoteDescSet && pendingRemoteCandidates == []
      ensures applied == old(applied) + old(pendingRemoteCandidates)
      ensures arrived == old(arrived)
      ensures pc == old(pc) && dcs == old(dcs) && dcOpen == old(dcOpen) && bootstrapSent == old(bootstrapSent)
    {
      remoteDescSet := true;
      var i := 0;
      while i < |pendingRemoteCandidates|
        invariant 0 <= i <= |pendingRemoteCandidates|
        invariant applied == old(applied) + pendingRemoteCandidates[..i]
        invariant pendingRemoteCandidates == old(pendingRemoteCandidates) && arrived == old(arrived)
        invariant pc == old(pc) && dcs == old(dcs) && dcOpen == old(dcOpen) && bootstrapSent == old(bootstrapSent)
        invariant remoteDescSet
      {
        applied := applied + [pendingRemoteCandidates[i]];
        i := i + 1;
      }
      assert pendingRemoteCandidates[..i] == pendingRemoteCandidates;
      pendingRemoteCandidates := [];
    }

    /** addIceCandidate: queued before the remote description is set, applied at once afterwards. */
    method AddIceCandidate(c: Candidate)
      requires Valid() && (remoteDescSet ==> pc.Some?)
      modifies this
      ensures Valid()
      ensures arrived == old(arrived) + [c]
      ensures !remoteDescSet ==> pendingRemoteCandidates == old(pendingRemoteCandidates) + [c] && applied == old(applied)
      ensures remoteDescSet ==> applied == old(applied) + [c] && pendingRemoteCandidates == []
      ensures remoteDescSet == old(remoteDescSet) && pc == old(pc) && dcs == old(dcs) && dcOpen == old(dcOpen)
      ensures bootstrapSent == old(bootstrapSent)
    {
      arrived := arrived + [c];
      if !remoteDescSet {
        pendingRemoteCandidates := pendingRemoteCandidates + [c];
      } else {
        applied := applied + [c];
      }
    }

    /** createChannels: the game, chat and notes channels are created (not yet open) when there is a peer connection. */
    method CreateChannels()
      modifies this
      ensures pc.None? ==> dcs == old(dcs)
      ensures pc.Some? ==> dcs == old(dcs)[labels.game := Dc(false, 0, [])][labels.chat := Dc(false, 0, [])]
                                           [labels.notes := Dc(false, 0, [])]
      ensures pc == old(pc) && dcOpen == old(dcOpen) && bootstrapSent == old(bootstrapSent)
      ensures remoteDescSet == old(remoteDescSet) && pendingRemoteCandidates == old(pendingRemoteCandidates)
      ensures applied == old(applied) && arrived == old(arrived)
    {
      if pc.None? {
        return;
      }
      dcs := dcs[labels.game := Dc(false, 0, [])];
      dcs := dcs[labels.chat := Dc(false, 0, [])];
      dcs := dcs[labels.notes := Dc(false, 0, [])];
    }

    /** onDataChannel: a channel the remote side opened is filed under its name. */
    method OnDataChannel(name: CString, ch: Channel)
      modifies this
      ensures dcs == old(dcs)[name := ch]
      ensures pc == old(pc) && dcOpen == old(dcOpen) && bootstrapSent == old(bootstrapSent)
      ensures remoteDescSet == old(remoteDescSet) && pendingRemoteCandidates == old(pendingRemoteCandidates)
      ensures applied == old(applied) && arrived == old(arrived)
    {
      dcs := dcs[name := ch];
    }

    /** The guards of sendOn: the name has a channel, it is open, and its queue is within the limit. */
    function CanSend(name: CString): (r: bool)
      reads this
      ensures r <==> name in dcs && dcs[name].Dc? && dcs[name].isOpen && dcs[name].bufferedAmount <= MaxBufferedBytes
    {
      name in dcs && dcs[name] != NullChannel && dcs[name].isOpen && dcs[name].bufferedAmount <= MaxBufferedBytes
    }

    /**
     * sendOn: false and nothing sent when a guard fails; otherwise a
     * byte-for-byte copy of `bytes` is handed to the channel and the result
     * is true.
     */
    method SendOn(name: CString, bytes: seq<byte>) returns (ok: bool)
      modifies this
      ensures ok <==> old(CanSend(name))
      ensures !ok ==> dcs == old(dcs)
      ensures ok ==> dcs == old(dcs)[name := old(dcs[name]).(sent := old(dcs[name]).sent + [bytes])]
      ensures pc == old(pc) && dcOpen == old(dcOpen) && bootstrapSent == old(bootstrapSent)
      ensures remoteDescSet == old(remoteDescSet) && pendingRemoteCandidates == old(pendingRemoteCandidates)
      ensures applied == old(applied) && arrived == old(arrived)
    {
      if name !in dcs || dcs[name] == NullChannel {
        return false;
      }
      var ch := dcs[name];
      if !ch.isOpen {
        return false;
      }
      if ch.bufferedAmount > MaxBufferedBytes {
        return false;
      }
      dcs := dcs[name := ch.(sent := ch.sent + [bytes])];
      return true;
    }

    /** allRequiredOpen: the game channel is recorded open. */
    function AllRequiredOpen(): (r: bool)
      reads this
      ensures r <==> labels.game in dcOpen && dcOpen[labels.game]
    {
      labels.game in dcOpen && dcOpen[labels.game]
    }

    /** A channel's onOpen handler: its name is recorded open. */
    method OnChannelOpen(name: CString)
      modifies this
      ensures dcOpen == old(dcOpen)[name := true]
      ensures bootstrapSent == old(bootstrapSent) && dcs == old(dcs) && pc == old(pc)
      ensures remoteDescSet == old(remoteDescSet) && pendingRemoteCandidates == old(pendingRemoteCandidates)
      ensures applied == old(applied) && arrived == old(arrived)
    {
      dcOpen := dcOpen[name := true];
    }

    /** A channel's onClosed handler: its name is recorded closed and the bootstrap must be sent again. */
    method OnChannelClosed(name: CString)
      modifies this
      ensures dcOpen == old(dcOpen)[name := false] && !bootstrapSent
      ensures dcs == old(dcs) && pc == old(pc)
      ensures remoteDescSet == old(remoteDescSet) && pendingRemoteCandidates == old(pendingRemoteCandidates)
      ensures applied == old(applied) && arrived == old(arrived)
    {
      dcOpen := dcOpen[name := false];
      bootstrapSent := false;
    }

    /** setOpen, called by the manager's event drain. */
    method SetOpen(name: CString, open: bool)
      modifies this
      ensures dcOpen == old(dcOpen)[name := open]
      ensures bootstrapSent == old(bootstrapSent) && dcs == old(dcs) && pc == old(pc)
      ensures remoteDescSet == old(remoteDescSet) && pendingRemoteCandidates == old(pendingRemoteCandidates)
      ensures applied == old(applied) && arrived == old(arrived)
    {
      dcOpen := dcOpen[name := open];
    }

    /** markBootstrapSent / markBootstrapReset. */
    method SetBootstrapSent(sent: bool)
      modifies this
      ensures bootstrapSent == sent
      ensures dcOpen == old(dcOpen) && dcs == old(dcs) && pc == old(pc)
      ensures remoteDescSet == old(remoteDescSet) && pendingRemoteCandidates == old(pendingRemoteCandidates)
      ensures applied == old(applied) && arrived == old(arrived)
    {
      bootstrapSent := sent;
    }

    /** isClosedOrFailed on the current state. */
    function IsClosedOrFailed(): (r: bool)
      reads this
      ensures r <==> pc.None? || pc.value in {Closed, Failed}
    {
      ClosedOrFailed(pc)
    }

    /**
     * close: every channel is closed and forgotten, the peer connection is
     * closed and reset, and, when the manager is still alive, it is asked to
     * remove this peer id (the result names the id it is asked to remove).
     */
    method Close(managerAlive: bool) returns (removeRequest: Option<CString>)
      modifies this
      ensures dcs == map[] && pc.None? && IsClosedOrFailed()
      ensures removeRequest == if managerAlive then Some(peerId) else None
      ensures dcOpen == old(dcOpen) && bootstrapSent == old(bootstrapSent)
      ensures remoteDescSet == old(remoteDescSet) && pendingRemoteCandidates == old(pendingRemoteCandidates)
      ensures applied == old(applied) && arrived == old(arrived)
    {
      dcs := map[];
      pc := None;
      removeRequest := if managerAlive then Some(peerId) else None;
    }
  }

  /**
   * On any link still waiting for its remote description, a candidate that
   * arrives before the description is applied after every candidate already
   * queued and ahead of one that arrives after it.
   */
  method CandidatesKeepArrivalOrder(link: Link, early: Candidate, late: Candidate)
    requires link.Valid() && !link.remoteDescSet && link.pc.Some?
    modifies link
    ensures link.Valid() && link.remoteDescSet && link.pendingRemoteCandidates == []
    ensures link.applied == old(link.applied) + old(link.pendingRemoteCandidates) + [early, late]
    ensures link.arrived == old(link.arrived) + [early, late]
  {
    link.AddIceCandidate(early);
    link.SetRemoteDescription();
    link.AddIceCandidate(late);
  }

  /**
   * On any link, a channel that closes and opens again is recorded open but
   * the bootstrap flag stays cleared until it is marked sent again.
   */
  method ReopenClearsBootstrap(link: Link, name: CString)
    modifies link
    ensures link.dcOpen == old(link.dcOpen)[name := true] && !link.bootstrapSent
    ensures name == link.labels.game ==> link.AllRequiredOpen()
  {
    link.OnChannelClosed(name);
    link.OnChannelOpen(name);
  }
}
