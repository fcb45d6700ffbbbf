/**
 * The drag epoch arbiter of include/network/EpochArbiter.h.
 *
 * For every marker the arbiter keeps a drag record: the current drag epoch,
 * whether that drag is closed, the last accepted sequence number, the peer
 * that owns the drag and the local-drag bookkeeping.  Local input opens a drag
 * (proposing a new epoch when the last one was closed) and stamps outgoing
 * move and final messages; incoming messages are accepted or rejected by
 * epoch, ownership tie-break, sequence number and local echo suppression.
 *
 * The clock (`nowMs()`) is an explicit `now` parameter.  The pure step
 * functions below are the specification of the per-record transitions; the
 * class EpochArbiter holds the marker map and updates it in place.
 */
module EpochArbiter {
  import opened CTypes
  import opened Wrappers

  datatype Role = GameMaster | Player

  datatype Pos = Pos(x: int32, y: int32)

  datatype MoveMsg = MoveMsg(boardId: u64, markerId: u64, pos: Pos, isDragging: bool, fromPeer: string,
                             senderRole: Role, dragEpoch: Option<u32>, seqNo: Option<u32>, tsMs: Option<u64>)

  datatype FinalMsg = FinalMsg(boardId: u64, markerId: u64, pos: Option<Pos>, isDragging: bool, fromPeer: string,
                               senderRole: Role, dragEpoch: Option<u32>, seqNo: Option<u32>, tsMs: Option<u64>)

  datatype DragState = DragState(
    epoch: u32,
    closed: bool,
    lastSeq: u32,
    ownerPeerId: string,
    lastFinalTsMs: u64,
    locallyDragging: bool,
    locallyProposedEpoch: u32,
    localSeq: u32,
    lastMoveRxMs: u64,
    lastMoveTxMs: u64,
    lastActivityMs: u64,
    epochOpenedMs: u64)

  /** The record `st_[markerId]` creates for a marker seen for the first time. */
  const InitialState := DragState(0, true, 0, "", 0, false, 0, 0, 0, 0, 0, 0)

  datatype Config = Config(sendMoveMinPeriodMs: u32, dragInactivityTimeoutMs: u32,
                           dragMaxDurationMs: u32, dropOlderThanMs: u32)

  const DefaultConfig := Config(50, 2000, 15000, 0)

  datatype Reason = Inactivity | MaxDuration | OwnerDisconnected

  datatype WatchdogEvent = WatchdogEvent(markerId: u64, reason: Reason, epoch: u32, ownerPeerId: string)

  // ---------------------------------------------------------------------------
  // Ownership tie-break

  /** std::string's operator<: lexicographic on characters, a proper prefix is smaller. */
  predicate LexLess(a: string, b: string)
  {
    if a == [] then b != []
    else if b == [] then false
    else if a[0] == b[0] then LexLess(a[1..], b[1..])
    else a[0] < b[0]
  }

  /** ownerWins_: the challenger takes over a drag only when its id is smaller. */
  predicate OwnerWins(challenger: string, current: string)
  {
    LexLess(challenger, current)
  }

  /** The tie-break is a strict total order: of two distinct peers exactly one wins, and no peer beats itself. */
  lemma {:induction false} OwnerWinsDecides(a: string, b: string)
    ensures !OwnerWins(a, a)
    ensures a != b ==> (OwnerWins(a, b) <==> !OwnerWins(b, a))
  {
    if a != [] {
      OwnerWinsDecides(a[1..], a[1..]);
    }
    if a != [] && b != [] && a[0] == b[0] {
      assert a != b ==> a[1..] != b[1..] by {
        if a[1..] == b[1..] {
          assert a == [a[0]] + a[1..] && b == [b[0]] + b[1..];
        }
      }
      OwnerWinsDecides(a[1..], b[1..]);
    }
  }

  /** The tie-break is transitive, so a chain of takeovers never returns to an earlier owner. */
  lemma {:induction false} OwnerWinsTransitive(a: string, b: string, c: string)
    requires OwnerWins(a, b) && OwnerWins(b, c)
    ensures OwnerWins(a, c)
  {
    if a != [] && b != [] && c != [] && a[0] == b[0] && b[0] == c[0] {
      OwnerWinsTransitive(a[1..], b[1..], c[1..]);
    }
  }

  // ---------------------------------------------------------------------------
  // Per-record transitions (the specification)

  /** The record of a marker, as `st_[markerId]` sees it. */
  function Get(st: map<u64, DragState>, markerId: u64): (s: DragState)
    ensures markerId !in st ==> s == InitialState
  {
    if markerId in st then st[markerId] else InitialState
  }

  function Max32(a: u32, b: u32): u32 { if a < b then b else a }

  /** onLocalDragStart on one record. */
  function StartDrag(s: DragState, myPeerId: string, now: u64): (r: DragState)
    ensures r.locallyProposedEpoch == (if s.closed then AddU32(s.epoch, 1) else s.epoch)
    ensures r.locallyDragging && !r.closed && r.localSeq == 0 && r.ownerPeerId == myPeerId
    ensures r.epoch == Max32(s.epoch, r.locallyProposedEpoch)
    ensures r.epoch >= r.locallyProposedEpoch && r.epoch >= s.epoch
    ensures r.lastSeq == s.lastSeq && r.epochOpenedMs == now && r.lastActivityMs == now
  {
    var proposed := if s.closed then AddU32(s.epoch, 1) else s.epoch;
    var t := s.(locallyDragging := true, locallyProposedEpoch := proposed, localSeq := 0,
                ownerPeerId := myPeerId, epochOpenedMs := now, lastActivityMs := now, closed := false);
    if proposed > s.epoch then t.(epoch := proposed) else t
  }

  /** A closed drag reopens one epoch higher, except when the 32-bit epoch wraps to 0. */
  lemma {:induction false} StartDragProposesNext(s: DragState, me: string, now: u64)
    requires s.closed && s.epoch < U32_MODULUS - 1
    ensures StartDrag(s, me, now).epoch == s.epoch + 1
    ensures StartDrag(s, me, now).locallyProposedEpoch == s.epoch + 1
  {
  }

  /** shouldSendMoveNow on one record: true, and the time recorded, exactly when the period has elapsed. */
  function ThrottleMove(s: DragState, now: u64, periodMs: u32): (r: (bool, DragState))
    ensures r.0 <==> SubU64(now, s.lastMoveTxMs) >= periodMs
    ensures r.1 == if r.0 then s.(lastMoveTxMs := now) else s
  {
    if SubU64(now, s.lastMoveTxMs) >= periodMs then (true, s.(lastMoveTxMs := now)) else (false, s)
  }

  /** buildOutgoingMove / buildOutgoingFinal on one record: the epoch and seq the message carries. */
  function StampOutgoing(s: DragState, now: u64, isFinal: bool): (r: (u32, u32, DragState))
    ensures r.0 == s.locallyProposedEpoch
    ensures r.1 == AddU32(s.localSeq, 1) && r.2.localSeq == r.1
    ensures s.localSeq < U32_MODULUS - 1 ==> r.1 > s.localSeq
    ensures r.2.locallyDragging == (s.locallyDragging && !isFinal)
    ensures r.2.lastActivityMs == now && r.2.epoch == s.epoch && r.2.closed == s.closed
  {
    var seqNo := AddU32(s.localSeq, 1);
    var t := s.(localSeq := seqNo, lastActivityMs := now);
    (s.locallyProposedEpoch, seqNo, if isFinal then t.(locallyDragging := false) else t)
  }

  /** adoptEpoch_: a higher epoch reopens the drag for its sender with no sequence number seen yet. */
  function AdoptEpoch(s: DragState, newEpoch: u32, owner: string, now: u64): (r: DragState)
    ensures r.epoch == newEpoch && !r.closed && r.lastSeq == 0 && r.ownerPeerId == owner
    ensures r.lastMoveRxMs == 0 && r.epochOpenedMs == now && r.lastActivityMs == now
    ensures r.locallyDragging == s.locallyDragging && r.localSeq == s.localSeq
  {
    s.(epoch := newEpoch, closed := false, lastSeq := 0, ownerPeerId := owner,
       epochOpenedMs := now, lastMoveRxMs := 0, lastActivityMs := now)
  }

  /** In the record's own epoch: whether a message from `from` may proceed. */
  predicate SameEpochAdmits(s: DragState, from: string)
  {
    !s.closed && (s.ownerPeerId == from || OwnerWins(from, s.ownerPeerId))
  }

  /** A winning challenger takes the drag over and cancels any local drag. */
  function TakeOver(s: DragState, from: string): (r: DragState)
    requires SameEpochAdmits(s, from)
    ensures r.ownerPeerId == from && r.epoch == s.epoch && r.lastSeq == s.lastSeq && !r.closed
    ensures s.ownerPeerId != from && s.locallyDragging ==> !r.locallyDragging && r.localSeq == 0
    ensures s.ownerPeerId == from ==> r == s
  {
    if s.ownerPeerId == from then s
    else
      var t := s.(ownerPeerId := from);
      if t.locallyDragging then t.(locallyDragging := false, localSeq := 0) else t
  }

  /** acceptIncomingMove on one record (the message has an epoch and was not dropped as too old). */
  function AcceptMoveStep(s: DragState, m: MoveMsg, now: u64): (r: (bool, DragState))
    requires m.dragEpoch.Some?
    ensures r.1.epoch == Max32(s.epoch, m.dragEpoch.value)
    ensures m.dragEpoch.value < s.epoch ==> r == (false, s)
    ensures m.dragEpoch.value == s.epoch && !SameEpochAdmits(s, m.fromPeer) ==> r == (false, s)
    ensures m.dragEpoch.value >= s.epoch && (m.dragEpoch.value > s.epoch || SameEpochAdmits(s, m.fromPeer))
            ==> r.1.ownerPeerId == m.fromPeer && !r.1.closed
    ensures r.0 ==> !r.1.locallyDragging && r.1.lastMoveRxMs == now && r.1.lastActivityMs == now
    ensures r.0 && m.seqNo.Some? ==>
              (r.1.lastSeq == m.seqNo.value && m.seqNo.value > 0
               && (m.dragEpoch.value == s.epoch ==> m.seqNo.value > s.lastSeq))
    ensures var e := m.dragEpoch.value;
      r.0 <==> (e > s.epoch || (e == s.epoch && SameEpochAdmits(s, m.fromPeer)))
               && (m.seqNo.None? || m.seqNo.value > (if e > s.epoch then 0 else s.lastSeq))
               && !(s.locallyDragging && (e > s.epoch || s.ownerPeerId == m.fromPeer))
  {
    var e := m.dragEpoch.value;
    if e < s.epoch then (false, s)
    else if e == s.epoch && !SameEpochAdmits(s, m.fromPeer) then (false, s)
    else
      var s1 := if e > s.epoch then AdoptEpoch(s, e, m.fromPeer, now) else TakeOver(s, m.fromPeer);
      if m.seqNo.Some? && m.seqNo.value <= s1.lastSeq then (false, s1)
      else
        var s2 := if m.seqNo.Some? then s1.(lastSeq := m.seqNo.value) else s1;
        if s2.locallyDragging then (false, s2)
        else (true, s2.(lastMoveRxMs := now, lastActivityMs := now))
  }

  /** Local echo suppression: a move that passes every check while the marker is dragged here is still refused, but its seq is recorded. */
  lemma {:induction false} EchoSuppressed(s: DragState, m: MoveMsg, now: u64)
    requires m.dragEpoch.Some? && m.dragEpoch.value == s.epoch && SameEpochAdmits(s, m.fromPeer)
    requires s.ownerPeerId == m.fromPeer && s.locallyDragging
    requires m.seqNo.Some? && m.seqNo.value > s.lastSeq
    ensures !AcceptMoveStep(s, m, now).0
    ensures AcceptMoveStep(s, m, now).1.lastSeq == m.seqNo.value
  {
  }

  /** acceptIncomingFinal on one record (the message has an epoch). */
  function AcceptFinalStep(s: DragState, m: FinalMsg, now: u64): (r: (bool, DragState))
    requires m.dragEpoch.Some?
    ensures r.1.epoch == Max32(s.epoch, m.dragEpoch.value)
    ensures m.dragEpoch.value < s.epoch ==> r == (false, s)
    ensures m.dragEpoch.value == s.epoch && !SameEpochAdmits(s, m.fromPeer) ==> r == (false, s)
    ensures r.0 ==> r.1.closed && !r.1.locallyDragging && r.1.localSeq == 0 && r.1.ownerPeerId == m.fromPeer
    ensures r.0 ==> r.1.lastFinalTsMs == (if m.tsMs.Some? then m.tsMs.value else now)
                    && r.1.lastActivityMs == r.1.lastFinalTsMs
    ensures r.0 && m.dragEpoch.value == s.epoch && m.seqNo.Some? ==> m.seqNo.value >= s.lastSeq && r.1.lastSeq == m.seqNo.value
    ensures m.dragEpoch.value > s.epoch ==> r.0 && r.1.lastSeq == 0
    ensures var e := m.dragEpoch.value;
      r.0 <==> e > s.epoch
               || (e == s.epoch && SameEpochAdmits(s, m.fromPeer) && (m.seqNo.None? || m.seqNo.value >= s.lastSeq))
  {
    var e := m.dragEpoch.value;
    if e < s.epoch then (false, s)
    else if e == s.epoch && !SameEpochAdmits(s, m.fromPeer) then (false, s)
    else if e == s.epoch && m.seqNo.Some? && m.seqNo.value < s.lastSeq then (false, TakeOver(s, m.fromPeer))
    else
      var s1 := if e > s.epoch then AdoptEpoch(s, e, m.fromPeer, now)
                else if m.seqNo.Some? then TakeOver(s, m.fromPeer).(lastSeq := m.seqNo.value)
                else TakeOver(s, m.fromPeer);
      var ts := if m.tsMs.Some? then m.tsMs.value else now;
      (true, s1.(closed := true, lastFinalTsMs := ts, lastActivityMs := ts, locallyDragging := false, localSeq := 0))
  }

  /** forceClose on an existing record. */
  function ForceCloseStep(s: DragState, now: u64): (r: DragState)
    ensures r.closed && !r.locallyDragging && r.localSeq == 0 && r.lastActivityMs == now
    ensures r.epoch == s.epoch && r.ownerPeerId == s.ownerPeerId && r.lastSeq == s.lastSeq
  {
    s.(closed := true, locallyDragging := false, localSeq := 0, lastActivityMs := now)
  }

  /** A move is dropped before its record is touched when it has no epoch or, with dropOlderThanMs set, is too old. */
  predicate DropsMoveEarly(cfg: Config, m: MoveMsg, now: u64)
  {
    m.dragEpoch.None?
    || (cfg.dropOlderThanMs != 0 && m.tsMs.Some? && SubU64(now, m.tsMs.value) > cfg.dropOlderThanMs)
  }

  // ---------------------------------------------------------------------------
  // Whole-arbiter behaviour over any sequence of operations

  datatype Op =
    | LocalDragStart(markerId: u64, myPeerId: string)
    | ShouldSendMove(markerId: u64)
    | BuildMove(markerId: u64)
    | BuildFinal(markerId: u64)
    | IncomingMove(move: MoveMsg)
    | IncomingFinal(final: FinalMsg)
    | ForceClose(markerId: u64)

  /** The marker map after one operation at time `now`. */
  function Apply(cfg: Config, st: map<u64, DragState>, op: Op, now: u64): (r: map<u64, DragState>)
  {
    match op
    case LocalDragStart(id, me) => st[id := StartDrag(Get(st, id), me, now)]
    case ShouldSendMove(id) => st[id := ThrottleMove(Get(st, id), now, cfg.sendMoveMinPeriodMs).1]
    case BuildMove(id) => st[id := StampOutgoing(Get(st, id), now, false).2]
    case BuildFinal(id) => st[id := StampOutgoing(Get(st, id), now, true).2]
    case IncomingMove(m) =>
      if DropsMoveEarly(cfg, m, now) then st
      else st[m.markerId := AcceptMoveStep(Get(st, m.markerId), m, now).1]
    case IncomingFinal(m) =>
      if m.dragEpoch.None? then st
      else st[m.markerId := AcceptFinalStep(Get(st, m.markerId), m, now).1]
    case ForceClose(id) => if id in st then st[id := ForceCloseStep(st[id], now)] else st
  }

  /** currentEpoch: the stored epoch, 0 for an unknown marker. */
  function EpochOf(st: map<u64, DragState>, markerId: u64): u32
  {
    Get(st, markerId).epoch
  }

  /** No single operation lowers any marker's epoch. */
  lemma {:induction false} ApplyKeepsEpochs(cfg: Config, st: map<u64, DragState>, op: Op, now: u64, markerId: u64)
    ensures EpochOf(Apply(cfg, st, op, now), markerId) >= EpochOf(st, markerId)
  {
  }

  /** The marker map after operations `ops`, the i-th at time `times[i]`. */
  function Run(cfg: Config, st: map<u64, DragState>, ops: seq<Op>, times: seq<u64>): map<u64, DragState>
    requires |ops| == |times|
    decreases |ops|
  {
    if ops == [] then st else Run(cfg, Apply(cfg, st, ops[0], times[0]), ops[1..], times[1..])
  }

  /** No sequence of operations ever decreases a marker's epoch. */
  lemma {:induction false} EpochNeverDecreases(cfg: Config, st: map<u64, DragState>, ops: seq<Op>, times: seq<u64>, markerId: u64)
    requires |ops| == |times|
    ensures EpochOf(Run(cfg, st, ops, times), markerId) >= EpochOf(st, markerId)
    decreases |ops|
  {
    if ops != [] {
      ApplyKeepsEpochs(cfg, st, ops[0], times[0], markerId);
      EpochNeverDecreases(cfg, Apply(cfg, st, ops[0], times[0]), ops[1..], times[1..], markerId);
    }
  }

  /** The seq numbers `n` successive outgoing messages carry, starting from a record's localSeq. */
  function OutgoingSeqs(localSeq: u32, n: nat): (r: seq<u32>)
    ensures |r| == n
    decreases n
  {
    if n == 0 then [] else [AddU32(localSeq, 1)] + OutgoingSeqs(AddU32(localSeq, 1), n - 1)
  }

  /** Without a 32-bit wrap, successive outgoing messages carry strictly increasing seq numbers, the first one localSeq+1. */
  lemma {:induction false} OutgoingSeqsIncrease(localSeq: u32, n: nat)
    requires localSeq + n < U32_MODULUS
    ensures forall i :: 0 <= i < n ==> OutgoingSeqs(localSeq, n)[i] == localSeq + 1 + i
    ensures forall i, j :: 0 <= i < j < n ==> OutgoingSeqs(localSeq, n)[i] < OutgoingSeqs(localSeq, n)[j]
    decreases n
  {
    if n > 0 {
      OutgoingSeqsIncrease(localSeq + 1, n - 1);
      var r := OutgoingSeqs(localSeq, n);
      assert r == [localSeq + 1] + OutgoingSeqs(localSeq + 1, n - 1);
      assert forall i :: 0 <= i < n ==> r[i] == localSeq + 1 + i by {
        forall i | 0 <= i < n ensures r[i] == localSeq + 1 + i {
          if i > 0 { assert r[i] == OutgoingSeqs(localSeq + 1, n - 1)[i - 1]; }
        }
      }
    }
  }

  /** After a local drag starts, the first messages built carry seq 1, 2, ... in the proposed epoch. */
  lemma {:induction false} StampAfterStart(s: DragState, me: string, t0: u64, t1: u64, t2: u64)
    ensures var s1 := StartDrag(s, me, t0);
            var (e1, q1, s2) := StampOutgoing(s1, t1, false);
            var (e2, q2, _) := StampOutgoing(s2, t2, true);
            e1 == e2 == s1.locallyProposedEpoch && q1 == 1 && q2 == 2
  {
  }

  // ---------------------------------------------------------------------------
  // The arbiter object

  /**
   * The checks acceptIncomingMove runs on the marker's record, which it
   * updates through a reference: every early return keeps what was written
   * before it.
   */
  method AdmitMove(s0: DragState, m: MoveMsg, now: u64) returns (accepted: bool, s: DragState)
    requires m.dragEpoch.Some?
    ensures accepted == AcceptMoveStep(s0, m, now).0 && s == AcceptMoveStep(s0, m, now).1
  {
    s := s0;
    var e := m.dragEpoch.value;
    if e < s.epoch { return false, s; }
    if e > s.epoch {
      s := AdoptEpoch(s, e, m.fromPeer, now);
    } else {
      if s.closed { return false, s; }
      if s.ownerPeerId != m.fromPeer {
        if !OwnerWins(m.fromPeer, s.ownerPeerId) { return false, s; }
        s := s.(ownerPeerId := m.fromPeer);
        if s.locallyDragging { s := s.(locallyDragging := false, localSeq := 0); }
      }
    }
    if m.seqNo.Some? && m.seqNo.value <= s.lastSeq { return false, s; }
    if m.seqNo.Some? { s := s.(lastSeq := m.seqNo.value); }
    if s.locallyDragging { return false, s; }
    s := s.(lastMoveRxMs := now);
    s := s.(lastActivityMs := s.lastMoveRxMs);
    accepted := true;
  }

  class EpochArbiter {
    const cfg: Config
    var st: map<u64, DragState>

    constructor (cfg: Config)
      ensures this.cfg == cfg && st == map[]
    {
      this.cfg := cfg;
      st := map[];
    }

    method OnLocalDragStart(markerId: u64, myPeerId: string, now: u64)
      modifies this
      ensures st == old(st)[markerId := StartDrag(Get(old(st), markerId), myPeerId, now)]
    {
      var s := Get(st, markerId);
      s := s.(locallyDragging := true);
      s := s.(locallyProposedEpoch := if s.closed then AddU32(s.epoch, 1) else s.epoch);
      s := s.(localSeq := 0, ownerPeerId := myPeerId, epochOpenedMs := now);
      s := s.(lastActivityMs := s.epochOpenedMs, closed := false);
      if s.locallyProposedEpoch > s.epoch {
        s := s.(epoch := s.locallyProposedEpoch);
      }
      st := st[markerId := s];
    }

    method ShouldSendMoveNow(markerId: u64, now: u64) returns (send: bool)
      modifies this
      ensures send <==> SubU64(now, Get(old(st), markerId).lastMoveTxMs) >= cfg.sendMoveMinPeriodMs
      ensures st == old(st)[markerId := ThrottleMove(Get(old(st), markerId), now, cfg.sendMoveMinPeriodMs).1]
    {
      var s := Get(st, markerId);
      send := false;
      if SubU64(now, s.lastMoveTxMs) >= cfg.sendMoveMinPeriodMs {
        s := s.(lastMoveTxMs := now);
        send := true;
      }
      st := st[markerId := s];
    }

    method BuildOutgoingMove(boardId: u64, markerId: u64, pos: Pos, myPeerId: string, role: Role, now: u64)
      returns (m: MoveMsg)
      modifies this
      ensures var (epoch, seqNo, s) := StampOutgoing(Get(old(st), markerId), now, false);
              m == MoveMsg(boardId, markerId, pos, true, myPeerId, role, Some(epoch), Some(seqNo), Some(now))
              && st == old(st)[markerId := s]
    {
      var s := Get(st, markerId);
      s := s.(localSeq := AddU32(s.localSeq, 1));
      m := MoveMsg(boardId, markerId, pos, true, myPeerId, role, Some(s.locallyProposedEpoch), Some(s.localSeq), Some(now));
      s := s.(lastActivityMs := now);
      st := st[markerId := s];
    }

    method BuildOutgoingFinal(boardId: u64, markerId: u64, finalPos: Option<Pos>, myPeerId: string, role: Role, now: u64)
      returns (m: FinalMsg)
      modifies this
      ensures var (epoch, seqNo, s) := StampOutgoing(Get(old(st), markerId), now, true);
              m == FinalMsg(boardId, markerId, finalPos, false, myPeerId, role, Some(epoch), Some(seqNo), Some(now))
              && st == old(st)[markerId := s]
    {
      var s := Get(st, markerId);
      s := s.(localSeq := AddU32(s.localSeq, 1));
      m := FinalMsg(boardId, markerId, finalPos, false, myPeerId, role, Some(s.locallyProposedEpoch), Some(s.localSeq), Some(now));
      s := s.(locallyDragging := false, lastActivityMs := now);
      st := st[markerId := s];
    }

    method AcceptIncomingMove(m: MoveMsg, now: u64) returns (accepted: bool)
      modifies this
      ensures DropsMoveEarly(cfg, m, now) ==> !accepted && st == old(st)
      ensures !DropsMoveEarly(cfg, m, now) ==>
                var r := AcceptMoveStep(Get(old(st), m.markerId), m, now);
                accepted == r.0 && st == old(st)[m.markerId := r.1]
    {
      if m.dragEpoch.None? { return false; }
      if cfg.dropOlderThanMs != 0 && m.tsMs.Some? && SubU64(now, m.tsMs.value) > cfg.dropOlderThanMs {
        return false;
      }
      var s := Get(st, m.markerId);
      accepted, s := AdmitMove(s, m, now);
      st := st[m.markerId := s];
    }

    method AcceptIncomingFinal(m: FinalMsg, now: u64) returns (accepted: bool)
      modifies this
      ensures m.dragEpoch.None? ==> !accepted && st == old(st)
      ensures m.dragEpoch.Some? ==>
                var r := AcceptFinalStep(Get(old(st), m.markerId), m, now);
                accepted == r.0 && st == old(st)[m.markerId := r.1]
    {
      if m.dragEpoch.None? { return false; }
      var s := Get(st, m.markerId);
      st := st[m.markerId := s];
      var e := m.dragEpoch.value;
      if e < s.epoch { return false; }
      if e > s.epoch {
        s := AdoptEpoch(s, e, m.fromPeer, now);
      } else {
        if s.closed { return false; }
        if s.ownerPeerId != m.fromPeer {
          if !OwnerWins(m.fromPeer, s.ownerPeerId) { return false; }
          s := s.(ownerPeerId := m.fromPeer);
          if s.locallyDragging { s := s.(locallyDragging := false, localSeq := 0); }
        }
        st := st[m.markerId := s];
        if m.seqNo.Some? && m.seqNo.value < s.lastSeq { return false; }
        if m.seqNo.Some? && m.seqNo.value >= s.lastSeq { s := s.(lastSeq := m.seqNo.value); }
      }
      s := s.(closed := true);
      s := s.(lastFinalTsMs := if m.tsMs.Some? then m.tsMs.value else now);
      s := s.(lastActivityMs := s.lastFinalTsMs, locallyDragging := false, localSeq := 0);
      st := st[m.markerId := s];
      return true;
    }

    method ForceClose(markerId: u64, now: u64)
      modifies this
      ensures markerId in old(st) ==> st == old(st)[markerId := ForceCloseStep(old(st)[markerId], now)]
      ensures markerId !in old(st) ==> st == old(st)
    {
      if markerId in st {
        var s := st[markerId];
        s := s.(closed := true, locallyDragging := false, localSeq := 0, lastActivityMs := now);
        st := st[markerId := s];
      }
    }

    /** pollWatchdogs: report-only events for open drags that are idle or running too long. */
    method PollWatchdogs(now: u64) returns (out: seq<WatchdogEvent>)
      ensures forall ev :: ev in out <==> ev in WatchdogEvents(cfg, st, now)
      ensures forall i, j :: 0 <= i < j < |out| ==> out[i] != out[j]
    {
      out := [];
      var todo := st.Keys;
      while todo != {}
        invariant todo <= st.Keys
        invariant forall ev :: ev in out <==> ev.markerId in st && ev.markerId !in todo && ev in MarkerEvents(cfg, ev.markerId, st[ev.markerId], now)
        invariant forall i, j :: 0 <= i < j < |out| ==> out[i] != out[j]
        decreases |todo|
      {
        var id :| id in todo;
        var s := st[id];
        ghost var before := out;
        if !s.closed {
          if IsIdle(cfg, s, now) {
            out := out + [WatchdogEvent(id, Inactivity, s.epoch, s.ownerPeerId)];
          }
          if SubU64(now, s.epochOpenedMs) > cfg.dragMaxDurationMs {
            out := out + [WatchdogEvent(id, MaxDuration, s.epoch, s.ownerPeerId)];
          }
        }
        assert out == before + MarkerEvents(cfg, id, s, now);
        AppendDistinct(before, MarkerEvents(cfg, id, s, now), id);
        todo := todo - {id};
      }
      forall ev
        ensures ev in out <==> ev in WatchdogEvents(cfg, st, now)
      {
        WatchdogEventsAre(cfg, st, now, ev);
      }
    }

    /** onPeerDisconnectedSuggest: one event per open drag owned by the departed peer. */
    method OnPeerDisconnectedSuggest(peerId: string) returns (out: seq<WatchdogEvent>)
      ensures forall ev :: ev in out <==>
                ev.markerId in st && !st[ev.markerId].closed && st[ev.markerId].ownerPeerId == peerId
                && ev == WatchdogEvent(ev.markerId, OwnerDisconnected, st[ev.markerId].epoch, peerId)
      ensures forall i, j :: 0 <= i < j < |out| ==> out[i].markerId != out[j].markerId
    {
      out := [];
      var todo := st.Keys;
      while todo != {}
        invariant todo <= st.Keys
        invariant forall ev :: ev in out <==>
                    ev.markerId in st && ev.markerId !in todo && !st[ev.markerId].closed
                    && st[ev.markerId].ownerPeerId == peerId
                    && ev == WatchdogEvent(ev.markerId, OwnerDisconnected, st[ev.markerId].epoch, peerId)
        invariant forall i, j :: 0 <= i < j < |out| ==> out[i].markerId != out[j].markerId
        decreases |todo|
      {
        var id :| id in todo;
        var s := st[id];
        if !s.closed && s.ownerPeerId == peerId {
          out := out + [WatchdogEvent(id, OwnerDisconnected, s.epoch, s.ownerPeerId)];
        }
        todo := todo - {id};
      }
    }

    function IsLocallyDragging(markerId: u64): (b: bool)
      reads this
      ensures b ==> markerId in st
      ensures markerId in st ==> b == st[markerId].locallyDragging
    {
      markerId in st && st[markerId].locallyDragging
    }

    function CurrentEpoch(markerId: u64): (e: u32)
      reads this
      ensures e == EpochOf(st, markerId)
      ensures markerId !in st ==> e == 0
    {
      if markerId in st then st[markerId].epoch else 0
    }

    function CurrentOwner(markerId: u64): (owner: string)
      reads this
      ensures markerId !in st ==> owner == ""
      ensures markerId in st ==> owner == st[markerId].ownerPeerId
    {
      if markerId in st then st[markerId].ownerPeerId else ""
    }
  }

  /** An open drag with neither a received move nor any activity within the inactivity timeout. */
  predicate IsIdle(cfg: Config, s: DragState, now: u64)
  {
    SubU64(now, s.lastMoveRxMs) > cfg.dragInactivityTimeoutMs
    && SubU64(now, s.lastActivityMs) > cfg.dragInactivityTimeoutMs
  }

  /** The events pollWatchdogs reports for one marker, in the order it reports them. */
  function MarkerEvents(cfg: Config, id: u64, s: DragState, now: u64): (r: seq<WatchdogEvent>)
    ensures forall ev :: ev in r ==> ev.markerId == id
    ensures forall i, j :: 0 <= i < j < |r| ==> r[i] != r[j]
  {
    if s.closed then []
    else
      (if IsIdle(cfg, s, now) then [WatchdogEvent(id, Inactivity, s.epoch, s.ownerPeerId)] else [])
      + (if SubU64(now, s.epochOpenedMs) > cfg.dragMaxDurationMs then [WatchdogEvent(id, MaxDuration, s.epoch, s.ownerPeerId)] else [])
  }

  /** Appending the events of a marker not reported yet keeps the events distinct. */
  lemma {:induction false} AppendDistinct(out: seq<WatchdogEvent>, more: seq<WatchdogEvent>, id: u64)
    requires forall i, j :: 0 <= i < j < |out| ==> out[i] != out[j]
    requires forall i, j :: 0 <= i < j < |more| ==> more[i] != more[j]
    requires forall ev :: ev in out ==> ev.markerId != id
    requires forall ev :: ev in more ==> ev.markerId == id
    ensures forall i, j :: 0 <= i < j < |out + more| ==> (out + more)[i] != (out + more)[j]
  {
    forall i, j | 0 <= i < j < |out + more|
      ensures (out + more)[i] != (out + more)[j]
    {
      if j >= |out| && i < |out| {
        assert (out + more)[i] in out && (out + more)[j] in more;
      }
    }
  }

  /** The set of watchdog events is the union of every marker's events. */
  lemma {:induction false} WatchdogEventsAre(cfg: Config, st: map<u64, DragState>, now: u64, ev: WatchdogEvent)
    ensures ev in WatchdogEvents(cfg, st, now) <==> ev.markerId in st && ev in MarkerEvents(cfg, ev.markerId, st[ev.markerId], now)
  {
  }

  /** The events pollWatchdogs reports, as a set. */
  ghost function WatchdogEvents(cfg: Config, st: map<u64, DragState>, now: u64): set<WatchdogEvent>
  {
    (set id | id in st && !st[id].closed && IsIdle(cfg, st[id], now)
       :: WatchdogEvent(id, Inactivity, st[id].epoch, st[id].ownerPeerId))
    + (set id | id in st && !st[id].closed && SubU64(now, st[id].epochOpenedMs) > cfg.dragMaxDurationMs
       :: WatchdogEvent(id, MaxDuration, st[id].epoch, st[id].ownerPeerId))
  }
}
