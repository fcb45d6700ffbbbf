/**
 * The receiving side of the game data channel (src/network/NetworkManager.cpp):
 * decodeRawGameBuffer and the handle* functions it dispatches to by tag.
 * Meta frames (re)initialise a pending image in imagesRx_, chunk frames copy
 * bytes into its buffer, and commit frames hand the finished image to the
 * inboundGame_ queue as a ready message.
 *
 * The source reads without bounds checks; a read past the end of the frame
 * is undefined there. Here every handler yields None in that case, and
 * decoding stops. PendingImage::isComplete is defined outside this model;
 * it is the `complete` parameter, applied to (received, total).
 */
module ImageReceiver {
  import opened CTypes
  import opened Wrappers
  import opened Serializer
  import opened GameFrames

  /** msg::PendingImage: an image being reassembled, keyed by its board or marker id. */
  datatype PendingImage = PendingImage(kind: byte, id: u64, boardId: u64,
                                       boardMeta: Option<BoardMeta>, markerMeta: Option<MarkerMeta>,
                                       total: u64, received: u64, buf: seq<byte>)

  /** msg::ReadyMessage, by DCType. */
  datatype ReadyMessage =
    | GameTableReady(tableId: u64, name: CString)
    | FogReady(boardId: u64, fogId: u64, pos: Position, size: Size, vis: Visibility)
    | BoardReady(boardId: u64, boardMeta: BoardMeta, bytes: seq<byte>)
    | MarkerReady(boardId: u64, markerMeta: MarkerMeta, bytes: seq<byte>)

  /** The receiver's state: the imagesRx_ table and the inboundGame_ queue. */
  datatype Rx = Rx(images: map<u64, PendingImage>, inbound: seq<ReadyMessage>)

  /** A record imagesRx_[id] creates: no meta of either kind yet; every other field is set by the meta handler. */
  const Unset: PendingImage := PendingImage(0, 0, 0, None, None, 0, 0, [])

  /** Every pending buffer holds exactly `total` bytes (the resize in the meta handlers). */
  ghost predicate Sized(images: map<u64, PendingImage>)
  {
    forall id :: id in images ==> |images[id].buf| == images[id].total
  }

  function Zeros(n: nat): (r: seq<byte>)
    ensures |r| == n && forall k :: 0 <= k < n ==> r[k] == 0
  {
    seq(n, _ => 0)
  }

  /** memcpy of `data` into `buf` at `at`: those bytes replaced, the rest kept. */
  function Spliced(buf: seq<byte>, at: nat, data: seq<byte>): (r: seq<byte>)
    requires at + |data| <= |buf|
    ensures |r| == |buf| && r[at..at + |data|] == data
    ensures forall k :: 0 <= k < |buf| && !(at <= k < at + |data|) ==> r[k] == buf[k]
  {
    buf[..at] + data + buf[at + |data|..]
  }

  // ---------------------------------------------------------------------------
  // Reading the fields of each frame

  /** handleBoardMeta's reads: board id, name, panning, grid, size, image size. */
  function ReadBoardMeta(b: seq<byte>, off: nat): (r: Option<(BoardMeta, u64, nat)>)
    ensures r.Some? ==> off < r.value.2 <= |b|
  {
    match TryU64(b, off)
    case None => None
    case Some((id, o1)) =>
      match TryString(b, o1)
      case None => None
      case Some((name, o2)) =>
        if o2 + 35 > |b| then None
        else
          var (pan, o3) := ReadPanning(b, o2);
          var (grid, o4) := ReadGrid(b, o3);
          var (size, o5) := ReadSize(b, o4);
          var (total, o6) := ReadU64(b, o5);
          Some((BoardMeta(id, name, pan, grid, size), total, o6))
  }

  /** handleMarkerMeta's reads: board id, marker id, name, position, size, visibility, moving, image size. */
  function ReadMarkerMeta(b: seq<byte>, off: nat): (r: Option<(MarkerMeta, u64, nat)>)
    ensures r.Some? ==> off < r.value.2 <= |b|
  {
    match TryU64(b, off)
    case None => None
    case Some((boardId, o1)) =>
      match TryU64(b, o1)
      case None => None
      case Some((markerId, o2)) =>
        match TryString(b, o2)
        case None => None
        case Some((name, o3)) =>
          if o3 + 26 > |b| then None
          else
            var (pos, o4) := ReadPosition(b, o3);
            var (size, o5) := ReadSize(b, o4);
            var (vis, o6) := ReadVisibility(b, o5);
            var (mov, o7) := ReadMoving(b, o6);
            var (total, o8) := ReadU64(b, o7);
            Some((MarkerMeta(boardId, markerId, name, pos, size, vis, mov), total, o8))
  }

  /** handleFogCreate's reads: board id, fog id, position, size, visibility. */
  function ReadFogCreate(b: seq<byte>, off: nat): (r: Option<(ReadyMessage, nat)>)
    ensures r.Some? ==> off < r.value.1 <= |b| && r.value.0.FogReady?
  {
    if off + 33 > |b| then None
    else
      var (boardId, o1) := ReadU64(b, off);
      var (fogId, o2) := ReadU64(b, o1);
      var (pos, o3) := ReadPosition(b, o2);
      var (size, o4) := ReadSize(b, o3);
      var (vis, o5) := ReadVisibility(b, o4);
      Some((FogReady(boardId, fogId, pos, size, vis), o5))
  }

  /** The header of an image chunk: owner kind, id, offset, length (an int), and where the data starts. */
  datatype ChunkHeader = ChunkHeader(kind: byte, id: u64, offset: u64, len: int32, data: nat)

  function ReadChunkHeader(b: seq<byte>, off: nat): (r: Option<ChunkHeader>)
    ensures r.Some? <==> off + 21 <= |b|
    ensures r.Some? ==> r.value.data == off + 21 && r.value.kind == b[off]
  {
    if off + 21 > |b| then None
    else
      var (id, o1) := ReadU64(b, off + 1);
      var (offset, o2) := ReadU64(b, o1);
      var (len, o3) := ReadInt(b, o2);
      Some(ChunkHeader(b[off], id, offset, len, o3))
  }

  // ---------------------------------------------------------------------------
  // The handlers: the new state and where the next frame starts, None where
  // the source would read past the end

  function HandleGameTableSnapshot(rx: Rx, b: seq<byte>, off: nat): (r: Option<(Rx, nat)>)
    ensures r.Some? ==> off < r.value.1 <= |b| && r.value.0.images == rx.images
    ensures r.Some? ==> |r.value.0.inbound| == |rx.inbound| + 1 && rx.inbound <= r.value.0.inbound
  {
    match TryU64(b, off)
    case None => None
    case Some((id, o1)) =>
      match TryString(b, o1)
      case None => None
      case Some((name, o2)) => Some((rx.(inbound := rx.inbound + [GameTableReady(id, name)]), o2))
  }

  /**
   * handleBoardMeta: the record for the board id gets kind Board, the id,
   * the meta and the total, nothing received and a zeroed buffer of total
   * bytes; a marker meta it already had is kept.
   */
  function HandleBoardMeta(rx: Rx, b: seq<byte>, off: nat): (r: Option<(Rx, nat)>)
    requires Sized(rx.images)
    ensures r.Some? ==> off < r.value.1 <= |b| && Sized(r.value.0.images) && r.value.0.inbound == rx.inbound
  {
    match ReadBoardMeta(b, off)
    case None => None
    case Some((meta, total, next)) =>
      var prior := if meta.boardId in rx.images then rx.images[meta.boardId] else Unset;
      var p := PendingImage(OwnerBoard, meta.boardId, meta.boardId, Some(meta), prior.markerMeta, total, 0, Zeros(total));
      Some((rx.(images := rx.images[meta.boardId := p]), next))
  }

  /** handleMarkerMeta: as for a board, under the marker id, keeping a board meta the record already had. */
  function HandleMarkerMeta(rx: Rx, b: seq<byte>, off: nat): (r: Option<(Rx, nat)>)
    requires Sized(rx.images)
    ensures r.Some? ==> off < r.value.1 <= |b| && Sized(r.value.0.images) && r.value.0.inbound == rx.inbound
  {
    match ReadMarkerMeta(b, off)
    case None => None
    case Some((meta, total, next)) =>
      var prior := if meta.markerId in rx.images then rx.images[meta.markerId] else Unset;
      var p := PendingImage(OwnerMarker, meta.markerId, meta.boardId, prior.boardMeta, Some(meta), total, 0, Zeros(total));
      Some((rx.(images := rx.images[meta.markerId := p]), next))
  }

  function HandleFogCreate(rx: Rx, b: seq<byte>, off: nat): (r: Option<(Rx, nat)>)
    ensures r.Some? ==> off < r.value.1 <= |b| && r.value.0.images == rx.images
    ensures r.Some? ==> |r.value.0.inbound| == |rx.inbound| + 1 && rx.inbound <= r.value.0.inbound
  {
    match ReadFogCreate(b, off)
    case None => None
    case Some((m, next)) => Some((rx.(inbound := rx.inbound + [m]), next))
  }

  /** The bounds check a chunk must pass: a non-negative length whose end lies within the image. */
  predicate ChunkFits(offset: u64, len: int32, total: u64)
  {
    0 <= len && offset + len <= total
  }

  /**
   * handleImageChunk: a chunk with an unknown id, another owner kind, a
   * record of total 0 or bytes outside the image is dropped, and decoding
   * goes on right after its header. Otherwise its bytes are copied at its
   * offset and its length is added to received.
   */
  function HandleImageChunk(rx: Rx, b: seq<byte>, off: nat): (r: Option<(Rx, nat)>)
    requires Sized(rx.images)
    ensures r.Some? ==> off < r.value.1 <= |b| && Sized(r.value.0.images) && r.value.0.inbound == rx.inbound
    ensures r.Some? ==> r.value.0.images.Keys == rx.images.Keys
  {
    match ReadChunkHeader(b, off)
    case None => None
    case Some(h) =>
      if h.id !in rx.images then Some((rx, h.data))
      else
        var p := rx.images[h.id];
        if p.kind != h.kind || p.total == 0 || !ChunkFits(h.offset, h.len, p.total) then Some((rx, h.data))
        else if h.data + h.len > |b| then None
        else
          var p' := p.(buf := Spliced(p.buf, h.offset, b[h.data..h.data + h.len]), received := AddU64(p.received, h.len));
          Some((rx.(images := rx.images[h.id := p']), h.data + h.len))
  }

  /**
   * handleCommitBoard: for a Board record that has no image (total 0) or is
   * complete, the board's ready message (when a board meta arrived) is
   * queued with the buffer and the record is erased; otherwise nothing
   * changes.
   */
  function HandleCommitBoard(rx: Rx, b: seq<byte>, off: nat, complete: (u64, u64) -> bool): (r: Option<(Rx, nat)>)
    requires Sized(rx.images)
    ensures r.Some? ==> off < r.value.1 <= |b| && Sized(r.value.0.images) && rx.inbound <= r.value.0.inbound
  {
    match TryU64(b, off)
    case None => None
    case Some((boardId, o1)) =>
      if boardId !in rx.images || rx.images[boardId].kind != OwnerBoard then Some((rx, o1))
      else
        var p := rx.images[boardId];
        if p.total == 0 || complete(p.received, p.total) then
          var ready := if p.boardMeta.Some? then [BoardReady(boardId, p.boardMeta.value, p.buf)] else [];
          Some((Rx(rx.images - {boardId}, rx.inbound + ready), o1))
        else Some((rx, o1))
  }

  /** handleCommitMarker: as for a board, for a Marker record whose board id also matches. */
  function HandleCommitMarker(rx: Rx, b: seq<byte>, off: nat, complete: (u64, u64) -> bool): (r: Option<(Rx, nat)>)
    requires Sized(rx.images)
    ensures r.Some? ==> off < r.value.1 <= |b| && Sized(r.value.0.images) && rx.inbound <= r.value.0.inbound
  {
    match TryU64(b, off)
    case None => None
    case Some((boardId, o1)) =>
      match TryU64(b, o1)
      case None => None
      case Some((markerId, o2)) =>
        if markerId !in rx.images then Some((rx, o2))
        else
          var p := rx.images[markerId];
          if p.kind != OwnerMarker || p.boardId != boardId then Some((rx, o2))
          else if p.total == 0 || complete(p.received, p.total) then
            var ready := if p.markerMeta.Some? then [MarkerReady(boardId, p.markerMeta.value, p.buf)] else [];
            Some((Rx(rx.images - {markerId}, rx.inbound + ready), o2))
          else Some((rx, o2))
  }

  // ---------------------------------------------------------------------------
  // decodeRawGameBuffer

  /**
   * One turn of decodeRawGameBuffer's loop: the tag byte at `off` picks the
   * handler; any other tag stops the buffer (None), as does a handler that
   * would read past the end.
   */
  function Step(tags: Tags, complete: (u64, u64) -> bool, rx: Rx, b: seq<byte>, off: nat): (r: Option<(Rx, nat)>)
    requires off < |b| && Sized(rx.images)
    ensures r.Some? ==> off < r.value.1 <= |b| && Sized(r.value.0.images) && rx.inbound <= r.value.0.inbound
  {
    var tag := b[off];
    if tag == tags.gameTable then HandleGameTableSnapshot(rx, b, off + 1)
    else if tag == tags.board then HandleBoardMeta(rx, b, off + 1)
    else if tag == tags.markerCreate then HandleMarkerMeta(rx, b, off + 1)
    else if tag == tags.fog then HandleFogCreate(rx, b, off + 1)
    else if tag == tags.imageChunk then HandleImageChunk(rx, b, off + 1)
    else if tag == tags.commitBoard then HandleCommitBoard(rx, b, off + 1, complete)
    else if tag == tags.commitMarker then HandleCommitMarker(rx, b, off + 1, complete)
    else None
  }

  /** The state after decoding `b` from `off` on. */
  function DecodeFrom(tags: Tags, complete: (u64, u64) -> bool, rx: Rx, b: seq<byte>, off: nat): (r: Rx)
    requires off <= |b| && Sized(rx.images)
    ensures Sized(r.images) && rx.inbound <= r.inbound
    decreases |b| - off
  {
    if off == |b| then rx
    else
      match Step(tags, complete, rx, b, off)
      case None => rx
      case Some((rx', next)) => DecodeFrom(tags, complete, rx', b, next)
  }

  /** The receiver of one peer's game channel, in the order its messages arrive. */
  class GameReceiver {
    const tags: Tags
    const complete: (u64, u64) -> bool
    var imagesRx: map<u64, PendingImage>
    var inboundGame: seq<ReadyMessage>

    ghost predicate Valid()
      reads this
    {
      Sized(imagesRx)
    }

    function State(): (r: Rx)
      reads this
      ensures r.images == imagesRx && r.inbound == inboundGame
    {
      Rx(imagesRx, inboundGame)
    }

    constructor(tags: Tags, complete: (u64, u64) -> bool)
      ensures Valid() && this.tags == tags && this.complete == complete
      ensures imagesRx == map[] && inboundGame == []
    {
      this.tags := tags;
      this.complete := complete;
      imagesRx := map[];
      inboundGame := [];
    }

    /** decodeRawGameBuffer: frames are handled one after the other until the buffer ends or decoding stops. */
    method DecodeRawGameBuffer(b: seq<byte>)
      requires Valid()
      modifies this
      ensures Valid()
      ensures State() == DecodeFrom(tags, complete, old(State()), b, 0)
    {
      var off: nat := 0;
      while off < |b|
        invariant off <= |b| && Valid()
        invariant DecodeFrom(tags, complete, old(State()), b, 0) == DecodeFrom(tags, complete, State(), b, off)
        decreases |b| - off
      {
        var r := Step(tags, complete, State(), b, off);
        if r.None? {
          return;
        }
        imagesRx, inboundGame := r.value.0.images, r.value.0.inbound;
        off := r.value.1;
      }
    }
  }
}
