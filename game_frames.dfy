/**
 * The frames of the game data channel (src/network/NetworkManager.cpp):
 * the build*Frame functions, each a DCType tag byte followed by fields in
 * the Serializer's encodings, and the chunk loop of sendBoard/sendMarker
 * that cuts an image into image-chunk frames.
 *
 * The numeric DCType values are declared outside this model; they are the
 * `Tags` parameter, and the dispatch in the decoder needs them pairwise
 * distinct (a C++ switch with two equal case labels does not compile).
 */
module GameFrames {
  import opened CTypes
  import opened Serializer

  /** The DCType tag bytes of the frames the game channel carries. */
  datatype Tags = Tags(gameTable: byte, board: byte, markerCreate: byte, fog: byte,
                       imageChunk: byte, commitBoard: byte, commitMarker: byte)

  predicate Distinct(t: Tags)
  {
    && t.gameTable != t.board && t.gameTable != t.markerCreate && t.gameTable != t.fog
    && t.gameTable != t.imageChunk && t.gameTable != t.commitBoard && t.gameTable != t.commitMarker
    && t.board != t.markerCreate && t.board != t.fog && t.board != t.imageChunk
    && t.board != t.commitBoard && t.board != t.commitMarker
    && t.markerCreate != t.fog && t.markerCreate != t.imageChunk
    && t.markerCreate != t.commitBoard && t.markerCreate != t.commitMarker
    && t.fog != t.imageChunk && t.fog != t.commitBoard && t.fog != t.commitMarker
    && t.imageChunk != t.commitBoard && t.imageChunk != t.commitMarker
    && t.commitBoard != t.commitMarker
  }

  /** ImageOwnerKind as the chunk frames carry it: 0 for a board, 1 for a marker. */
  const OwnerBoard: byte := 0
  const OwnerMarker: byte := 1

  /** msg::BoardMeta: what a board meta frame carries besides the image size. */
  datatype BoardMeta = BoardMeta(boardId: u64, boardName: CString, pan: Panning, grid: Grid, size: Size)

  /** msg::MarkerMeta: what a marker meta frame carries besides the image size. */
  datatype MarkerMeta = MarkerMeta(boardId: u64, markerId: u64, name: CString, pos: Position,
                                   size: Size, vis: Visibility, mov: Moving)

  /** The components buildSnapshotBoardFrame reads off a board entity, its grid fields included. */
  datatype BoardView = BoardView(id: u64, boardName: CString, pan: Panning, gridOffset: Vec2, cellSize: F32,
                                 isHex: bool, snapToGrid: bool, visible: bool, opacity: F32, size: Size)

  /** The components buildCreateMarkerFrame and buildFogCreateFrame read off an entity. */
  datatype MarkerView = MarkerView(id: u64, pos: Position, size: Size, vis: Visibility, mov: Moving)
  datatype FogView = FogView(id: u64, pos: Position, size: Size, vis: Visibility)

  function Min(a: nat, b: nat): (r: nat)
    ensures r <= a && r <= b && (r == a || r == b)
  {
    if a <= b then a else b
  }

  // ---------------------------------------------------------------------------
  // Frame builders

  /** buildSnapshotGameTableFrame: tag, table id, table name. */
  function GameTableFrame(tags: Tags, tableId: u64, name: CString): (r: seq<byte>)
    ensures |r| == 13 + |name| && r[0] == tags.gameTable
  {
    [tags.gameTable] + U64Bytes(tableId) + StringBytes(name)
  }

  /**
   * buildSnapshotBoardFrame as written: after the panning flag it writes the
   * grid as offset, cell size, hex, snap, visible and opacity (19 bytes),
   * then width, height and the image size.
   */
  function BoardFrameAsWritten(tags: Tags, v: BoardView, total: u64): (r: seq<byte>)
    ensures |r| == 49 + |v.boardName| && r[0] == tags.board
  {
    [tags.board] + U64Bytes(v.id) + StringBytes(v.boardName)
      + (BoolBytes(v.pan.isPanning)
         + Vec2Bytes(v.gridOffset) + FloatBytes(v.cellSize) + BoolBytes(v.isHex) + BoolBytes(v.snapToGrid)
         + BoolBytes(v.visible) + FloatBytes(v.opacity)
         + FloatBytes(v.size.width) + FloatBytes(v.size.height)
         + U64Bytes(total))
  }

  /** The board meta frame laid out as handleBoardMeta reads it: the grid in serializeGrid's 18 bytes. */
  function BoardFrame(tags: Tags, meta: BoardMeta, total: u64): (r: seq<byte>)
    ensures |r| == 48 + |meta.boardName| && r[0] == tags.board
  {
    [tags.board] + U64Bytes(meta.boardId) + StringBytes(meta.boardName) + PanningBytes(meta.pan)
      + GridBytes(meta.grid) + SizeBytes(meta.size) + U64Bytes(total)
  }

  /** std::to_string of an id, as std::string characters. */
  function IdText(n: u64): (r: CString)
    ensures |r| >= 1 && r == DecimalString(n)
  {
    var d := DecimalString(n);
    seq(|d|, k requires 0 <= k < |d| => assert IsDigit(d[k]); d[k] as CChar)
  }

  /** The name buildCreateMarkerFrame sends: "marker_" followed by the marker id. */
  function MarkerName(markerId: u64): (r: CString)
    ensures "marker_" <= r && r[7..] == DecimalString(markerId)
  {
    "marker_" + IdText(markerId)
  }

  /** buildCreateMarkerFrame: tag, board id, marker id, name, position, size, visibility, moving, image size. */
  function MarkerFrame(tags: Tags, boardId: u64, v: MarkerView, total: u64): (r: seq<byte>)
    ensures |r| == 47 + |MarkerName(v.id)| && r[0] == tags.markerCreate
  {
    [tags.markerCreate] + U64Bytes(boardId) + U64Bytes(v.id) + StringBytes(MarkerName(v.id))
      + PositionBytes(v.pos) + SizeBytes(v.size) + VisibilityBytes(v.vis) + MovingBytes(v.mov)
      + U64Bytes(total)
  }

  /** buildFogCreateFrame: tag, board id, fog id, position, size, visibility. */
  function FogFrame(tags: Tags, boardId: u64, v: FogView): (r: seq<byte>)
    ensures |r| == 34 && r[0] == tags.fog
  {
    [tags.fog] + U64Bytes(boardId) + U64Bytes(v.id) + PositionBytes(v.pos) + SizeBytes(v.size)
      + VisibilityBytes(v.vis)
  }

  /** buildImageChunkFrame: tag, owner kind, id, offset, the length as an int, then exactly the data. */
  function ChunkFrame(tags: Tags, ownerKind: byte, id: u64, offset: u64, data: seq<byte>): (r: seq<byte>)
    ensures |r| == 22 + |data| && r[0] == tags.imageChunk && r[1] == ownerKind
    ensures r[22..] == data
  {
    [tags.imageChunk, ownerKind] + U64Bytes(id) + U64Bytes(offset) + IntBytes(CastToInt(|data|)) + data
  }

  /** buildCommitBoardFrame: tag, board id. */
  function CommitBoardFrame(tags: Tags, boardId: u64): (r: seq<byte>)
    ensures |r| == 9 && r[0] == tags.commitBoard
  {
    [tags.commitBoard] + U64Bytes(boardId)
  }

  /** buildCommitMarkerFrame: tag, board id, marker id. */
  function CommitMarkerFrame(tags: Tags, boardId: u64, markerId: u64): (r: seq<byte>)
    ensures |r| == 17 && r[0] == tags.commitMarker
  {
    [tags.commitMarker] + U64Bytes(boardId) + U64Bytes(markerId)
  }

  // ---------------------------------------------------------------------------
  // Cutting an image into chunks

  /** The i-th piece of the image: the bytes from i * chunk up to (i + 1) * chunk or the end. */
  function ChunkData(img: seq<byte>, chunk: nat, i: nat): (r: seq<byte>)
    requires 0 < chunk && i * chunk < |img|
    ensures 0 < |r| <= chunk && i * chunk + |r| == Min((i + 1) * chunk, |img|)
  {
    img[i * chunk..Min((i + 1) * chunk, |img|)]
  }

  /** `f` is the chunk frame of the i-th piece of `img`, sent at offset i * chunk. */
  ghost predicate IsChunkFrame(f: seq<byte>, tags: Tags, ownerKind: byte, id: u64, img: seq<byte>, chunk: nat, i: nat)
  {
    0 < chunk && i * chunk < |img| && i * chunk < U64_MODULUS
    && f == ChunkFrame(tags, ownerKind, id, i * chunk, ChunkData(img, chunk, i))
  }

  /**
   * `frames` are the chunk frames of `img`: the i-th carries the i-th piece
   * at offset i * chunk, and there are just enough of them to cover the
   * image.
   */
  ghost predicate ChunksOf(frames: seq<seq<byte>>, tags: Tags, ownerKind: byte, id: u64, img: seq<byte>, chunk: nat)
  {
    && 0 < chunk
    && |frames| * chunk >= |img|
    && (|frames| == 0 || (|frames| - 1) * chunk < |img|)
    && forall i :: 0 <= i < |frames| ==> IsChunkFrame(frames[i], tags, ownerKind, id, img, chunk, i)
  }

  /**
   * The chunk loop of sendBoard and sendMarker: while off is below the image
   * size, send min(kChunk, size - off) bytes at off, then advance off by
   * that much. kChunk is defined outside this model and is `chunk` here.
   */
  method ImageChunkFrames(tags: Tags, ownerKind: byte, id: u64, img: seq<byte>, chunk: nat)
    returns (frames: seq<seq<byte>>)
    requires 0 < chunk < 0x8000_0000 && |img| < U64_MODULUS
    ensures ChunksOf(frames, tags, ownerKind, id, img, chunk)
    ensures |img| == 0 <==> frames == []
  {
    frames := [];
    var off: nat := 0;
    while off < |img|
      invariant off == Min(|frames| * chunk, |img|)
      invariant |frames| == 0 || (|frames| - 1) * chunk < |img|
      invariant (frames == [] ==> off == 0) && (|img| == 0 ==> frames == [])
      invariant forall i :: 0 <= i < |frames| ==> IsChunkFrame(frames[i], tags, ownerKind, id, img, chunk, i)
      decreases |img| - off
    {
      var k := |frames|;
      var n := Min(chunk, |img| - off);
      NextChunk(k, chunk, |img|, off);
      var f := ChunkFrame(tags, ownerKind, id, off, img[off..off + n]);
      assert IsChunkFrame(f, tags, ownerKind, id, img, chunk, k);
      ChunkFramesExtend(frames, f, tags, ownerKind, id, img, chunk);
      frames := frames + [f];
      off := off + n;
    }
  }

  /** Appending the next piece's frame keeps every frame the frame of its piece. */
  lemma {:induction false} ChunkFramesExtend(frames: seq<seq<byte>>, f: seq<byte>, tags: Tags, ownerKind: byte, id: u64, img: seq<byte>, chunk: nat)
    requires forall i :: 0 <= i < |frames| ==> IsChunkFrame(frames[i], tags, ownerKind, id, img, chunk, i)
    requires IsChunkFrame(f, tags, ownerKind, id, img, chunk, |frames|)
    ensures forall i :: 0 <= i < |frames| + 1 ==> IsChunkFrame((frames + [f])[i], tags, ownerKind, id, img, chunk, i)
  {
    forall i | 0 <= i < |frames| + 1
      ensures IsChunkFrame((frames + [f])[i], tags, ownerKind, id, img, chunk, i)
    {
      if i < |frames| {
        assert (frames + [f])[i] == frames[i];
      }
    }
  }

  /** One step of the chunk loop: the piece at off = k * chunk is the k-th and ends where the (k + 1)-th begins. */
  lemma {:induction false} NextChunk(k: nat, chunk: nat, size: nat, off: nat)
    requires 0 < chunk && off == Min(k * chunk, size) && off < size
    ensures off == k * chunk && (k + 1) * chunk == off + chunk
    ensures off + Min(chunk, size - off) == Min((k + 1) * chunk, size)
  {
  }

  /** sendMarker: the meta frame, the chunks of the image (owner kind 1), then the commit, in that order. */
  method SendMarker(tags: Tags, boardId: u64, marker: MarkerView, img: seq<byte>, chunk: nat)
    returns (frames: seq<seq<byte>>)
    requires 0 < chunk < 0x8000_0000 && |img| < U64_MODULUS
    ensures |frames| >= 2
    ensures frames[0] == MarkerFrame(tags, boardId, marker, |img|)
    ensures ChunksOf(frames[1..|frames| - 1], tags, OwnerMarker, marker.id, img, chunk)
    ensures frames[|frames| - 1] == CommitMarkerFrame(tags, boardId, marker.id)
  {
    var chunks := ImageChunkFrames(tags, OwnerMarker, marker.id, img, chunk);
    frames := [MarkerFrame(tags, boardId, marker, |img|)] + chunks + [CommitMarkerFrame(tags, boardId, marker.id)];
    assert frames[1..|frames| - 1] == chunks;
  }

  /**
   * sendBoard: the meta frame buildSnapshotBoardFrame builds, the chunks of
   * the image (owner kind 0), then the commit, in that order.
   */
  method SendBoard(tags: Tags, board: BoardView, img: seq<byte>, chunk: nat)
    returns (frames: seq<seq<byte>>)
    requires 0 < chunk < 0x8000_0000 && |img| < U64_MODULUS
    ensures |frames| >= 2
    ensures frames[0] == BoardFrameAsWritten(tags, board, |img|)
    ensures ChunksOf(frames[1..|frames| - 1], tags, OwnerBoard, board.id, img, chunk)
    ensures frames[|frames| - 1] == CommitBoardFrame(tags, board.id)
  {
    var chunks := ImageChunkFrames(tags, OwnerBoard, board.id, img, chunk);
    frames := [BoardFrameAsWritten(tags, board, |img|)] + chunks + [CommitBoardFrame(tags, board.id)];
    assert frames[1..|frames| - 1] == chunks;
  }

  /** sendBoard as intended: the same frames with the meta frame laid out as handleBoardMeta reads it. */
  method SendBoardIntended(tags: Tags, board: BoardMeta, img: seq<byte>, chunk: nat)
    returns (frames: seq<seq<byte>>)
    requires 0 < chunk < 0x8000_0000 && |img| < U64_MODULUS
    ensures |frames| >= 2
    ensures frames[0] == BoardFrame(tags, board, |img|)
    ensures ChunksOf(frames[1..|frames| - 1], tags, OwnerBoard, board.boardId, img, chunk)
    ensures frames[|frames| - 1] == CommitBoardFrame(tags, board.boardId)
  {
    var chunks := ImageChunkFrames(tags, OwnerBoard, board.boardId, img, chunk);
    frames := [BoardFrame(tags, board, |img|)] + chunks + [CommitBoardFrame(tags, board.boardId)];
    assert frames[1..|frames| - 1] == chunks;
  }
}
