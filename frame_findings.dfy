/**
 * Two places where the game-frame code of src/network/NetworkManager.cpp
 * does not do what its reader and writer evidently intend, each modelled as
 * written next to the corrected definition the rest of the model uses.
 *
 * 1. buildSnapshotBoardFrame writes the grid as offset, cell size and three
 *    flags plus opacity (19 bytes) while handleBoardMeta reads
 *    deserializeGrid's 18 bytes, so the image size is read one byte early
 *    and the frame's last byte is left over.
 * 2. handleImageChunk bounds the chunk with off64 + uint64(len) <= total in
 *    64-bit unsigned arithmetic, which wraps: a huge offset or a negative
 *    length passes the check and memcpy writes outside the buffer.
 */
module FrameFindings {
  import opened CTypes
  import opened Wrappers
  import opened Serializer
  import opened GameFrames
  import opened ImageReceiver
  import opened ImageDelivery

  // ---------------------------------------------------------------------------
  // 1. The board meta frame as written

  /** The bytes buildSnapshotBoardFrame writes after the board name. */
  function BoardTailAsWritten(v: BoardView, total: u64): (r: seq<byte>)
    ensures |r| == 36
    ensures r[27..36] == FloatBytes(v.size.height)[3..] + U64Bytes(total)
  {
    var front := BoolBytes(v.pan.isPanning)
      + Vec2Bytes(v.gridOffset) + FloatBytes(v.cellSize) + BoolBytes(v.isHex) + BoolBytes(v.snapToGrid)
      + BoolBytes(v.visible) + FloatBytes(v.opacity)
      + FloatBytes(v.size.width);
    assert |front| == 24;
    var r := front + FloatBytes(v.size.height) + U64Bytes(total);
    assert r[27..36] == FloatBytes(v.size.height)[3..] + U64Bytes(total);
    r
  }

  /**
   * handleBoardMeta on the frame buildSnapshotBoardFrame writes stops one
   * byte before its end, and the image size it reads is the little-endian
   * value of the last byte of the height followed by the first seven bytes
   * of the size; the size's eighth byte is left over.
   */
  lemma {:induction false} BoardFrameMisread(tags: Tags, v: BoardView, total: u64)
    requires |v.boardName| < 0x8000_0000
    ensures var f := BoardFrameAsWritten(tags, v, total);
      var r := ReadBoardMeta(f, 1);
      && r.Some? && r.value.2 == |f| - 1
      && r.value.1 as int == LeValue([FloatBytes(v.size.height)[3]] + U64Bytes(total)[..7])
      && f[|f| - 1] == U64Bytes(total)[7]
  {
    var tail := BoardTailAsWritten(v, total);
    var f := BoardFrameAsWritten(tags, v, total);
    BoardHeadRoundTrip([tags.board], v.id, v.boardName, tail);
    var o := 13 + |v.boardName|;
    assert f[o..] == tail;
    assert f[|f| - 9..|f| - 1] == tail[27..35];
    assert tail[27..35] == [FloatBytes(v.size.height)[3]] + U64Bytes(total)[..7];
  }

  lemma {:induction false} OneAsU64()
    ensures U64Bytes(1) == [1, 0, 0, 0, 0, 0, 0, 0]
  {
    Pow256Eight();
    assert LeBytes(0, 1) == [0];
    assert LeBytes(0, 3) == [0, 0, 0];
    assert LeBytes(0, 5) == [0, 0, 0, 0, 0];
    assert LeBytes(0, 7) == [0, 0, 0, 0, 0, 0, 0];
  }

  lemma {:induction false} ZeroAsFloat()
    ensures FloatBytes(0) == [0, 0, 0, 0]
  {
    Pow256Four();
    assert LeBytes(0, 1) == [0];
    assert LeBytes(0, 3) == [0, 0, 0];
  }

  /** The eight bytes read as the size when the height is 0.0 and the size is 1, and the byte left over. */
  lemma {:induction false} ValueOfMisread()
    ensures LeValue([FloatBytes(0)[3]] + U64Bytes(1)[..7]) == 256 && U64Bytes(1)[7] == 0
  {
    OneAsU64();
    ZeroAsFloat();
    var size := U64Bytes(1);
    assert size[..7] == [1, 0, 0, 0, 0, 0, 0];
    assert [FloatBytes(0)[3]] + size[..7] == [0, 1, 0, 0, 0, 0, 0, 0];
    LeValueOf256();
  }

  /** Little-endian, the bytes 0, 1, 0, 0, 0, 0, 0, 0 are 256. */
  lemma {:induction false} LeValueOf256()
    ensures LeValue([0, 1, 0, 0, 0, 0, 0, 0]) == 256
  {
    var s: seq<byte> := [0, 1, 0, 0, 0, 0, 0, 0];
    LeValueZeros(s[2..]);
    assert s[1..][1..] == s[2..];
  }

  lemma {:induction false} LeValueZeros(s: seq<byte>)
    requires forall i :: 0 <= i < |s| ==> s[i] == 0
    ensures LeValue(s) == 0
    decreases |s|
  {
    if s != [] {
      LeValueZeros(s[1..]);
    }
  }

  /** A board with every field zero and an image of 1 byte: the size is read as 256, and a 0 byte is left over to be read as the next tag. */
  lemma {:induction false} BoardTotalMisread(tags: Tags)
    ensures var v := BoardView(0, [], Panning(false), Vec2(0, 0), 0, false, false, false, 0, Size(0, 0));
      var f := BoardFrameAsWritten(tags, v, 1);
      && ReadBoardMeta(f, 1).Some? && ReadBoardMeta(f, 1).value.1 == 256
      && ReadBoardMeta(f, 1).value.2 == |f| - 1 && f[|f| - 1] == 0
  {
    var v := BoardView(0, [], Panning(false), Vec2(0, 0), 0, false, false, false, 0, Size(0, 0));
    BoardFrameMisread(tags, v, 1);
    ValueOfMisread();
  }

  // The corrected frame is BoardFrame (GameFrames), read back whole by
  // BoardMetaRoundTrip (ImageDelivery).

  // ---------------------------------------------------------------------------
  // 2. The chunk bounds check as written

  /** handleImageChunk's bounds check: off64 + uint64(len) <= total, both sides uint64_t. */
  predicate ChunkGuardAsWritten(offset: u64, len: int32, total: u64)
  {
    (offset + len % U64_MODULUS) % U64_MODULUS <= total
  }

  /** Every chunk that fits passes the check as written, and the two agree when nothing wraps. */
  lemma {:induction false} ChunkGuardAgrees(offset: u64, len: int32, total: u64)
    ensures ChunkFits(offset, len, total) ==> ChunkGuardAsWritten(offset, len, total)
    ensures 0 <= len && offset + len < U64_MODULUS ==> (ChunkGuardAsWritten(offset, len, total) <==> ChunkFits(offset, len, total))
  {
  }

  /**
   * handleImageChunk as written: a chunk that passes the wrapping check but
   * does not fit the buffer has memcpy write outside it, which is undefined;
   * None stands for that, as for reading past the end of the frame.
   */
  function HandleImageChunkAsWritten(rx: Rx, b: seq<byte>, off: nat): (r: Option<(Rx, nat)>)
    requires Sized(rx.images)
    ensures r.None? ==> HandleImageChunk(rx, b, off).None? || (ReadChunkHeader(b, off).Some? && ReadChunkHeader(b, off).value.id in rx.images)
  {
    match ReadChunkHeader(b, off)
    case None => None
    case Some(h) =>
      if h.id !in rx.images then Some((rx, h.data))
      else
        var p := rx.images[h.id];
        ChunkGuardAgrees(h.offset, h.len, p.total);
        if p.kind != h.kind || p.total == 0 || !ChunkGuardAsWritten(h.offset, h.len, p.total) then Some((rx, h.data))
        else if !ChunkFits(h.offset, h.len, p.total) then None
        else if h.data + h.len > |b| then None
        else
          var p' := p.(buf := Spliced(p.buf, h.offset, b[h.data..h.data + h.len]), received := AddU64(p.received, h.len));
          Some((rx.(images := rx.images[h.id := p']), h.data + h.len))
  }

  /** Wherever the code as written has a defined outcome, it is the corrected one. */
  lemma {:induction false} AsWrittenAgrees(rx: Rx, b: seq<byte>, off: nat)
    requires Sized(rx.images)
    ensures HandleImageChunkAsWritten(rx, b, off).Some? ==> HandleImageChunkAsWritten(rx, b, off) == HandleImageChunk(rx, b, off)
  {
    match ReadChunkHeader(b, off)
    case None =>
    case Some(h) =>
      if h.id in rx.images {
        var p := rx.images[h.id];
        ChunkGuardAgrees(h.offset, h.len, p.total);
      }
  }

  /**
   * A 16-byte board image and an 8-byte chunk at offset 2^64 - 8: the sum
   * wraps to 0, the check as written passes and the copy lands outside the
   * buffer, while the corrected check drops the chunk.
   */
  lemma {:induction false} ChunkGuardWraps(tags: Tags)
    ensures var rx := Rx(map[5 := PendingImage(OwnerBoard, 5, 5, None, None, 16, 0, Zeros(16))], []);
      var f := ChunkFrame(tags, OwnerBoard, 5, U64_MODULUS - 8, Zeros(8));
      && ChunkGuardAsWritten(U64_MODULUS - 8, 8, 16) && !ChunkFits(U64_MODULUS - 8, 8, 16)
      && HandleImageChunkAsWritten(rx, f, 1).None?
      && HandleImageChunk(rx, f, 1) == Some((rx, 22))
  {
    ChunkHeaderRoundTrip(tags, OwnerBoard, 5, U64_MODULUS - 8, Zeros(8));
  }

  /** A negative length passes the check as written (offset 1, length -1, total 1) and the corrected check drops it. */
  lemma {:induction false} ChunkGuardNegative()
    ensures ChunkGuardAsWritten(1, -1, 1) && !ChunkFits(1, -1, 1)
  {
  }
}
