/**
 * What the game channel delivers: every frame the builders of
 * src/network/NetworkManager.cpp produce is read back field for field by
 * the matching handler, and the frames sendMarker and sendBoard send, each
 * decoded as its own data-channel message, leave the peer with exactly one
 * ready message carrying the meta and the whole image.
 */
module ImageDelivery {
  import opened CTypes
  import opened Wrappers
  import opened Serializer
  import opened GameFrames
  import opened ImageReceiver

  function Pow10(k: nat): (p: nat)
    ensures p >= 1
  {
    if k == 0 then 1 else 10 * Pow10(k - 1)
  }

  lemma {:induction false} DecimalLength(n: nat, k: nat)
    requires 1 <= k && n < Pow10(k)
    ensures |DecimalString(n)| <= k
    decreases n
  {
    if n >= 10 {
      assert k != 1 by {
        assert Pow10(1) == 10;
      }
      DecimalLength(n / 10, k - 1);
    }
  }

  lemma {:induction false} Pow10Add(a: nat, b: nat)
    ensures Pow10(a + b) == Pow10(a) * Pow10(b)
    decreases a
  {
    if a > 0 {
      Pow10Add(a - 1, b);
    }
  }

  /** A marker name is "marker_" and at most 20 digits. */
  lemma {:induction false} MarkerNameShort(id: u64)
    ensures |MarkerName(id)| <= 27
  {
    assert Pow10(5) == 100_000;
    Pow10Add(5, 5);
    Pow10Add(10, 10);
    DecimalLength(id, 20);
  }

  lemma {:induction false} Whole(b: seq<byte>)
    ensures EncodedAt(b, 0, b)
  {
    assert b[0..|b|] == b;
  }

  // ---------------------------------------------------------------------------
  // Each frame read back by its handler

  /** A game-table frame yields one GameTableReady with the id and the name it was built from. */
  lemma {:induction false} GameTableRoundTrip(tags: Tags, rx: Rx, tableId: u64, name: CString)
    requires |name| < 0x8000_0000
    ensures var f := GameTableFrame(tags, tableId, name);
      HandleGameTableSnapshot(rx, f, 1) == Some((rx.(inbound := rx.inbound + [GameTableReady(tableId, name)]), |f|))
  {
    var f := GameTableFrame(tags, tableId, name);
    var t, a, s := [tags.gameTable], U64Bytes(tableId), StringBytes(name);
    Whole(f);
    EncodedAtSplit(f, 0, t + a, s);
    EncodedAtSplit(f, 0, t, a);
    ReadU64Inverse(f, 1, tableId);
    ReadStringInverse(f, 9, name);
  }

  /** A board meta frame is read back as the meta and the image size it was built from, up to its last byte. */
  lemma {:induction false} BoardMetaRoundTrip(tags: Tags, meta: BoardMeta, total: u64)
    requires |meta.boardName| < 0x8000_0000
    ensures var f := BoardFrame(tags, meta, total);
      ReadBoardMeta(f, 1) == Some((meta, total, |f|))
  {
    var tail := PanningBytes(meta.pan) + GridBytes(meta.grid) + SizeBytes(meta.size) + U64Bytes(total);
    BoardFrameLayout(tags, meta, total, tail);
    BoardHeadRoundTrip([tags.board], meta.boardId, meta.boardName, tail);
    var f := BoardFrame(tags, meta, total);
    BoardTailRoundTrip(f, 13 + |meta.boardName|, meta, total);
    ReadBoardMetaFromParts(f, 1, meta, total);
  }

  lemma {:induction false} BoardFrameLayout(tags: Tags, meta: BoardMeta, total: u64, tail: seq<byte>)
    requires tail == PanningBytes(meta.pan) + GridBytes(meta.grid) + SizeBytes(meta.size) + U64Bytes(total)
    ensures BoardFrame(tags, meta, total) == [tags.board] + U64Bytes(meta.boardId) + StringBytes(meta.boardName) + tail
  {
  }

  lemma {:induction false} BoardHeadRoundTrip(t: seq<byte>, boardId: u64, name: CString, tail: seq<byte>)
    requires |t| == 1 && |name| < 0x8000_0000
    ensures var f := t + U64Bytes(boardId) + StringBytes(name) + tail;
      && TryU64(f, 1) == Some((boardId, 9))
      && TryString(f, 9) == Some((name, 13 + |name|)) && EncodedAt(f, 13 + |name|, tail)
  {
    var a, s := U64Bytes(boardId), StringBytes(name);
    var f := t + a + s + tail;
    Whole(f);
    EncodedAtSplit(f, 0, t + a + s, tail);
    EncodedAtSplit(f, 0, t + a, s);
    EncodedAtSplit(f, 0, t, a);
    ReadU64Inverse(f, 1, boardId);
    ReadStringInverse(f, 9, name);
  }

  lemma {:induction false} BoardTailRoundTrip(f: seq<byte>, o: nat, meta: BoardMeta, total: u64)
    requires EncodedAt(f, o, PanningBytes(meta.pan) + GridBytes(meta.grid) + SizeBytes(meta.size) + U64Bytes(total))
    ensures o + 35 <= |f|
    ensures ReadPanning(f, o) == (meta.pan, o + 1) && ReadGrid(f, o + 1) == (meta.grid, o + 19)
    ensures ReadSize(f, o + 19) == (meta.size, o + 27) && ReadU64(f, o + 27) == (total, o + 35)
  {
    var p, g, z, tt := PanningBytes(meta.pan), GridBytes(meta.grid), SizeBytes(meta.size), U64Bytes(total);
    EncodedAtSplit(f, o, p + g + z, tt);
    EncodedAtSplit(f, o, p + g, z);
    EncodedAtSplit(f, o, p, g);
    FlagComponentsRoundTrip(f, o, meta.pan.isPanning);
    ReadGridInverse(f, o + 1, meta.grid);
    ReadSizeInverse(f, o + 19, meta.size);
    ReadU64Inverse(f, o + 27, total);
  }

  /** ReadBoardMeta where each field has been read back on its own. */
  lemma {:induction false} ReadBoardMetaFromParts(f: seq<byte>, off: nat, meta: BoardMeta, total: u64)
    requires TryU64(f, off) == Some((meta.boardId, off + 8))
    requires TryString(f, off + 8) == Some((meta.boardName, off + 12 + |meta.boardName|))
    requires var o := off + 12 + |meta.boardName|;
      && o + 35 <= |f|
      && ReadPanning(f, o) == (meta.pan, o + 1) && ReadGrid(f, o + 1) == (meta.grid, o + 19)
      && ReadSize(f, o + 19) == (meta.size, o + 27) && ReadU64(f, o + 27) == (total, o + 35)
    ensures ReadBoardMeta(f, off) == Some((meta, total, off + 47 + |meta.boardName|))
  {
  }

  /** A marker meta frame is read back as the ids, the generated name, the components and the image size. */
  lemma {:induction false} MarkerMetaRoundTrip(tags: Tags, boardId: u64, v: MarkerView, total: u64)
    ensures var f := MarkerFrame(tags, boardId, v, total);
      ReadMarkerMeta(f, 1) == Some((MarkerMeta(boardId, v.id, MarkerName(v.id), v.pos, v.size, v.vis, v.mov), total, |f|))
  {
    var name := MarkerName(v.id);
    MarkerNameShort(v.id);
    var tail := PositionBytes(v.pos) + SizeBytes(v.size) + VisibilityBytes(v.vis) + MovingBytes(v.mov) + U64Bytes(total);
    MarkerFrameLayout(tags, boardId, v, total, tail);
    MarkerHeadRoundTrip([tags.markerCreate], boardId, v.id, name, tail);
    var f := MarkerFrame(tags, boardId, v, total);
    MarkerTailRoundTrip(f, 21 + |name|, v, total);
    ReadMarkerMetaFromParts(f, 1, MarkerMeta(boardId, v.id, name, v.pos, v.size, v.vis, v.mov), total);
  }

  lemma {:induction false} MarkerFrameLayout(tags: Tags, boardId: u64, v: MarkerView, total: u64, tail: seq<byte>)
    requires tail == PositionBytes(v.pos) + SizeBytes(v.size) + VisibilityBytes(v.vis) + MovingBytes(v.mov) + U64Bytes(total)
    ensures MarkerFrame(tags, boardId, v, total)
         == [tags.markerCreate] + U64Bytes(boardId) + U64Bytes(v.id) + StringBytes(MarkerName(v.id)) + tail
  {
  }

  lemma {:induction false} MarkerHeadRoundTrip(t: seq<byte>, boardId: u64, markerId: u64, name: CString, tail: seq<byte>)
    requires |t| == 1 && |name| < 0x8000_0000
    ensures var f := t + U64Bytes(boardId) + U64Bytes(markerId) + StringBytes(name) + tail;
      && TryU64(f, 1) == Some((boardId, 9)) && TryU64(f, 9) == Some((markerId, 17))
      && TryString(f, 17) == Some((name, 21 + |name|)) && EncodedAt(f, 21 + |name|, tail)
  {
    var a, c, s := U64Bytes(boardId), U64Bytes(markerId), StringBytes(name);
    var f := t + a + c + s + tail;
    Whole(f);
    EncodedAtSplit(f, 0, t + a + c + s, tail);
    EncodedAtSplit(f, 0, t + a + c, s);
    EncodedAtSplit(f, 0, t + a, c);
    EncodedAtSplit(f, 0, t, a);
    ReadU64Inverse(f, 1, boardId);
    ReadU64Inverse(f, 9, markerId);
    ReadStringInverse(f, 17, name);
  }

  /** ReadMarkerMeta where each field has been read back on its own. */
  lemma {:induction false} ReadMarkerMetaFromParts(f: seq<byte>, off: nat, m: MarkerMeta, total: u64)
    requires TryU64(f, off) == Some((m.boardId, off + 8)) && TryU64(f, off + 8) == Some((m.markerId, off + 16))
    requires TryString(f, off + 16) == Some((m.name, off + 20 + |m.name|))
    requires var o := off + 20 + |m.name|;
      && o + 26 <= |f|
      && ReadPosition(f, o) == (m.pos, o + 8) && ReadSize(f, o + 8) == (m.size, o + 16)
      && ReadVisibility(f, o + 16) == (m.vis, o + 17) && ReadMoving(f, o + 17) == (m.mov, o + 18)
      && ReadU64(f, o + 18) == (total, o + 26)
    ensures ReadMarkerMeta(f, off) == Some((m, total, off + 46 + |m.name|))
  {
  }

  lemma {:induction false} MarkerTailRoundTrip(f: seq<byte>, o: nat, v: MarkerView, total: u64)
    requires EncodedAt(f, o, PositionBytes(v.pos) + SizeBytes(v.size) + VisibilityBytes(v.vis) + MovingBytes(v.mov) + U64Bytes(total))
    ensures o + 26 <= |f|
    ensures ReadPosition(f, o) == (v.pos, o + 8) && ReadSize(f, o + 8) == (v.size, o + 16)
    ensures ReadVisibility(f, o + 16) == (v.vis, o + 17) && ReadMoving(f, o + 17) == (v.mov, o + 18)
    ensures ReadU64(f, o + 18) == (total, o + 26)
  {
    var p, z, vi, m, tt := PositionBytes(v.pos), SizeBytes(v.size), VisibilityBytes(v.vis), MovingBytes(v.mov), U64Bytes(total);
    EncodedAtSplit(f, o, p + z + vi + m, tt);
    EncodedAtSplit(f, o, p + z + vi, m);
    EncodedAtSplit(f, o, p + z, vi);
    EncodedAtSplit(f, o, p, z);
    ReadPositionInverse(f, o, v.pos);
    ReadSizeInverse(f, o + 8, v.size);
    FlagComponentsRoundTrip(f, o + 16, v.vis.isVisible);
    FlagComponentsRoundTrip(f, o + 17, v.mov.isDragging);
    ReadU64Inverse(f, o + 18, total);
  }

  /** A fog frame yields one FogReady with the board id and the fog's components. */
  lemma {:induction false} FogRoundTrip(tags: Tags, boardId: u64, v: FogView)
    ensures var f := FogFrame(tags, boardId, v);
      ReadFogCreate(f, 1) == Some((FogReady(boardId, v.id, v.pos, v.size, v.vis), |f|))
  {
    var f := FogFrame(tags, boardId, v);
    var t, a, c := [tags.fog], U64Bytes(boardId), U64Bytes(v.id);
    var p, z, vi := PositionBytes(v.pos), SizeBytes(v.size), VisibilityBytes(v.vis);
    Whole(f);
    EncodedAtSplit(f, 0, t + a + c + p + z, vi);
    EncodedAtSplit(f, 0, t + a + c + p, z);
    EncodedAtSplit(f, 0, t + a + c, p);
    EncodedAtSplit(f, 0, t + a, c);
    EncodedAtSplit(f, 0, t, a);
    ReadU64Inverse(f, 1, boardId);
    ReadU64Inverse(f, 9, v.id);
    ReadPositionInverse(f, 17, v.pos);
    ReadSizeInverse(f, 25, v.size);
    FlagComponentsRoundTrip(f, 33, v.vis.isVisible);
  }

  /** A chunk frame's header is read back as its owner kind, id, offset and length; the data follows it. */
  lemma {:induction false} ChunkHeaderRoundTrip(tags: Tags, ownerKind: byte, id: u64, offset: u64, data: seq<byte>)
    requires |data| < 0x8000_0000
    ensures ReadChunkHeader(ChunkFrame(tags, ownerKind, id, offset, data), 1)
         == Some(ChunkHeader(ownerKind, id, offset, |data| as int32, 22))
  {
    var f := ChunkFrame(tags, ownerKind, id, offset, data);
    var t, a, c, n := [tags.imageChunk, ownerKind], U64Bytes(id), U64Bytes(offset), IntBytes(CastToInt(|data|));
    Whole(f);
    EncodedAtSplit(f, 0, t + a + c + n, data);
    EncodedAtSplit(f, 0, t + a + c, n);
    EncodedAtSplit(f, 0, t + a, c);
    EncodedAtSplit(f, 0, t, a);
    ReadU64Inverse(f, 2, id);
    ReadU64Inverse(f, 10, offset);
    ReadIntInverse(f, 18, |data|);
  }

  /** The commit frames are read back as the ids they were built from. */
  lemma {:induction false} CommitRoundTrip(tags: Tags, boardId: u64, markerId: u64)
    ensures var f := CommitBoardFrame(tags, boardId); TryU64(f, 1) == Some((boardId, 9))
    ensures var f := CommitMarkerFrame(tags, boardId, markerId);
      TryU64(f, 1) == Some((boardId, 9)) && TryU64(f, 9) == Some((markerId, 17))
  {
    var f := CommitBoardFrame(tags, boardId);
    Whole(f);
    EncodedAtSplit(f, 0, [tags.commitBoard], U64Bytes(boardId));
    ReadU64Inverse(f, 1, boardId);
    var g := CommitMarkerFrame(tags, boardId, markerId);
    Whole(g);
    EncodedAtSplit(g, 0, [tags.commitMarker] + U64Bytes(boardId), U64Bytes(markerId));
    EncodedAtSplit(g, 0, [tags.commitMarker], U64Bytes(boardId));
    ReadU64Inverse(g, 1, boardId);
    ReadU64Inverse(g, 9, markerId);
  }

  // ---------------------------------------------------------------------------
  // Each frame decoded as a message of its own

  /** Every message of the game channel goes through decodeRawGameBuffer on its own, in arrival order. */
  function DecodeAll(tags: Tags, complete: (u64, u64) -> bool, rx: Rx, frames: seq<seq<byte>>): (r: Rx)
    requires Sized(rx.images)
    ensures Sized(r.images) && rx.inbound <= r.inbound
    decreases |frames|
  {
    if frames == [] then rx
    else DecodeAll(tags, complete, DecodeFrom(tags, complete, rx, frames[0], 0), frames[1..])
  }

  lemma {:induction false} DecodeAllAppend(tags: Tags, complete: (u64, u64) -> bool, rx: Rx, a: seq<seq<byte>>, b: seq<seq<byte>>)
    requires Sized(rx.images)
    ensures DecodeAll(tags, complete, rx, a + b) == DecodeAll(tags, complete, DecodeAll(tags, complete, rx, a), b)
    decreases |a|
  {
    if a != [] {
      assert (a + b)[1..] == a[1..] + b;
      DecodeAllAppend(tags, complete, DecodeFrom(tags, complete, rx, a[0], 0), a[1..], b);
    } else {
      assert a + b == b;
    }
  }

  /** A message whose one frame is handled up to its last byte leaves what that handler leaves. */
  lemma {:induction false} WholeFrame(tags: Tags, complete: (u64, u64) -> bool, rx: Rx, f: seq<byte>, rx': Rx)
    requires 0 < |f| && Sized(rx.images) && Step(tags, complete, rx, f, 0) == Some((rx', |f|))
    ensures DecodeAll(tags, complete, rx, [f]) == rx'
  {
    assert DecodeFrom(tags, complete, rx', f, |f|) == rx';
    assert DecodeFrom(tags, complete, rx, f, 0) == rx';
    assert [f][1..] == [];
    assert DecodeAll(tags, complete, rx', []) == rx';
  }

  /**
   * A marker meta frame (re)initialises the record under the marker id: kind
   * Marker, the board id, the meta, the image size as total, nothing
   * received and a zeroed buffer; a board meta the record had is kept, and
   * nothing else changes.
   */
  lemma {:induction false} MarkerMetaResets(tags: Tags, complete: (u64, u64) -> bool, rx: Rx, boardId: u64, v: MarkerView, total: u64)
    requires Distinct(tags) && Sized(rx.images)
    ensures var prior := if v.id in rx.images then rx.images[v.id] else Unset;
      var meta := MarkerMeta(boardId, v.id, MarkerName(v.id), v.pos, v.size, v.vis, v.mov);
      DecodeAll(tags, complete, rx, [MarkerFrame(tags, boardId, v, total)])
        == rx.(images := rx.images[v.id := PendingImage(OwnerMarker, v.id, boardId, prior.boardMeta, Some(meta), total, 0, Zeros(total))])
  {
    var f := MarkerFrame(tags, boardId, v, total);
    MarkerMetaRoundTrip(tags, boardId, v, total);
    WholeFrame(tags, complete, rx, f, HandleMarkerMeta(rx, f, 1).value.0);
  }

  /** A board meta frame (re)initialises the record under the board id likewise, keeping a marker meta it had. */
  lemma {:induction false} BoardMetaResets(tags: Tags, complete: (u64, u64) -> bool, rx: Rx, meta: BoardMeta, total: u64)
    requires Distinct(tags) && Sized(rx.images) && |meta.boardName| < 0x8000_0000
    ensures var prior := if meta.boardId in rx.images then rx.images[meta.boardId] else Unset;
      DecodeAll(tags, complete, rx, [BoardFrame(tags, meta, total)])
        == rx.(images := rx.images[meta.boardId := PendingImage(OwnerBoard, meta.boardId, meta.boardId, Some(meta), prior.markerMeta, total, 0, Zeros(total))])
  {
    var f := BoardFrame(tags, meta, total);
    BoardMetaRoundTrip(tags, meta, total);
    WholeFrame(tags, complete, rx, f, HandleBoardMeta(rx, f, 1).value.0);
  }

  /** A chunk that passes every check is copied at its offset and its length is added to received. */
  lemma {:induction false} ChunkAccepted(tags: Tags, complete: (u64, u64) -> bool, rx: Rx, kind: byte, id: u64, offset: u64, data: seq<byte>)
    requires Distinct(tags) && Sized(rx.images) && |data| < 0x8000_0000
    requires id in rx.images && rx.images[id].kind == kind && rx.images[id].total > 0
    requires offset + |data| <= rx.images[id].total
    ensures var p := rx.images[id];
      DecodeAll(tags, complete, rx, [ChunkFrame(tags, kind, id, offset, data)])
        == rx.(images := rx.images[id := p.(buf := Spliced(p.buf, offset, data), received := AddU64(p.received, |data|))])
  {
    var f := ChunkFrame(tags, kind, id, offset, data);
    ChunkHeaderRoundTrip(tags, kind, id, offset, data);
    assert f[22..22 + |data|] == data;
    WholeFrame(tags, complete, rx, f, HandleImageChunk(rx, f, 1).value.0);
  }

  /**
   * A chunk with an unknown id, another owner kind, a record of total 0 or
   * bytes outside the image leaves the state as it was, and decoding goes
   * on right after its 22-byte header, inside the chunk's own data.
   */
  lemma {:induction false} ChunkDropped(tags: Tags, complete: (u64, u64) -> bool, rx: Rx, kind: byte, id: u64, offset: u64, data: seq<byte>)
    requires Distinct(tags) && Sized(rx.images) && |data| < 0x8000_0000
    requires id !in rx.images || rx.images[id].kind != kind || rx.images[id].total == 0
          || offset + |data| > rx.images[id].total
    ensures Step(tags, complete, rx, ChunkFrame(tags, kind, id, offset, data), 0) == Some((rx, 22))
  {
    ChunkHeaderRoundTrip(tags, kind, id, offset, data);
  }

  /** A chunk that arrives a second time changes nothing but received, which counts its bytes again. */
  lemma {:induction false} ChunkResent(tags: Tags, complete: (u64, u64) -> bool, rx: Rx, kind: byte, id: u64, offset: u64, data: seq<byte>)
    requires Distinct(tags) && Sized(rx.images) && |data| < 0x8000_0000
    requires id in rx.images && rx.images[id].kind == kind && rx.images[id].total > 0
    requires offset + |data| <= rx.images[id].total
    ensures var f := ChunkFrame(tags, kind, id, offset, data);
      var once := DecodeAll(tags, complete, rx, [f]);
      && id in once.images
      && DecodeAll(tags, complete, once, [f])
           == once.(images := once.images[id := once.images[id].(received := AddU64(once.images[id].received, |data|))])
  {
    var p := rx.images[id];
    ChunkAccepted(tags, complete, rx, kind, id, offset, data);
    var once := rx.(images := rx.images[id := p.(buf := Spliced(p.buf, offset, data), received := AddU64(p.received, |data|))]);
    SplicedTwice(p.buf, offset, data);
    ChunkAccepted(tags, complete, once, kind, id, offset, data);
  }

  lemma {:induction false} SplicedTwice(buf: seq<byte>, at: nat, data: seq<byte>)
    requires at + |data| <= |buf|
    ensures Spliced(Spliced(buf, at, data), at, data) == Spliced(buf, at, data)
  {
    var once := Spliced(buf, at, data);
    assert once[..at] + data + once[at + |data|..] == once;
  }

  /**
   * A marker commit for a Marker record of that board, with no image or a
   * complete one, queues the marker's ready message (when its meta arrived)
   * with the buffer and erases the record; any other commit changes nothing.
   */
  lemma {:induction false} CommitMarkerRule(tags: Tags, complete: (u64, u64) -> bool, rx: Rx, boardId: u64, markerId: u64)
    requires Distinct(tags) && Sized(rx.images)
    ensures var after := DecodeAll(tags, complete, rx, [CommitMarkerFrame(tags, boardId, markerId)]);
      if markerId in rx.images && rx.images[markerId].kind == OwnerMarker && rx.images[markerId].boardId == boardId
         && (rx.images[markerId].total == 0 || complete(rx.images[markerId].received, rx.images[markerId].total))
      then
        var p := rx.images[markerId];
        after == Rx(rx.images - {markerId},
                    rx.inbound + if p.markerMeta.Some? then [MarkerReady(boardId, p.markerMeta.value, p.buf)] else [])
      else after == rx
  {
    var f := CommitMarkerFrame(tags, boardId, markerId);
    CommitRoundTrip(tags, boardId, markerId);
    WholeFrame(tags, complete, rx, f, HandleCommitMarker(rx, f, 1, complete).value.0);
  }

  /** A board commit for a Board record with no image or a complete one queues the board and erases the record; any other changes nothing. */
  lemma {:induction false} CommitBoardRule(tags: Tags, complete: (u64, u64) -> bool, rx: Rx, boardId: u64)
    requires Distinct(tags) && Sized(rx.images)
    ensures var after := DecodeAll(tags, complete, rx, [CommitBoardFrame(tags, boardId)]);
      if boardId in rx.images && rx.images[boardId].kind == OwnerBoard
         && (rx.images[boardId].total == 0 || complete(rx.images[boardId].received, rx.images[boardId].total))
      then
        var p := rx.images[boardId];
        after == Rx(rx.images - {boardId},
                    rx.inbound + if p.boardMeta.Some? then [BoardReady(boardId, p.boardMeta.value, p.buf)] else [])
      else after == rx
  {
    var f := CommitBoardFrame(tags, boardId);
    CommitRoundTrip(tags, boardId, 0);
    WholeFrame(tags, complete, rx, f, HandleCommitBoard(rx, f, 1, complete).value.0);
  }

  // ---------------------------------------------------------------------------
  // Reassembly: what sendMarker and sendBoard deliver

  /** The buffer once the first `upto` bytes of the image are in: those bytes, then zeros. */
  function Partial(img: seq<byte>, upto: nat): (r: seq<byte>)
    requires upto <= |img|
    ensures |r| == |img| && r[..upto] == img[..upto]
    ensures upto == 0 ==> r == Zeros(|img|)
    ensures upto == |img| ==> r == img
  {
    img[..upto] + Zeros(|img| - upto)
  }

  /** Copying the next piece of the image into a partial buffer extends it by that piece. */
  lemma {:induction false} SplicePartial(img: seq<byte>, a: nat, e: nat)
    requires a <= e <= |img|
    ensures Spliced(Partial(img, a), a, img[a..e]) == Partial(img, e)
  {
    var p := Partial(img, a);
    assert p[e..] == Zeros(|img| - e);
    assert img[..a] + img[a..e] == img[..e];
  }

  /** The state with the record under `id` filled with the first `upto` bytes of `img`. */
  function Filled(rx: Rx, id: u64, img: seq<byte>, upto: nat): (r: Rx)
    requires id in rx.images && upto <= |img| < U64_MODULUS
    ensures r.inbound == rx.inbound && r.images.Keys == rx.images.Keys
    ensures r.images[id].buf == Partial(img, upto) && r.images[id].received == upto
    ensures forall k :: k in rx.images && k != id ==> r.images[k] == rx.images[k]
  {
    rx.(images := rx.images[id := rx.images[id].(buf := Partial(img, upto), received := upto)])
  }

  /** Filling twice is filling to the second mark. */
  lemma {:induction false} FilledTwice(rx: Rx, id: u64, img: seq<byte>, a: nat, e: nat)
    requires id in rx.images && a <= |img| < U64_MODULUS && e <= |img|
    ensures Filled(Filled(rx, id, img, a), id, img, e) == Filled(rx, id, img, e)
  {
    assert Filled(Filled(rx, id, img, a), id, img, e).images == Filled(rx, id, img, e).images;
  }

  /** A record that has nothing yet is its own fill to 0. */
  lemma {:induction false} FilledNothing(rx: Rx, id: u64, img: seq<byte>)
    requires id in rx.images && |img| < U64_MODULUS
    requires rx.images[id].buf == Zeros(|img|) && rx.images[id].received == 0
    ensures Filled(rx, id, img, 0) == rx
  {
    assert Filled(rx, id, img, 0).images == rx.images;
  }

  /** The chunk frame of the next piece of the image extends a partial fill by that piece. */
  lemma {:induction false} FillStep(tags: Tags, complete: (u64, u64) -> bool, rx: Rx, f: seq<byte>, kind: byte, id: u64,
                                    img: seq<byte>, u: nat, data: seq<byte>, e: nat)
    requires Distinct(tags) && Sized(rx.images) && |data| < 0x8000_0000 && |img| < U64_MODULUS
    requires e == u + |data| <= |img| && u < |img| && data == img[u..e]
    requires f == ChunkFrame(tags, kind, id, u, data)
    requires id in rx.images && rx.images[id].kind == kind && rx.images[id].total == |img|
    requires rx.images[id].buf == Partial(img, u) && rx.images[id].received == u
    ensures DecodeAll(tags, complete, rx, [f]) == Filled(rx, id, img, e)
  {
    var p := rx.images[id];
    ChunkAccepted(tags, complete, rx, kind, id, u, data);
    SplicePartial(img, u, e);
    assert Spliced(p.buf, u, data) == Partial(img, e) && AddU64(p.received, |data|) == e;
    assert p.(buf := Spliced(p.buf, u, data), received := AddU64(p.received, |data|))
        == p.(buf := Partial(img, e), received := e);
  }

  /** How much of an image of `size` bytes the first i pieces of `chunk` bytes cover. */
  function Covered(i: nat, chunk: nat, size: nat): (r: nat)
    ensures r <= size && (i * chunk <= size ==> r == i * chunk) && (i * chunk >= size ==> r == size)
  {
    Min(i * chunk, size)
  }

  /**
   * The chunk frame of the k-th piece, decoded into a record filled up to
   * that piece (u bytes), fills it up to the next one (e bytes).
   */
  lemma {:induction false} FillNext(tags: Tags, complete: (u64, u64) -> bool, rx: Rx, f: seq<byte>,
                                    kind: byte, id: u64, img: seq<byte>, chunk: nat, k: nat, u: nat, e: nat)
    requires Distinct(tags) && Sized(rx.images) && chunk < 0x8000_0000 && |img| < U64_MODULUS
    requires IsChunkFrame(f, tags, kind, id, img, chunk, k)
    requires u == Covered(k, chunk, |img|) && e == Covered(k + 1, chunk, |img|)
    requires id in rx.images && rx.images[id].kind == kind && rx.images[id].total == |img|
    ensures DecodeAll(tags, complete, Filled(rx, id, img, u), [f]) == Filled(rx, id, img, e)
  {
    var data := ChunkData(img, chunk, k);
    var mid := Filled(rx, id, img, u);
    FillStep(tags, complete, mid, f, kind, id, img, u, data, e);
    FilledTwice(rx, id, img, u, e);
  }

  /**
   * The first j chunk frames of an image, decoded one by one into a record
   * of that kind and size that has nothing yet, fill the buffer up to
   * min(j * chunk, size) and count that many bytes received.
   */
  lemma {:induction false} ChunksFill(tags: Tags, complete: (u64, u64) -> bool, rx: Rx, frames: seq<seq<byte>>,
                                      kind: byte, id: u64, img: seq<byte>, chunk: nat, j: nat)
    requires Distinct(tags) && Sized(rx.images) && chunk < 0x8000_0000 && |img| < U64_MODULUS
    requires ChunksOf(frames, tags, kind, id, img, chunk) && j <= |frames|
    requires id in rx.images && rx.images[id].kind == kind && rx.images[id].total == |img|
    requires rx.images[id].buf == Zeros(|img|) && rx.images[id].received == 0
    ensures DecodeAll(tags, complete, rx, frames[..j]) == Filled(rx, id, img, Covered(j, chunk, |img|))
    decreases j
  {
    if j == 0 {
      assert frames[..0] == [];
      FilledNothing(rx, id, img);
    } else {
      var k := j - 1;
      assert frames[..j] == frames[..k] + [frames[k]];
      DecodeAllAppend(tags, complete, rx, frames[..k], [frames[k]]);
      ChunksFill(tags, complete, rx, frames, kind, id, img, chunk, k);
      FillNext(tags, complete, rx, frames[k], kind, id, img, chunk, k, Covered(k, chunk, |img|), Covered(j, chunk, |img|));
    }
  }

  /** Decoding a first frame, then some frames, then a last frame, one message each, is decoding them all in order. */
  lemma {:induction false} DecodeThree(tags: Tags, complete: (u64, u64) -> bool, rx: Rx, first: seq<byte>, mids: seq<seq<byte>>,
                                       last: seq<byte>, rx1: Rx, rx2: Rx)
    requires Sized(rx.images) && DecodeAll(tags, complete, rx, [first]) == rx1
    requires DecodeAll(tags, complete, rx1, mids) == rx2
    ensures DecodeAll(tags, complete, rx, [first] + mids + [last]) == DecodeAll(tags, complete, rx2, [last])
  {
    DecodeAllAppend(tags, complete, rx, [first] + mids, [last]);
    DecodeAllAppend(tags, complete, rx, [first], mids);
  }

  /** A record replaced, filled and then erased leaves the map it was erased from. */
  lemma {:induction false} FilledErased(rx: Rx, id: u64, p: PendingImage, img: seq<byte>)
    requires |img| < U64_MODULUS
    ensures var rx1 := rx.(images := rx.images[id := p]);
      Filled(rx1, id, img, |img|).images - {id} == rx.images - {id}
  {
  }

  /** The marker commit for a complete Marker record with a meta queues the meta with the buffer. */
  lemma {:induction false} CommitMarkerDone(tags: Tags, complete: (u64, u64) -> bool, rx: Rx, boardId: u64, markerId: u64,
                                            meta: MarkerMeta, img: seq<byte>)
    requires Distinct(tags) && Sized(rx.images) && |img| < U64_MODULUS && complete(|img|, |img|)
    requires markerId in rx.images && rx.images[markerId].kind == OwnerMarker && rx.images[markerId].boardId == boardId
    requires rx.images[markerId].markerMeta == Some(meta)
    requires rx.images[markerId].total == |img| && rx.images[markerId].received == |img| && rx.images[markerId].buf == img
    ensures DecodeAll(tags, complete, rx, [CommitMarkerFrame(tags, boardId, markerId)])
         == Rx(rx.images - {markerId}, rx.inbound + [MarkerReady(boardId, meta, img)])
  {
    CommitMarkerRule(tags, complete, rx, boardId, markerId);
  }

  /** The board commit for a complete Board record with a meta queues the meta with the buffer. */
  lemma {:induction false} CommitBoardDone(tags: Tags, complete: (u64, u64) -> bool, rx: Rx, boardId: u64,
                                           meta: BoardMeta, img: seq<byte>)
    requires Distinct(tags) && Sized(rx.images) && |img| < U64_MODULUS && complete(|img|, |img|)
    requires boardId in rx.images && rx.images[boardId].kind == OwnerBoard
    requires rx.images[boardId].boardMeta == Some(meta)
    requires rx.images[boardId].total == |img| && rx.images[boardId].received == |img| && rx.images[boardId].buf == img
    ensures DecodeAll(tags, complete, rx, [CommitBoardFrame(tags, boardId)])
         == Rx(rx.images - {boardId}, rx.inbound + [BoardReady(boardId, meta, img)])
  {
    CommitBoardRule(tags, complete, rx, boardId);
  }

  /** All the chunk frames of an image fill a fresh record with the whole image. */
  lemma {:induction false} ChunksComplete(tags: Tags, complete: (u64, u64) -> bool, rx: Rx, chunks: seq<seq<byte>>,
                                          kind: byte, id: u64, img: seq<byte>, chunk: nat)
    requires Distinct(tags) && Sized(rx.images) && chunk < 0x8000_0000 && |img| < U64_MODULUS
    requires ChunksOf(chunks, tags, kind, id, img, chunk)
    requires id in rx.images && rx.images[id].kind == kind && rx.images[id].total == |img|
    requires rx.images[id].buf == Zeros(|img|) && rx.images[id].received == 0
    ensures DecodeAll(tags, complete, rx, chunks) == Filled(rx, id, img, |img|)
  {
    ChunksFill(tags, complete, rx, chunks, kind, id, img, chunk, |chunks|);
    assert chunks[..|chunks|] == chunks;
    assert Covered(|chunks|, chunk, |img|) == |img|;
  }

  /**
   * The frames sendMarker sends (the marker meta, the chunk frames of the
   * image, the marker commit), each decoded as its own message, leave the
   * peer with the marker's record gone and exactly one new ready message:
   * the marker's meta with the whole image. isComplete must hold once every
   * byte has been counted.
   */
  lemma {:induction false} MarkerDelivered(tags: Tags, complete: (u64, u64) -> bool, rx: Rx, boardId: u64, v: MarkerView,
                                           img: seq<byte>, chunk: nat, chunks: seq<seq<byte>>)
    requires Distinct(tags) && Sized(rx.images) && 0 < chunk < 0x8000_0000 && |img| < U64_MODULUS
    requires complete(|img|, |img|)
    requires ChunksOf(chunks, tags, OwnerMarker, v.id, img, chunk)
    ensures DecodeAll(tags, complete, rx, [MarkerFrame(tags, boardId, v, |img|)] + chunks + [CommitMarkerFrame(tags, boardId, v.id)])
         == Rx(rx.images - {v.id},
               rx.inbound + [MarkerReady(boardId, MarkerMeta(boardId, v.id, MarkerName(v.id), v.pos, v.size, v.vis, v.mov), img)])
  {
    var n := |img|;
    MarkerMetaResets(tags, complete, rx, boardId, v, n);
    var prior := if v.id in rx.images then rx.images[v.id] else Unset;
    var meta := MarkerMeta(boardId, v.id, MarkerName(v.id), v.pos, v.size, v.vis, v.mov);
    var p0 := PendingImage(OwnerMarker, v.id, boardId, prior.boardMeta, Some(meta), n, 0, Zeros(n));
    var rx1 := rx.(images := rx.images[v.id := p0]);
    ChunksComplete(tags, complete, rx1, chunks, OwnerMarker, v.id, img, chunk);
    var rx2 := Filled(rx1, v.id, img, n);
    DecodeThree(tags, complete, rx, MarkerFrame(tags, boardId, v, n), chunks, CommitMarkerFrame(tags, boardId, v.id), rx1, rx2);
    CommitMarkerDone(tags, complete, rx2, boardId, v.id, meta, img);
    FilledErased(rx, v.id, p0, img);
  }

  /** The frames sendBoard sends deliver the board's meta with the whole image in the same way. */
  lemma {:induction false} BoardDelivered(tags: Tags, complete: (u64, u64) -> bool, rx: Rx, meta: BoardMeta,
                                          img: seq<byte>, chunk: nat, chunks: seq<seq<byte>>)
    requires Distinct(tags) && Sized(rx.images) && 0 < chunk < 0x8000_0000 && |img| < U64_MODULUS
    requires |meta.boardName| < 0x8000_0000 && complete(|img|, |img|)
    requires ChunksOf(chunks, tags, OwnerBoard, meta.boardId, img, chunk)
    ensures DecodeAll(tags, complete, rx, [BoardFrame(tags, meta, |img|)] + chunks + [CommitBoardFrame(tags, meta.boardId)])
         == Rx(rx.images - {meta.boardId}, rx.inbound + [BoardReady(meta.boardId, meta, img)])
  {
    var n := |img|;
    var id := meta.boardId;
    BoardMetaResets(tags, complete, rx, meta, n);
    var prior := if id in rx.images then rx.images[id] else Unset;
    var p0 := PendingImage(OwnerBoard, id, id, Some(meta), prior.markerMeta, n, 0, Zeros(n));
    var rx1 := rx.(images := rx.images[id := p0]);
    ChunksComplete(tags, complete, rx1, chunks, OwnerBoard, id, img, chunk);
    var rx2 := Filled(rx1, id, img, n);
    DecodeThree(tags, complete, rx, BoardFrame(tags, meta, n), chunks, CommitBoardFrame(tags, id), rx1, rx2);
    CommitBoardDone(tags, complete, rx2, id, meta, img);
    FilledErased(rx, id, p0, img);
  }
}
