/**
 * The binary serializer of include/Serializer.h.
 *
 * Every serialize* function appends the raw in-memory bytes of a value to a
 * byte vector, and every deserialize* function reads them back at an offset
 * that it advances.  The model fixes the platform the program is built for:
 * `int` is 4 bytes wide, `uint64_t` 8 bytes, both in little-endian order, and
 * a `float` is copied as its 4-byte bit pattern (memcpy semantics), so a float
 * is represented here by that bit pattern and never computed with.
 *
 * Wire functions (IntBytes, StringBytes, ...) give the bytes each encoder
 * appends; read functions (ReadInt, ReadString, ...) give what each decoder
 * returns and where it leaves the offset.  The Serialize and Deserialize
 * methods are the source's in/out-parameter operations, proved against them.
 */
module Serializer {
  import opened CTypes
  import opened Wrappers

  /** A float held as its IEEE-754 bit pattern. */
  type F32 = u32

  datatype Vec2 = Vec2(x: F32, y: F32)

  // Components (include/Components.h)
  datatype Position = Position(x: int32, y: int32)
  datatype Size = Size(width: F32, height: F32)
  datatype Visibility = Visibility(isVisible: bool)
  datatype Moving = Moving(isDragging: bool)
  datatype Panning = Panning(isPanning: bool)
  datatype TextureComponent = TextureComponent(textureID: u32, imagePath: CString, size: Vec2)
  datatype Grid = Grid(offset: Vec2, scale: Vec2, isHex: bool, snapToGrid: bool)
  datatype Board = Board(boardName: CString)
  datatype GameTable = GameTable(gameTableName: CString)

  /** The fields of a marker entity, in the order the entity codec writes them. */
  datatype MarkerFields = MarkerFields(id: u64, pos: Position, size: Size, moving: Moving,
                                       visibility: Visibility, texture: TextureComponent)

  /** The fields of a fog entity, in the order the entity codec writes them. */
  datatype FogFields = FogFields(id: u64, pos: Position, size: Size, visibility: Visibility)

  // ---------------------------------------------------------------------------
  // Little-endian words

  function Pow256(n: nat): (p: nat)
    ensures p >= 1
  {
    if n == 0 then 1 else 256 * Pow256(n - 1)
  }

  /** The value of a little-endian byte string. */
  function LeValue(s: seq<byte>): (n: nat)
    ensures n < Pow256(|s|)
  {
    if s == [] then 0 else s[0] + 256 * LeValue(s[1..])
  }

  /** The `width` little-endian bytes of `n`; reading them back gives `n`. */
  function LeBytes(n: nat, width: nat): (r: seq<byte>)
    requires n < Pow256(width)
    ensures |r| == width
    ensures LeValue(r) == n
  {
    if width == 0 then [] else [n % 256] + LeBytes(n / 256, width - 1)
  }

  /** Re-encoding the value of a byte string gives the same bytes back. */
  lemma {:induction false} LeBytesOfValue(s: seq<byte>)
    ensures LeBytes(LeValue(s), |s|) == s
  {
    if s != [] {
      var v := LeValue(s[1..]);
      assert LeValue(s) % 256 == s[0] && LeValue(s) / 256 == v;
      LeBytesOfValue(s[1..]);
      assert LeBytes(LeValue(s), |s|) == [s[0]] + LeBytes(v, |s| - 1);
    }
  }

  lemma {:induction false} Pow256Four()
    ensures Pow256(4) == 0x1_0000_0000
  {
  }

  lemma {:induction false} Pow256Eight()
    ensures Pow256(8) == 0x1_0000_0000_0000_0000
  {
    assert Pow256(4) == 0x1_0000_0000;
    assert Pow256(8) == 256 * 256 * 256 * 256 * Pow256(4);
  }

  // ---------------------------------------------------------------------------
  // Where a value sits inside a buffer

  /** `bytes` occur in `buffer` starting at `offset`. */
  ghost predicate EncodedAt(buffer: seq<byte>, offset: nat, bytes: seq<byte>)
  {
    offset + |bytes| <= |buffer| && buffer[offset..offset + |bytes|] == bytes
  }

  lemma {:induction false} EncodedAtSplit(buffer: seq<byte>, offset: nat, a: seq<byte>, b: seq<byte>)
    requires EncodedAt(buffer, offset, a + b)
    ensures EncodedAt(buffer, offset, a) && EncodedAt(buffer, offset + |a|, b)
  {
    assert buffer[offset..offset + |a|] == buffer[offset..offset + |a + b|][..|a|];
    assert buffer[offset + |a|..offset + |a| + |b|] == buffer[offset..offset + |a + b|][|a|..];
  }

  /** What an encoder appended to `pre` sits right after `pre`, whatever follows it. */
  lemma {:induction false} EncodedAfter(pre: seq<byte>, bytes: seq<byte>, post: seq<byte>)
    ensures EncodedAt(pre + bytes + post, |pre|, bytes)
  {
    assert (pre + bytes + post)[|pre|..|pre| + |bytes|] == bytes;
  }

  // ---------------------------------------------------------------------------
  // int (4 bytes, two's complement) and uint64_t (8 bytes)

  function Unsigned32(v: int32): (u: u32)
    ensures u % 0x1_0000_0000 == v % 0x1_0000_0000
  {
    if v < 0 then v + 0x1_0000_0000 else v
  }

  function Signed32(u: u32): (v: int32)
    ensures v % 0x1_0000_0000 == u % 0x1_0000_0000
  {
    if u < 0x8000_0000 then u else u - 0x1_0000_0000
  }

  /** The 4 bytes serializeInt appends. */
  function IntBytes(v: int32): (r: seq<byte>)
    ensures |r| == 4
  {
    Pow256Four();
    LeBytes(Unsigned32(v), 4)
  }

  /** deserializeInt: the int read at `offset`, and the advanced offset. */
  function ReadInt(buffer: seq<byte>, offset: nat): (r: (int32, nat))
    requires offset + 4 <= |buffer|
    ensures r.1 == offset + 4
    ensures IntBytes(r.0) == buffer[offset..offset + 4]
  {
    var w := buffer[offset..offset + 4];
    Pow256Four();
    LeBytesOfValue(w);
    (Signed32(LeValue(w)), offset + 4)
  }

  lemma {:induction false} ReadIntInverse(buffer: seq<byte>, offset: nat, v: int32)
    requires EncodedAt(buffer, offset, IntBytes(v))
    ensures ReadInt(buffer, offset) == (v, offset + 4)
  {
    Pow256Four();
  }

  /** The 8 bytes serializeUInt64 appends. */
  function U64Bytes(v: u64): (r: seq<byte>)
    ensures |r| == 8
  {
    Pow256Eight();
    LeBytes(v, 8)
  }

  /** deserializeUInt64: the value read at `offset`, and the advanced offset. */
  function ReadU64(buffer: seq<byte>, offset: nat): (r: (u64, nat))
    requires offset + 8 <= |buffer|
    ensures r.1 == offset + 8
    ensures U64Bytes(r.0) == buffer[offset..offset + 8]
  {
    var w := buffer[offset..offset + 8];
    Pow256Eight();
    LeBytesOfValue(w);
    (LeValue(w), offset + 8)
  }

  lemma {:induction false} ReadU64Inverse(buffer: seq<byte>, offset: nat, v: u64)
    requires EncodedAt(buffer, offset, U64Bytes(v))
    ensures ReadU64(buffer, offset) == (v, offset + 8)
  {
    Pow256Eight();
  }

  /** The 4 bytes serializeFloat appends: the float's bit pattern. */
  function FloatBytes(f: F32): (r: seq<byte>)
    ensures |r| == 4
  {
    Pow256Four();
    LeBytes(f, 4)
  }

  function ReadFloat(buffer: seq<byte>, offset: nat): (r: (F32, nat))
    requires offset + 4 <= |buffer|
    ensures r.1 == offset + 4
    ensures FloatBytes(r.0) == buffer[offset..offset + 4]
  {
    var w := buffer[offset..offset + 4];
    Pow256Four();
    LeBytesOfValue(w);
    (LeValue(w), offset + 4)
  }

  lemma {:induction false} ReadFloatInverse(buffer: seq<byte>, offset: nat, f: F32)
    requires EncodedAt(buffer, offset, FloatBytes(f))
    ensures ReadFloat(buffer, offset) == (f, offset + 4)
  {
    Pow256Four();
  }

  // ---------------------------------------------------------------------------
  // bool and string

  /** The byte serializeBool appends: 1 for true, 0 for false. */
  function BoolBytes(b: bool): (r: seq<byte>)
    ensures |r| == 1 && (r[0] == 1 <==> b) && (r[0] == 0 <==> !b)
  {
    [if b then 1 else 0]
  }

  /** deserializeBool: any non-zero byte reads as true. */
  function ReadBool(buffer: seq<byte>, offset: nat): (r: (bool, nat))
    requires offset + 1 <= |buffer|
    ensures r.1 == offset + 1
    ensures r.0 <==> buffer[offset] != 0
  {
    (buffer[offset] != 0, offset + 1)
  }

  lemma {:induction false} ReadBoolInverse(buffer: seq<byte>, offset: nat, b: bool)
    requires EncodedAt(buffer, offset, BoolBytes(b))
    ensures ReadBool(buffer, offset) == (b, offset + 1)
  {
    assert buffer[offset] == buffer[offset..offset + 1][0];
  }

  /** A bool read back and written again is normalised: only the bytes 0 and 1 survive unchanged. */
  lemma {:induction false} BoolReencode(buffer: seq<byte>, offset: nat)
    requires offset + 1 <= |buffer|
    ensures BoolBytes(ReadBool(buffer, offset).0) == buffer[offset..offset + 1] <==> buffer[offset] <= 1
  {
    assert buffer[offset..offset + 1] == [buffer[offset]];
  }

  /** The int32 a size_t length becomes under static_cast<int>. */
  function CastToInt(n: nat): (v: int32)
    ensures v % 0x1_0000_0000 == n % 0x1_0000_0000
    ensures n < 0x8000_0000 ==> v == n
  {
    Signed32(n % 0x1_0000_0000)
  }

  function CharBytes(s: CString): (r: seq<byte>)
    ensures |r| == |s|
    ensures forall i :: 0 <= i < |s| ==> r[i] == s[i] as int
  {
    seq(|s|, i requires 0 <= i < |s| => s[i] as int)
  }

  /** The bytes serializeString appends: the length as an int, then the characters. */
  function StringBytes(s: CString): (r: seq<byte>)
    ensures |r| == 4 + |s|
  {
    IntBytes(CastToInt(|s|)) + CharBytes(s)
  }

  /** deserializeString is defined only when the length read is non-negative and the characters fit. */
  ghost predicate StringReadable(buffer: seq<byte>, offset: nat)
  {
    offset + 4 <= |buffer| && 0 <= ReadInt(buffer, offset).0 && offset + 4 + ReadInt(buffer, offset).0 <= |buffer|
  }

  /** deserializeString: the string read at `offset`, and the advanced offset. */
  function ReadString(buffer: seq<byte>, offset: nat): (r: (CString, nat))
    requires StringReadable(buffer, offset)
    ensures r.1 == offset + 4 + |r.0| && r.1 <= |buffer|
    ensures CharBytes(r.0) == buffer[offset + 4..r.1]
  {
    var n := ReadInt(buffer, offset).0;
    var s := seq(n, i requires 0 <= i < n => buffer[offset + 4 + i] as char);
    (s, offset + 4 + n)
  }

  lemma {:induction false} ReadStringInverse(buffer: seq<byte>, offset: nat, s: CString)
    requires |s| < 0x8000_0000
    requires EncodedAt(buffer, offset, StringBytes(s))
    ensures StringReadable(buffer, offset)
    ensures ReadString(buffer, offset) == (s, offset + 4 + |s|)
  {
    assert CastToInt(|s|) == |s|;
    EncodedAtSplit(buffer, offset, IntBytes(|s|), CharBytes(s));
    ReadIntInverse(buffer, offset, |s|);
    assert StringReadable(buffer, offset);
    var r := ReadString(buffer, offset).0;
    assert |r| == |s|;
    forall i | 0 <= i < |s| ensures r[i] == s[i] {
      assert buffer[offset + 4 + i] == buffer[offset + 4..offset + 4 + |s|][i] == CharBytes(s)[i];
    }
    assert r == s;
  }

  // ---------------------------------------------------------------------------
  // The decoders where they are defined: None where they would read past the end

  /** deserializeInt where it is defined: None where it would read past the end. */
  function TryInt(buf: seq<byte>, off: nat): (r: Option<(int32, nat)>)
    ensures r.Some? ==> off + 4 <= |buf| && r.value == ReadInt(buf, off)
    ensures r.None? ==> off + 4 > |buf|
  {
    if off + 4 <= |buf| then Some(ReadInt(buf, off)) else None
  }

  /** deserializeUInt64 where it is defined. */
  function TryU64(buf: seq<byte>, off: nat): (r: Option<(u64, nat)>)
    ensures r.Some? ==> off + 8 <= |buf| && r.value == ReadU64(buf, off)
    ensures r.None? ==> off + 8 > |buf|
  {
    if off + 8 <= |buf| then Some(ReadU64(buf, off)) else None
  }

  /** deserializeString where it is defined: the length read is non-negative and the characters fit. */
  function TryString(buf: seq<byte>, off: nat): (r: Option<(CString, nat)>)
    ensures r.Some? <==> StringReadable(buf, off)
    ensures r.Some? ==> r.value == ReadString(buf, off)
  {
    if off + 4 <= |buf| && 0 <= ReadInt(buf, off).0 && off + 4 + ReadInt(buf, off).0 <= |buf|
    then Some(ReadString(buf, off)) else None
  }

  // ---------------------------------------------------------------------------
  // Components

  function Vec2Bytes(v: Vec2): (r: seq<byte>)
    ensures |r| == 8
  {
    FloatBytes(v.x) + FloatBytes(v.y)
  }

  function ReadVec2(buffer: seq<byte>, offset: nat): (r: (Vec2, nat))
    requires offset + 8 <= |buffer|
    ensures r.1 == offset + 8
  {
    var (x, o1) := ReadFloat(buffer, offset);
    var (y, o2) := ReadFloat(buffer, o1);
    (Vec2(x, y), o2)
  }

  lemma {:induction false} ReadVec2Inverse(buffer: seq<byte>, offset: nat, v: Vec2)
    requires EncodedAt(buffer, offset, Vec2Bytes(v))
    ensures ReadVec2(buffer, offset) == (v, offset + 8)
  {
    EncodedAtSplit(buffer, offset, FloatBytes(v.x), FloatBytes(v.y));
    ReadFloatInverse(buffer, offset, v.x);
    ReadFloatInverse(buffer, offset + 4, v.y);
  }

  /** serializePosition writes x then y. */
  function PositionBytes(p: Position): (r: seq<byte>)
    ensures |r| == 8
  {
    IntBytes(p.x) + IntBytes(p.y)
  }

  function ReadPosition(buffer: seq<byte>, offset: nat): (r: (Position, nat))
    requires offset + 8 <= |buffer|
    ensures r.1 == offset + 8
  {
    var (x, o1) := ReadInt(buffer, offset);
    var (y, o2) := ReadInt(buffer, o1);
    (Position(x, y), o2)
  }

  lemma {:induction false} ReadPositionInverse(buffer: seq<byte>, offset: nat, p: Position)
    requires EncodedAt(buffer, offset, PositionBytes(p))
    ensures ReadPosition(buffer, offset) == (p, offset + 8)
  {
    EncodedAtSplit(buffer, offset, IntBytes(p.x), IntBytes(p.y));
    ReadIntInverse(buffer, offset, p.x);
    ReadIntInverse(buffer, offset + 4, p.y);
  }

  function SizeBytes(s: Size): (r: seq<byte>)
    ensures |r| == 8
  {
    FloatBytes(s.width) + FloatBytes(s.height)
  }

  function ReadSize(buffer: seq<byte>, offset: nat): (r: (Size, nat))
    requires offset + 8 <= |buffer|
    ensures r.1 == offset + 8
  {
    var (w, o1) := ReadFloat(buffer, offset);
    var (h, o2) := ReadFloat(buffer, o1);
    (Size(w, h), o2)
  }

  lemma {:induction false} ReadSizeInverse(buffer: seq<byte>, offset: nat, s: Size)
    requires EncodedAt(buffer, offset, SizeBytes(s))
    ensures ReadSize(buffer, offset) == (s, offset + 8)
  {
    EncodedAtSplit(buffer, offset, FloatBytes(s.width), FloatBytes(s.height));
    ReadFloatInverse(buffer, offset, s.width);
    ReadFloatInverse(buffer, offset + 4, s.height);
  }

  /** Visibility, Moving and Panning are each a single bool on the wire. */
  function VisibilityBytes(v: Visibility): (r: seq<byte>)
    ensures r == BoolBytes(v.isVisible)
  {
    BoolBytes(v.isVisible)
  }

  function ReadVisibility(buffer: seq<byte>, offset: nat): (r: (Visibility, nat))
    requires offset + 1 <= |buffer|
    ensures r.1 == offset + 1 && r.0.isVisible == ReadBool(buffer, offset).0
  {
    (Visibility(ReadBool(buffer, offset).0), offset + 1)
  }

  function MovingBytes(m: Moving): (r: seq<byte>)
    ensures r == BoolBytes(m.isDragging)
  {
    BoolBytes(m.isDragging)
  }

  function ReadMoving(buffer: seq<byte>, offset: nat): (r: (Moving, nat))
    requires offset + 1 <= |buffer|
    ensures r.1 == offset + 1 && r.0.isDragging == ReadBool(buffer, offset).0
  {
    (Moving(ReadBool(buffer, offset).0), offset + 1)
  }

  function PanningBytes(p: Panning): (r: seq<byte>)
    ensures r == BoolBytes(p.isPanning)
  {
    BoolBytes(p.isPanning)
  }

  function ReadPanning(buffer: seq<byte>, offset: nat): (r: (Panning, nat))
    requires offset + 1 <= |buffer|
    ensures r.1 == offset + 1 && r.0.isPanning == ReadBool(buffer, offset).0
  {
    (Panning(ReadBool(buffer, offset).0), offset + 1)
  }

  lemma {:induction false} FlagComponentsRoundTrip(buffer: seq<byte>, offset: nat, b: bool)
    requires EncodedAt(buffer, offset, BoolBytes(b))
    ensures ReadVisibility(buffer, offset) == (Visibility(b), offset + 1)
    ensures ReadMoving(buffer, offset) == (Moving(b), offset + 1)
    ensures ReadPanning(buffer, offset) == (Panning(b), offset + 1)
  {
    ReadBoolInverse(buffer, offset, b);
  }

  /** serializeTextureComponent: the id as an int, the image path, then the size. */
  function TextureBytes(t: TextureComponent): (r: seq<byte>)
    ensures |r| == 16 + |t.imagePath|
  {
    IntBytes(Signed32(t.textureID)) + StringBytes(t.imagePath) + Vec2Bytes(t.size)
  }

  ghost predicate TextureReadable(buffer: seq<byte>, offset: nat)
  {
    offset + 4 <= |buffer| && StringReadable(buffer, offset + 4)
    && ReadString(buffer, offset + 4).1 + 8 <= |buffer|
  }

  /** deserializeTextureComponent: reads the id but always returns textureID 0. */
  function ReadTexture(buffer: seq<byte>, offset: nat): (r: (TextureComponent, nat))
    requires TextureReadable(buffer, offset)
    ensures r.0.textureID == 0
    ensures r.1 == offset + 16 + |r.0.imagePath|
  {
    var (_, o1) := ReadInt(buffer, offset);
    var (path, o2) := ReadString(buffer, o1);
    var (size, o3) := ReadVec2(buffer, o2);
    (TextureComponent(0, path, size), o3)
  }

  lemma {:induction false} ReadTextureInverse(buffer: seq<byte>, offset: nat, t: TextureComponent)
    requires |t.imagePath| < 0x8000_0000
    requires EncodedAt(buffer, offset, TextureBytes(t))
    ensures TextureReadable(buffer, offset)
    ensures ReadTexture(buffer, offset) == (t.(textureID := 0), offset + 16 + |t.imagePath|)
  {
    var a, b, c := IntBytes(Signed32(t.textureID)), StringBytes(t.imagePath), Vec2Bytes(t.size);
    EncodedAtSplit(buffer, offset, a + b, c);
    EncodedAtSplit(buffer, offset, a, b);
    ReadStringInverse(buffer, offset + 4, t.imagePath);
    ReadVec2Inverse(buffer, offset + 4 + |b|, t.size);
  }

  /** The texture id does not survive a round trip: two textures differing only in it decode alike. */
  lemma {:induction false} TextureIdLost(t: TextureComponent)
    requires t.textureID != 0 && |t.imagePath| < 0x8000_0000
    ensures TextureReadable(TextureBytes(t), 0)
    ensures ReadTexture(TextureBytes(t), 0).0 != t
  {
    EncodedAfter([], TextureBytes(t), []);
    assert [] + TextureBytes(t) + [] == TextureBytes(t);
    ReadTextureInverse(TextureBytes(t), 0, t);
  }

  /** serializeGrid: offset, scale, is_hex, snap_to_grid. */
  function GridBytes(g: Grid): (r: seq<byte>)
    ensures |r| == 18
  {
    Vec2Bytes(g.offset) + Vec2Bytes(g.scale) + BoolBytes(g.isHex) + BoolBytes(g.snapToGrid)
  }

  function ReadGrid(buffer: seq<byte>, offset: nat): (r: (Grid, nat))
    requires offset + 18 <= |buffer|
    ensures r.1 == offset + 18
  {
    var (off, o1) := ReadVec2(buffer, offset);
    var (scale, o2) := ReadVec2(buffer, o1);
    var (hex, o3) := ReadBool(buffer, o2);
    var (snap, o4) := ReadBool(buffer, o3);
    (Grid(off, scale, hex, snap), o4)
  }

  lemma {:induction false} ReadGridInverse(buffer: seq<byte>, offset: nat, g: Grid)
    requires EncodedAt(buffer, offset, GridBytes(g))
    ensures ReadGrid(buffer, offset) == (g, offset + 18)
  {
    var a, b, c, d := Vec2Bytes(g.offset), Vec2Bytes(g.scale), BoolBytes(g.isHex), BoolBytes(g.snapToGrid);
    EncodedAtSplit(buffer, offset, a + b + c, d);
    EncodedAtSplit(buffer, offset, a + b, c);
    EncodedAtSplit(buffer, offset, a, b);
    ReadVec2Inverse(buffer, offset, g.offset);
    ReadVec2Inverse(buffer, offset + 8, g.scale);
    ReadBoolInverse(buffer, offset + 16, g.isHex);
    ReadBoolInverse(buffer, offset + 17, g.snapToGrid);
  }

  /** Board and GameTable are their name string on the wire. */
  function BoardBytes(b: Board): (r: seq<byte>)
    ensures r == StringBytes(b.boardName)
  {
    StringBytes(b.boardName)
  }

  function ReadBoard(buffer: seq<byte>, offset: nat): (r: (Board, nat))
    requires StringReadable(buffer, offset)
    ensures r.1 == offset + 4 + |r.0.boardName|
  {
    var (name, o) := ReadString(buffer, offset);
    (Board(name), o)
  }

  function GameTableBytes(g: GameTable): (r: seq<byte>)
    ensures r == StringBytes(g.gameTableName)
  {
    StringBytes(g.gameTableName)
  }

  function ReadGameTable(buffer: seq<byte>, offset: nat): (r: (GameTable, nat))
    requires StringReadable(buffer, offset)
    ensures r.1 == offset + 4 + |r.0.gameTableName|
  {
    var (name, o) := ReadString(buffer, offset);
    (GameTable(name), o)
  }

  lemma {:induction false} NamedComponentsRoundTrip(buffer: seq<byte>, offset: nat, name: CString)
    requires |name| < 0x8000_0000
    requires EncodedAt(buffer, offset, StringBytes(name))
    ensures StringReadable(buffer, offset)
    ensures ReadBoard(buffer, offset) == (Board(name), offset + 4 + |name|)
    ensures ReadGameTable(buffer, offset) == (GameTable(name), offset + 4 + |name|)
  {
    ReadStringInverse(buffer, offset, name);
  }

  // ---------------------------------------------------------------------------
  // Entity field order

  /** serializeMarkerEntity: id, position, size, moving, visibility, texture. */
  function MarkerBytes(m: MarkerFields): (r: seq<byte>)
    ensures |r| == 42 + |m.texture.imagePath|
  {
    U64Bytes(m.id) + PositionBytes(m.pos) + SizeBytes(m.size) + MovingBytes(m.moving)
      + VisibilityBytes(m.visibility) + TextureBytes(m.texture)
  }

  ghost predicate MarkerReadable(buffer: seq<byte>, offset: nat)
  {
    offset + 26 <= |buffer| && TextureReadable(buffer, offset + 26)
  }

  /** deserializeMarkerEntity reads the fields in the same order. */
  function ReadMarker(buffer: seq<byte>, offset: nat): (r: (MarkerFields, nat))
    requires MarkerReadable(buffer, offset)
    ensures r.0.texture.textureID == 0
  {
    var (id, o1) := ReadU64(buffer, offset);
    var (pos, o2) := ReadPosition(buffer, o1);
    var (size, o3) := ReadSize(buffer, o2);
    var (moving, o4) := ReadMoving(buffer, o3);
    var (vis, o5) := ReadVisibility(buffer, o4);
    var (tex, o6) := ReadTexture(buffer, o5);
    (MarkerFields(id, pos, size, moving, vis, tex), o6)
  }

  /** Decoding a marker's fields in encoding order recovers every field except the texture id. */
  lemma {:induction false} MarkerRoundTrip(buffer: seq<byte>, offset: nat, m: MarkerFields)
    requires |m.texture.imagePath| < 0x8000_0000
    requires EncodedAt(buffer, offset, MarkerBytes(m))
    ensures MarkerReadable(buffer, offset)
    ensures ReadMarker(buffer, offset)
         == (m.(texture := m.texture.(textureID := 0)), offset + 42 + |m.texture.imagePath|)
  {
    var a, b, c := U64Bytes(m.id), PositionBytes(m.pos), SizeBytes(m.size);
    var d, e, f := MovingBytes(m.moving), VisibilityBytes(m.visibility), TextureBytes(m.texture);
    EncodedAtSplit(buffer, offset, a + b + c + d + e, f);
    EncodedAtSplit(buffer, offset, a + b + c + d, e);
    EncodedAtSplit(buffer, offset, a + b + c, d);
    EncodedAtSplit(buffer, offset, a + b, c);
    EncodedAtSplit(buffer, offset, a, b);
    ReadU64Inverse(buffer, offset, m.id);
    ReadPositionInverse(buffer, offset + 8, m.pos);
    ReadSizeInverse(buffer, offset + 16, m.size);
    FlagComponentsRoundTrip(buffer, offset + 24, m.moving.isDragging);
    FlagComponentsRoundTrip(buffer, offset + 25, m.visibility.isVisible);
    ReadTextureInverse(buffer, offset + 26, m.texture);
  }

  /** serializeFogEntity: id, position, size, visibility. */
  function FogBytes(f: FogFields): (r: seq<byte>)
    ensures |r| == 25
  {
    U64Bytes(f.id) + PositionBytes(f.pos) + SizeBytes(f.size) + VisibilityBytes(f.visibility)
  }

  function ReadFog(buffer: seq<byte>, offset: nat): (r: (FogFields, nat))
    requires offset + 25 <= |buffer|
    ensures r.1 == offset + 25
  {
    var (id, o1) := ReadU64(buffer, offset);
    var (pos, o2) := ReadPosition(buffer, o1);
    var (size, o3) := ReadSize(buffer, o2);
    var (vis, o4) := ReadVisibility(buffer, o3);
    (FogFields(id, pos, size, vis), o4)
  }

  lemma {:induction false} FogRoundTrip(buffer: seq<byte>, offset: nat, f: FogFields)
    requires EncodedAt(buffer, offset, FogBytes(f))
    ensures ReadFog(buffer, offset) == (f, offset + 25)
  {
    var a, b, c, d := U64Bytes(f.id), PositionBytes(f.pos), SizeBytes(f.size), VisibilityBytes(f.visibility);
    EncodedAtSplit(buffer, offset, a + b + c, d);
    EncodedAtSplit(buffer, offset, a + b, c);
    EncodedAtSplit(buffer, offset, a, b);
    ReadU64Inverse(buffer, offset, f.id);
    ReadPositionInverse(buffer, offset + 8, f.pos);
    ReadSizeInverse(buffer, offset + 16, f.size);
    FlagComponentsRoundTrip(buffer, offset + 24, f.visibility.isVisible);
  }

  // ---------------------------------------------------------------------------
  // The source's operations: append to a buffer, read at an advancing offset

  method SerializeInt(buffer: seq<byte>, value: int32) returns (out: seq<byte>)
    ensures out == buffer + IntBytes(value)
  {
    out := buffer + IntBytes(value);
  }

  method SerializeFloat(buffer: seq<byte>, value: F32) returns (out: seq<byte>)
    ensures out == buffer + FloatBytes(value)
  {
    out := buffer + FloatBytes(value);
  }

  method SerializeBool(buffer: seq<byte>, value: bool) returns (out: seq<byte>)
    ensures out == buffer + BoolBytes(value)
  {
    var byteValue: byte := if value then 1 else 0;
    out := buffer + [byteValue];
  }

  method SerializeString(buffer: seq<byte>, str: CString) returns (out: seq<byte>)
    ensures out == buffer + StringBytes(str)
  {
    var length := CastToInt(|str|);
    out := SerializeInt(buffer, length);
    out := out + CharBytes(str);
  }

  method SerializeVec2(buffer: seq<byte>, vec: Vec2) returns (out: seq<byte>)
    ensures out == buffer + Vec2Bytes(vec)
  {
    out := SerializeFloat(buffer, vec.x);
    out := SerializeFloat(out, vec.y);
  }

  method SerializeUInt64(buffer: seq<byte>, value: u64) returns (out: seq<byte>)
    ensures out == buffer + U64Bytes(value)
  {
    out := buffer + U64Bytes(value);
  }

  method DeserializeUInt64(buffer: seq<byte>, offset: nat) returns (value: u64, next: nat)
    requires offset + 8 <= |buffer|
    ensures (value, next) == ReadU64(buffer, offset)
  {
    value := ReadU64(buffer, offset).0;
    next := offset + 8;
  }

  method DeserializeInt(buffer: seq<byte>, offset: nat) returns (value: int32, next: nat)
    requires offset + 4 <= |buffer|
    ensures (value, next) == ReadInt(buffer, offset)
  {
    value := ReadInt(buffer, offset).0;
    next := offset + 4;
  }

  method DeserializeFloat(buffer: seq<byte>, offset: nat) returns (value: F32, next: nat)
    requires offset + 4 <= |buffer|
    ensures (value, next) == ReadFloat(buffer, offset)
  {
    value := ReadFloat(buffer, offset).0;
    next := offset + 4;
  }

  method DeserializeBool(buffer: seq<byte>, offset: nat) returns (value: bool, next: nat)
    requires offset + 1 <= |buffer|
    ensures (value, next) == ReadBool(buffer, offset)
  {
    value := buffer[offset] != 0;
    next := offset + 1;
  }

  method DeserializeString(buffer: seq<byte>, offset: nat) returns (str: CString, next: nat)
    requires StringReadable(buffer, offset)
    ensures (str, next) == ReadString(buffer, offset)
  {
    var length;
    length, next := DeserializeInt(buffer, offset);
    str := seq(length, i requires 0 <= i < length => buffer[next + i] as char);
    next := next + length;
  }

  method DeserializeVec2(buffer: seq<byte>, offset: nat) returns (vec: Vec2, next: nat)
    requires offset + 8 <= |buffer|
    ensures (vec, next) == ReadVec2(buffer, offset)
  {
    var x, y;
    x, next := DeserializeFloat(buffer, offset);
    y, next := DeserializeFloat(buffer, next);
    vec := Vec2(x, y);
  }

  method SerializePosition(buffer: seq<byte>, position: Position) returns (out: seq<byte>)
    ensures out == buffer + PositionBytes(position)
  {
    out := SerializeInt(buffer, position.x);
    out := SerializeInt(out, position.y);
  }

  method DeserializePosition(buffer: seq<byte>, offset: nat) returns (position: Position, next: nat)
    requires offset + 8 <= |buffer|
    ensures (position, next) == ReadPosition(buffer, offset)
  {
    var x, y;
    x, next := DeserializeInt(buffer, offset);
    y, next := DeserializeInt(buffer, next);
    position := Position(x, y);
  }

  method SerializeSize(buffer: seq<byte>, size: Size) returns (out: seq<byte>)
    ensures out == buffer + SizeBytes(size)
  {
    out := SerializeFloat(buffer, size.width);
    out := SerializeFloat(out, size.height);
  }

  method DeserializeSize(buffer: seq<byte>, offset: nat) returns (size: Size, next: nat)
    requires offset + 8 <= |buffer|
    ensures (size, next) == ReadSize(buffer, offset)
  {
    var w, h;
    w, next := DeserializeFloat(buffer, offset);
    h, next := DeserializeFloat(buffer, next);
    size := Size(w, h);
  }

  method SerializeVisibility(buffer: seq<byte>, visibility: Visibility) returns (out: seq<byte>)
    ensures out == buffer + VisibilityBytes(visibility)
  {
    out := SerializeBool(buffer, visibility.isVisible);
  }

  method DeserializeVisibility(buffer: seq<byte>, offset: nat) returns (visibility: Visibility, next: nat)
    requires offset + 1 <= |buffer|
    ensures (visibility, next) == ReadVisibility(buffer, offset)
  {
    var b;
    b, next := DeserializeBool(buffer, offset);
    visibility := Visibility(b);
  }

  method SerializeMoving(buffer: seq<byte>, moving: Moving) returns (out: seq<byte>)
    ensures out == buffer + MovingBytes(moving)
  {
    out := SerializeBool(buffer, moving.isDragging);
  }

  method DeserializeMoving(buffer: seq<byte>, offset: nat) returns (moving: Moving, next: nat)
    requires offset + 1 <= |buffer|
    ensures (moving, next) == ReadMoving(buffer, offset)
  {
    var b;
    b, next := DeserializeBool(buffer, offset);
    moving := Moving(b);
  }

  method SerializePanning(buffer: seq<byte>, panning: Panning) returns (out: seq<byte>)
    ensures out == buffer + PanningBytes(panning)
  {
    out := SerializeBool(buffer, panning.isPanning);
  }

  method DeserializePanning(buffer: seq<byte>, offset: nat) returns (panning: Panning, next: nat)
    requires offset + 1 <= |buffer|
    ensures (panning, next) == ReadPanning(buffer, offset)
  {
    var b;
    b, next := DeserializeBool(buffer, offset);
    panning := Panning(b);
  }

  method SerializeTextureComponent(buffer: seq<byte>, texture: TextureComponent) returns (out: seq<byte>)
    ensures out == buffer + TextureBytes(texture)
  {
    out := SerializeInt(buffer, Signed32(texture.textureID));
    out := SerializeString(out, texture.imagePath);
    out := SerializeVec2(out, texture.size);
  }

  method DeserializeTextureComponent(buffer: seq<byte>, offset: nat) returns (texture: TextureComponent, next: nat)
    requires TextureReadable(buffer, offset)
    ensures (texture, next) == ReadTexture(buffer, offset)
  {
    var id, path, size;
    id, next := DeserializeInt(buffer, offset);
    path, next := DeserializeString(buffer, next);
    size, next := DeserializeVec2(buffer, next);
    texture := TextureComponent(0, path, size);
  }

  method SerializeGrid(buffer: seq<byte>, grid: Grid) returns (out: seq<byte>)
    ensures out == buffer + GridBytes(grid)
  {
    out := SerializeVec2(buffer, grid.offset);
    out := SerializeVec2(out, grid.scale);
    out := SerializeBool(out, grid.isHex);
    out := SerializeBool(out, grid.snapToGrid);
  }

  method DeserializeGrid(buffer: seq<byte>, offset: nat) returns (grid: Grid, next: nat)
    requires offset + 18 <= |buffer|
    ensures (grid, next) == ReadGrid(buffer, offset)
  {
    var off, scale, hex, snap;
    off, next := DeserializeVec2(buffer, offset);
    scale, next := DeserializeVec2(buffer, next);
    hex, next := DeserializeBool(buffer, next);
    snap, next := DeserializeBool(buffer, next);
    grid := Grid(off, scale, hex, snap);
  }

  method SerializeBoard(buffer: seq<byte>, board: Board) returns (out: seq<byte>)
    ensures out == buffer + BoardBytes(board)
  {
    out := SerializeString(buffer, board.boardName);
  }

  method DeserializeBoard(buffer: seq<byte>, offset: nat) returns (board: Board, next: nat)
    requires StringReadable(buffer, offset)
    ensures (board, next) == ReadBoard(buffer, offset)
  {
    var name;
    name, next := DeserializeString(buffer, offset);
    board := Board(name);
  }

  method SerializeGameTable(buffer: seq<byte>, gameTable: GameTable) returns (out: seq<byte>)
    ensures out == buffer + GameTableBytes(gameTable)
  {
    out := SerializeString(buffer, gameTable.gameTableName);
  }

  method DeserializeGameTable(buffer: seq<byte>, offset: nat) returns (gameTable: GameTable, next: nat)
    requires StringReadable(buffer, offset)
    ensures (gameTable, next) == ReadGameTable(buffer, offset)
  {
    var name;
    name, next := DeserializeString(buffer, offset);
    gameTable := GameTable(name);
  }

  /** A marker written after any prefix reads back from the end of that prefix. */
  lemma {:induction false} MarkerAfterPrefix(pre: seq<byte>, m: MarkerFields, post: seq<byte>)
    requires |m.texture.imagePath| < 0x8000_0000
    ensures MarkerReadable(pre + MarkerBytes(m) + post, |pre|)
    ensures ReadMarker(pre + MarkerBytes(m) + post, |pre|).0 == m.(texture := m.texture.(textureID := 0))
  {
    EncodedAfter(pre, MarkerBytes(m), post);
    MarkerRoundTrip(pre + MarkerBytes(m) + post, |pre|, m);
  }
}
