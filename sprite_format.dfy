/**
 * The fixed wire layout of a sprite asset, as plain values: what
 * Rectf, SpriteVertex, SpriteRenderData and Sprite write with WriteTo and
 * read back with LoadFrom, field by field, in one fixed order.
 *
 * Each record has an encoding function and a decoding function at a cursor
 * position; the round-trip lemmas say that decoding an encoding placed
 * anywhere in a stream gives back the record and stops right after it.
 */
module SpriteFormat {
  import opened Wire

  /** The (file id, path id) pair a PPtr writes: two int32 words. */
  datatype PPtrKey = PPtrKey(fileID: int, pathID: int)

  datatype Rect = Rect(x: Single, y: Single, width: Single, height: Single)

  /** The value of a SpriteRenderData; `texture` is the pointer's key. */
  datatype RenderData = RenderData(
    texture: PPtrKey,
    vertices: seq<Vector3>,
    indices: seq<u16>,
    textureRect: Rect,
    textureRectOffset: Vector2,
    settingsRaw: u32,
    uvTransform: Vector4)

  /** The serialized fields of a Sprite, with its render data last. */
  datatype SpriteData = SpriteData(
    name: seq<byte>,
    rect: Rect,
    offset: Vector2,
    border: Vector4,
    pixelsToUnits: Single,
    extrude: u32,
    rd: RenderData)

  predicate ValidKey(k: PPtrKey) { IsInt32(k.fileID) && IsInt32(k.pathID) }

  /** What a C# object can hold: int32 pointer words and arrays no longer than int.MaxValue. */
  predicate ValidRenderData(rd: RenderData)
  {
    ValidKey(rd.texture) && |rd.vertices| <= INT32_MAX && |rd.indices| <= INT32_MAX
  }

  predicate ValidSprite(sp: SpriteData)
  {
    |sp.name| <= INT32_MAX && ValidRenderData(sp.rd)
  }

  // ---------------------------------------------------------------------
  // Encodings (WriteTo)

  function PPtrBytes(k: PPtrKey): (r: seq<byte>)
    requires ValidKey(k)
    ensures |r| == 8
  {
    Int32Bytes(k.fileID) + Int32Bytes(k.pathID)
  }

  function RectBytes(r: Rect): (e: seq<byte>)
    ensures |e| == 16
  {
    U32Bytes(r.x) + U32Bytes(r.y) + U32Bytes(r.width) + U32Bytes(r.height)
  }

  function VerticesBytes(vs: seq<Vector3>): (r: seq<byte>)
    ensures |r| == 12 * |vs|
  {
    if |vs| == 0 then [] else VerticesBytes(vs[..|vs| - 1]) + Vector3Bytes(vs[|vs| - 1])
  }

  /** The filler after the index array: one zero ushort when the count is odd. */
  function IndexPadding(n: nat): (r: seq<byte>)
    ensures |r| == if n % 2 == 1 then 2 else 0
    ensures forall i :: 0 <= i < |r| ==> r[i] == 0
  {
    if n % 2 == 1 then U16Bytes(0) else []
  }

  /** The index count, the indices and the filler that keeps the section 4-byte aligned. */
  function IndexSectionBytes(ix: seq<u16>): (r: seq<byte>)
    requires |ix| <= INT32_MAX
    ensures |r| == 4 + 2 * |ix| + (if |ix| % 2 == 1 then 2 else 0)
  {
    Int32Bytes(|ix|) + U16sBytes(ix) + IndexPadding(|ix|)
  }

  /** The texture pointer, the vertex array and the index section. */
  function GeometryBytes(rd: RenderData): (r: seq<byte>)
    requires ValidRenderData(rd)
    ensures |r| == 12 + 12 * |rd.vertices| + |IndexSectionBytes(rd.indices)|
  {
    PPtrBytes(rd.texture)
    + Int32Bytes(|rd.vertices|) + VerticesBytes(rd.vertices)
    + IndexSectionBytes(rd.indices)
  }

  /** The texture rectangle, its offset, the settings word and the UV transform. */
  function TrailerBytes(rd: RenderData): (r: seq<byte>)
    ensures |r| == 44
  {
    RectBytes(rd.textureRect)
    + Vector2Bytes(rd.textureRectOffset)
    + U32Bytes(rd.settingsRaw)
    + Vector4Bytes(rd.uvTransform)
  }

  function RenderDataBytes(rd: RenderData): (r: seq<byte>)
    requires ValidRenderData(rd)
    ensures |r| == 60 + 12 * |rd.vertices| + 2 * |rd.indices| + (if |rd.indices| % 2 == 1 then 2 else 0)
  {
    GeometryBytes(rd) + TrailerBytes(rd)
  }

  /** The sprite's own fields, up to the embedded render data. */
  function SpriteHeaderBytes(sp: SpriteData): (r: seq<byte>)
    requires |sp.name| <= INT32_MAX
    ensures |r| == |NameBytes(sp.name)| + 48
  {
    NameBytes(sp.name)
    + RectBytes(sp.rect)
    + Vector2Bytes(sp.offset)
    + Vector4Bytes(sp.border)
    + U32Bytes(sp.pixelsToUnits)
    + U32Bytes(sp.extrude)
  }

  function SpriteBytes(sp: SpriteData): (r: seq<byte>)
    requires ValidSprite(sp)
    ensures |r| == |NameBytes(sp.name)| + 48 + |RenderDataBytes(sp.rd)|
  {
    SpriteHeaderBytes(sp) + RenderDataBytes(sp.rd)
  }

  // ---------------------------------------------------------------------
  // Decodings (LoadFrom)

  function DecodePPtr(s: seq<byte>, at: nat): (r: Option<Decoded<PPtrKey>>)
    ensures r.Some? <==> at + 8 <= |s|
    ensures r.Some? ==> r.value.next == at + 8 && ValidKey(r.value.value)
  {
    var fileID :- DecodeInt32(s, at);
    var pathID :- DecodeInt32(s, fileID.next);
    Some(Decoded(PPtrKey(fileID.value, pathID.value), pathID.next))
  }

  function DecodeRect(s: seq<byte>, at: nat): (r: Option<Decoded<Rect>>)
    ensures r.Some? <==> at + 16 <= |s|
    ensures r.Some? ==> r.value.next == at + 16
  {
    var x :- DecodeU32(s, at);
    var y :- DecodeU32(s, x.next);
    var width :- DecodeU32(s, y.next);
    var height :- DecodeU32(s, width.next);
    Some(Decoded(Rect(x.value, y.value, width.value, height.value), height.next))
  }

  /** n vertices in a row. */
  function DecodeVertices(s: seq<byte>, at: nat, n: nat): (r: Option<Decoded<seq<Vector3>>>)
    ensures r.Some? <==> n == 0 || at + 12 * n <= |s|
    ensures r.Some? ==> |r.value.value| == n && r.value.next == at + 12 * n
  {
    if n == 0 then Some(Decoded([], at))
    else
      var init :- DecodeVertices(s, at, n - 1);
      var last :- DecodeVector3(s, init.next);
      Some(Decoded(init.value + [last.value], last.next))
  }

  /**
   * The index count, that many indices, and two filler bytes skipped when
   * the count is odd; the filler never reaches the decoded indices.
   */
  function DecodeIndexSection(s: seq<byte>, at: nat): (r: Option<Decoded<seq<u16>>>)
    ensures r.Some? ==> |r.value.value| <= INT32_MAX && at + 4 + 2 * |r.value.value| <= r.value.next <= |s|
  {
    var n :- DecodeCount(s, at);
    var ix :- DecodeU16s(s, n.next, n.value);
    Some(Decoded(ix.value, Skip(s, ix.next, if n.value % 2 == 1 then 2 else 0)))
  }

  /** The texture pointer, the vertex count and vertices, and the index section. */
  function DecodeGeometry(s: seq<byte>, at: nat): (r: Option<Decoded<(PPtrKey, seq<Vector3>, seq<u16>)>>)
    ensures r.Some? ==>
      && ValidKey(r.value.value.0)
      && |r.value.value.1| <= INT32_MAX && |r.value.value.2| <= INT32_MAX
      && at + 16 + 12 * |r.value.value.1| + 2 * |r.value.value.2| <= r.value.next <= |s|
  {
    var texture :- DecodePPtr(s, at);
    var numVertices :- DecodeCount(s, texture.next);
    var vertices :- DecodeVertices(s, numVertices.next, numVertices.value);
    var indices :- DecodeIndexSection(s, vertices.next);
    Some(Decoded((texture.value, vertices.value, indices.value), indices.next))
  }

  /** The texture rectangle, its offset, the settings word and the UV transform. */
  function DecodeTrailer(s: seq<byte>, at: nat): (r: Option<Decoded<(Rect, Vector2, u32, Vector4)>>)
    ensures r.Some? <==> at + 44 <= |s|
    ensures r.Some? ==> r.value.next == at + 44
  {
    var textureRect :- DecodeRect(s, at);
    var textureRectOffset :- DecodeVector2(s, textureRect.next);
    var settingsRaw :- DecodeU32(s, textureRectOffset.next);
    var uvTransform :- DecodeVector4(s, settingsRaw.next);
    Some(Decoded((textureRect.value, textureRectOffset.value, settingsRaw.value, uvTransform.value),
                 uvTransform.next))
  }

  function DecodeRenderData(s: seq<byte>, at: nat): (r: Option<Decoded<RenderData>>)
    ensures r.Some? ==> ValidRenderData(r.value.value) && r.value.next <= |s|
  {
    var g :- DecodeGeometry(s, at);
    var t :- DecodeTrailer(s, g.next);
    Some(Decoded(RenderData(g.value.0, g.value.1, g.value.2, t.value.0, t.value.1, t.value.2, t.value.3),
                 t.next))
  }

  /** The name, rect, offset, border, pixelsToUnits and extrude of a sprite. */
  function DecodeSpriteHeader(s: seq<byte>, at: nat)
    : (r: Option<Decoded<(seq<byte>, Rect, Vector2, Vector4, Single, u32)>>)
    ensures r.Some? ==> |r.value.value.0| <= INT32_MAX && at + 52 + |r.value.value.0| <= r.value.next <= |s|
  {
    var name :- DecodeName(s, at);
    var rect :- DecodeRect(s, name.next);
    var offset :- DecodeVector2(s, rect.next);
    var border :- DecodeVector4(s, offset.next);
    var pixelsToUnits :- DecodeU32(s, border.next);
    var extrude :- DecodeU32(s, pixelsToUnits.next);
    Some(Decoded((name.value, rect.value, offset.value, border.value, pixelsToUnits.value, extrude.value),
                 extrude.next))
  }

  function DecodeSprite(s: seq<byte>, at: nat): (r: Option<Decoded<SpriteData>>)
    ensures r.Some? ==> ValidSprite(r.value.value) && r.value.next <= |s|
  {
    var h :- DecodeSpriteHeader(s, at);
    var rd :- DecodeRenderData(s, h.next);
    Some(Decoded(SpriteData(h.value.0, h.value.1, h.value.2, h.value.3, h.value.4, h.value.5, rd.value),
                 rd.next))
  }

  // ---------------------------------------------------------------------
  // Round trips

  lemma PPtrAt(s: seq<byte>, at: nat, k: PPtrKey)
    requires ValidKey(k) && BytesAt(s, at, PPtrBytes(k))
    ensures Yields(DecodePPtr(s, at), k, at + 8)
  {
    SplitAt(s, at, Int32Bytes(k.fileID), Int32Bytes(k.pathID), at + 4);
    Int32RoundTrip(s, at, k.fileID);
    Int32RoundTrip(s, at + 4, k.pathID);
  }

  /** Rectf: x, y, width, height written as 16 bytes are read back in the same order. */
  lemma RectAt(s: seq<byte>, at: nat, r: Rect)
    requires BytesAt(s, at, RectBytes(r))
    ensures Yields(DecodeRect(s, at), r, at + 16)
  {
    var ex, ey, ew, eh := U32Bytes(r.x), U32Bytes(r.y), U32Bytes(r.width), U32Bytes(r.height);
    SplitAt(s, at, ex + ey + ew, eh, at + 12);
    SplitAt(s, at, ex + ey, ew, at + 8);
    SplitAt(s, at, ex, ey, at + 4);
    U32RoundTrip(s, at, r.x);
    U32RoundTrip(s, at + 4, r.y);
    U32RoundTrip(s, at + 8, r.width);
    U32RoundTrip(s, at + 12, r.height);
  }

  lemma {:induction false} VerticesAt(s: seq<byte>, at: nat, vs: seq<Vector3>)
    requires BytesAt(s, at, VerticesBytes(vs))
    ensures Yields(DecodeVertices(s, at, |vs|), vs, at + 12 * |vs|)
  {
    if |vs| > 0 {
      var init, last := vs[..|vs| - 1], vs[|vs| - 1];
      SplitAt(s, at, VerticesBytes(init), Vector3Bytes(last), at + 12 * |init|);
      VerticesAt(s, at, init);
      Vector3RoundTrip(s, at + 12 * |init|, last);
      VerticesStep(s, at, |vs|, init, last, at + 12 * |init|, at + 12 * |vs|);
      assert init + [last] == vs;
    }
  }

  /** One more vertex read after the first n - 1. */
  lemma VerticesStep(s: seq<byte>, at: nat, n: nat, init: seq<Vector3>, last: Vector3, mid: nat, next: nat)
    requires n > 0
    requires Yields(DecodeVertices(s, at, n - 1), init, mid)
    requires Yields(DecodeVector3(s, mid), last, next)
    ensures Yields(DecodeVertices(s, at, n), init + [last], next)
  {
  }

  /** Once a prefix of the vertex array fails to decode, the whole array fails to decode. */
  lemma {:induction false} VerticesFailureStays(s: seq<byte>, at: nat, i: nat, n: nat)
    requires i <= n && DecodeVertices(s, at, i).None?
    ensures DecodeVertices(s, at, n).None?
  {
    if i < n {
      VerticesFailureStays(s, at, i, n - 1);
    }
  }

  /**
   * The index section decodes to exactly the indices that were written, and
   * the cursor lands right after the filler.
   */
  lemma IndexSectionAt(s: seq<byte>, at: nat, ix: seq<u16>)
    requires |ix| <= INT32_MAX && BytesAt(s, at, IndexSectionBytes(ix))
    ensures Yields(DecodeIndexSection(s, at), ix, at + |IndexSectionBytes(ix)|)
  {
    var ec, ev, ep := Int32Bytes(|ix|), U16sBytes(ix), IndexPadding(|ix|);
    SplitAt(s, at, ec + ev, ep, at + 4 + 2 * |ix|);
    SplitAt(s, at, ec, ev, at + 4);
    CountRoundTrip(s, at, |ix|);
    U16sRoundTrip(s, at + 4, ix);
  }

  /**
   * The two filler bytes are read past exactly when the count is odd, so
   * the indices are as many as the count says and the field after the
   * section is read where it was written.
   */
  lemma IndexPaddingConsumed(s: seq<byte>, at: nat)
    requires DecodeIndexSection(s, at).Some?
    ensures var n := DecodeCount(s, at).value.value;
            var r := DecodeIndexSection(s, at).value;
            |r.value| == n
            && (n % 2 == 0 ==> r.next == at + 4 + 2 * n)
            && (n % 2 == 1 && at + 4 + 2 * n + 2 <= |s| ==> r.next == at + 4 + 2 * n + 2)
  {
  }

  /** The pointer, the vertex array and the index section, each where the previous one ends. */
  lemma GeometryAt(s: seq<byte>, at: nat, rd: RenderData)
    requires ValidRenderData(rd) && BytesAt(s, at, GeometryBytes(rd))
    ensures Yields(DecodeGeometry(s, at), (rd.texture, rd.vertices, rd.indices), at + |GeometryBytes(rd)|)
  {
    var a4 := at + 12 + 12 * |rd.vertices|;
    GeometrySplit(s, at, rd, a4);
    PPtrAt(s, at, rd.texture);
    CountRoundTrip(s, at + 8, |rd.vertices|);
    VerticesAt(s, at + 12, rd.vertices);
    IndexSectionAt(s, a4, rd.indices);
    GeometrySteps(s, at, rd, a4, at + |GeometryBytes(rd)|);
  }

  /** Where each part of the geometry lies. */
  lemma GeometrySplit(s: seq<byte>, at: nat, rd: RenderData, a4: nat)
    requires ValidRenderData(rd) && BytesAt(s, at, GeometryBytes(rd))
    requires a4 == at + 12 + 12 * |rd.vertices|
    ensures BytesAt(s, at, PPtrBytes(rd.texture))
    ensures BytesAt(s, at + 8, Int32Bytes(|rd.vertices|))
    ensures BytesAt(s, at + 12, VerticesBytes(rd.vertices))
    ensures BytesAt(s, a4, IndexSectionBytes(rd.indices))
  {
    var e1 := PPtrBytes(rd.texture);
    var e2 := Int32Bytes(|rd.vertices|);
    var e3 := VerticesBytes(rd.vertices);
    var e4 := IndexSectionBytes(rd.indices);
    SplitAt(s, at, e1 + e2 + e3, e4, a4);
    SplitAt(s, at, e1 + e2, e3, at + 12);
    SplitAt(s, at, e1, e2, at + 8);
  }

  /** DecodeGeometry succeeds when each of its fields decodes in turn. */
  lemma GeometrySteps(s: seq<byte>, at: nat, rd: RenderData, a4: nat, next: nat)
    requires Yields(DecodePPtr(s, at), rd.texture, at + 8)
    requires Yields(DecodeCount(s, at + 8), |rd.vertices|, at + 12)
    requires Yields(DecodeVertices(s, at + 12, |rd.vertices|), rd.vertices, a4)
    requires Yields(DecodeIndexSection(s, a4), rd.indices, next)
    ensures Yields(DecodeGeometry(s, at), (rd.texture, rd.vertices, rd.indices), next)
  {
  }

  /** The rectangle, the offset, the settings word and the transform, 44 bytes in a row. */
  lemma TrailerAt(s: seq<byte>, at: nat, rd: RenderData)
    requires BytesAt(s, at, TrailerBytes(rd))
    ensures Yields(DecodeTrailer(s, at), (rd.textureRect, rd.textureRectOffset, rd.settingsRaw, rd.uvTransform), at + 44)
  {
    var e5 := RectBytes(rd.textureRect);
    var e6 := Vector2Bytes(rd.textureRectOffset);
    var e7 := U32Bytes(rd.settingsRaw);
    var e8 := Vector4Bytes(rd.uvTransform);
    SplitAt(s, at, e5 + e6 + e7, e8, at + 28);
    SplitAt(s, at, e5 + e6, e7, at + 24);
    SplitAt(s, at, e5, e6, at + 16);
    RectAt(s, at, rd.textureRect);
    Vector2RoundTrip(s, at + 16, rd.textureRectOffset);
    U32RoundTrip(s, at + 24, rd.settingsRaw);
    Vector4RoundTrip(s, at + 28, rd.uvTransform);
  }

  /** DecodeRenderData succeeds when the geometry and then the trailer decode. */
  lemma RenderDataSteps(s: seq<byte>, at: nat, rd: RenderData, mid: nat, next: nat)
    requires Yields(DecodeGeometry(s, at), (rd.texture, rd.vertices, rd.indices), mid)
    requires Yields(DecodeTrailer(s, mid), (rd.textureRect, rd.textureRectOffset, rd.settingsRaw, rd.uvTransform), next)
    ensures Yields(DecodeRenderData(s, at), rd, next)
  {
  }

  /**
   * SpriteRenderData: the encoding, wherever it sits in a stream, decodes to
   * every field that was written, read in the order it was written, and the
   * cursor stops right after it.
   */
  lemma RenderDataRoundTrip(s: seq<byte>, at: nat, rd: RenderData)
    requires ValidRenderData(rd) && BytesAt(s, at, RenderDataBytes(rd))
    ensures Yields(DecodeRenderData(s, at), rd, at + |RenderDataBytes(rd)|)
  {
    var mid := at + |GeometryBytes(rd)|;
    SplitAt(s, at, GeometryBytes(rd), TrailerBytes(rd), mid);
    GeometryAt(s, at, rd);
    TrailerAt(s, mid, rd);
    RenderDataSteps(s, at, rd, mid, at + |RenderDataBytes(rd)|);
  }

  /** The sprite's own fields, 48 bytes after the name, each where the previous one ends. */
  lemma SpriteHeaderAt(s: seq<byte>, at: nat, sp: SpriteData, next: nat)
    requires |sp.name| <= INT32_MAX && BytesAt(s, at, SpriteHeaderBytes(sp))
    requires next == at + |SpriteHeaderBytes(sp)|
    ensures Yields(DecodeSpriteHeader(s, at), (sp.name, sp.rect, sp.offset, sp.border, sp.pixelsToUnits, sp.extrude), next)
  {
    var a2 := at + |NameBytes(sp.name)|;
    SpriteHeaderSplit(s, at, sp, a2);
    NameRoundTrip(s, at, sp.name);
    RectAt(s, a2, sp.rect);
    Vector2RoundTrip(s, a2 + 16, sp.offset);
    Vector4RoundTrip(s, a2 + 24, sp.border);
    U32RoundTrip(s, a2 + 40, sp.pixelsToUnits);
    U32RoundTrip(s, a2 + 44, sp.extrude);
    SpriteHeaderSteps(s, at, sp, a2, next);
  }

  /** Where each field of the sprite header lies. */
  lemma SpriteHeaderSplit(s: seq<byte>, at: nat, sp: SpriteData, a2: nat)
    requires |sp.name| <= INT32_MAX && BytesAt(s, at, SpriteHeaderBytes(sp))
    requires a2 == at + |NameBytes(sp.name)|
    ensures BytesAt(s, at, NameBytes(sp.name))
    ensures BytesAt(s, a2, RectBytes(sp.rect))
    ensures BytesAt(s, a2 + 16, Vector2Bytes(sp.offset))
    ensures BytesAt(s, a2 + 24, Vector4Bytes(sp.border))
    ensures BytesAt(s, a2 + 40, U32Bytes(sp.pixelsToUnits))
    ensures BytesAt(s, a2 + 44, U32Bytes(sp.extrude))
  {
    var e1 := NameBytes(sp.name);
    var e2 := RectBytes(sp.rect);
    var e3 := Vector2Bytes(sp.offset);
    var e4 := Vector4Bytes(sp.border);
    var e5 := U32Bytes(sp.pixelsToUnits);
    var e6 := U32Bytes(sp.extrude);
    SplitAt(s, at, e1 + e2 + e3 + e4 + e5, e6, a2 + 44);
    SplitAt(s, at, e1 + e2 + e3 + e4, e5, a2 + 40);
    SplitAt(s, at, e1 + e2 + e3, e4, a2 + 24);
    SplitAt(s, at, e1 + e2, e3, a2 + 16);
    SplitAt(s, at, e1, e2, a2);
  }

  /** DecodeSpriteHeader succeeds when each of its fields decodes in turn. */
  lemma SpriteHeaderSteps(s: seq<byte>, at: nat, sp: SpriteData, a2: nat, next: nat)
    requires Yields(DecodeName(s, at), sp.name, a2)
    requires Yields(DecodeRect(s, a2), sp.rect, a2 + 16)
    requires Yields(DecodeVector2(s, a2 + 16), sp.offset, a2 + 24)
    requires Yields(DecodeVector4(s, a2 + 24), sp.border, a2 + 40)
    requires Yields(DecodeU32(s, a2 + 40), sp.pixelsToUnits, a2 + 44)
    requires Yields(DecodeU32(s, a2 + 44), sp.extrude, next)
    ensures Yields(DecodeSpriteHeader(s, at), (sp.name, sp.rect, sp.offset, sp.border, sp.pixelsToUnits, sp.extrude), next)
  {
  }

  /**
   * Sprite: name, rect, offset, border, pixelsToUnits and extrude come back,
   * followed by the embedded render data, and the cursor stops right after it.
   */
  lemma SpriteRoundTrip(s: seq<byte>, at: nat, sp: SpriteData)
    requires ValidSprite(sp) && BytesAt(s, at, SpriteBytes(sp))
    ensures Yields(DecodeSprite(s, at), sp, at + |SpriteBytes(sp)|)
  {
    var a := at + |SpriteHeaderBytes(sp)|;
    var b := a + |RenderDataBytes(sp.rd)|;
    SplitAt(s, at, SpriteHeaderBytes(sp), RenderDataBytes(sp.rd), a);
    SpriteHeaderAt(s, at, sp, a);
    RenderDataRoundTrip(s, a, sp.rd);
    SpriteSteps(s, at, sp, a, b);
  }

  /** DecodeSprite succeeds when the header and then the render data decode. */
  lemma SpriteSteps(s: seq<byte>, at: nat, sp: SpriteData, a: nat, b: nat)
    requires Yields(DecodeSpriteHeader(s, at), (sp.name, sp.rect, sp.offset, sp.border, sp.pixelsToUnits, sp.extrude), a)
    requires Yields(DecodeRenderData(s, a), sp.rd, b)
    ensures Yields(DecodeSprite(s, at), sp, b)
  {
  }

  /** An even number of indices, or an odd one and the filler, fills whole 4-byte words. */
  lemma PairsFillWords(n: nat)
    ensures (2 * n + (if n % 2 == 1 then 2 else 0)) % 4 == 0
  {
    var k := n / 2;
    if n % 2 == 1 {
      assert n == 2 * k + 1;
      assert 2 * n + 2 == 4 * (k + 1);
    } else {
      assert n == 2 * k;
      assert 2 * n == 4 * k;
    }
  }

  /** The index section always fills whole 4-byte words. */
  lemma IndexSectionAligned(ix: seq<u16>)
    requires |ix| <= INT32_MAX
    ensures |IndexSectionBytes(ix)| % 4 == 0
  {
    var m := 2 * |ix| + (if |ix| % 2 == 1 then 2 else 0);
    PairsFillWords(|ix|);
    assert |IndexSectionBytes(ix)| == 4 + m;
    WordsAdd(4, m);
  }

  /** Every record keeps the stream 4-byte aligned. */
  lemma RenderDataAligned(rd: RenderData)
    requires ValidRenderData(rd)
    ensures |RenderDataBytes(rd)| % 4 == 0
  {
    var x := |IndexSectionBytes(rd.indices)|;
    var v := 12 * |rd.vertices|;
    IndexSectionAligned(rd.indices);
    assert v == 4 * (3 * |rd.vertices|);
    WordsAdd(12 + v, x);
    assert |RenderDataBytes(rd)| == 12 + v + x + 44;
    WordsAdd(12 + v + x, 44);
  }

  lemma SpriteAligned(sp: SpriteData)
    requires ValidSprite(sp)
    ensures |SpriteBytes(sp)| % 4 == 0
  {
    var n := |NameBytes(sp.name)|;
    var d := |RenderDataBytes(sp.rd)|;
    RenderDataAligned(sp.rd);
    assert n == 4 + |sp.name| + PadA4(|sp.name|);
    PadA4Aligned(|sp.name|);
    WordsAdd(4, |sp.name| + PadA4(|sp.name|));
    assert |SpriteBytes(sp)| == n + 48 + d;
    WordsAdd(n, 48);
    WordsAdd(n + 48, d);
  }

  // ---------------------------------------------------------------------
  // What a successful read consumes

  /**
   * A successful read of render data consumes exactly as many bytes as
   * writing the decoded value produces: the trailer comes after the index
   * filler, so a filler cut short by the end of the stream cannot be part of
   * a successful read.
   */
  lemma {:induction false} RenderDataReadLength(s: seq<byte>, at: nat)
    requires DecodeRenderData(s, at).Some?
    ensures var d := DecodeRenderData(s, at).value;
      ValidRenderData(d.value) && d.next == at + |RenderDataBytes(d.value)|
  {
    var g := DecodeGeometry(s, at).value;
    var t := DecodePPtr(s, at).value;
    var nv := DecodeCount(s, t.next).value;
    var vs := DecodeVertices(s, nv.next, nv.value).value;
    var ni := DecodeCount(s, vs.next).value;
    var ix := DecodeU16s(s, ni.next, ni.value).value;
    var pad := if ni.value % 2 == 1 then 2 else 0;
    assert g.next == Skip(s, ix.next, pad);
    assert g.next + 44 <= |s|;
    assert g.next == ix.next + pad;
    var rd := DecodeRenderData(s, at).value.value;
    assert |rd.vertices| == nv.value && |rd.indices| == ni.value;
    assert |IndexSectionBytes(rd.indices)| == 4 + 2 * ni.value + pad;
  }

  /** A successful read of a sprite's own fields: the name and its filler and 48 bytes more. */
  lemma SpriteHeaderReadLength(s: seq<byte>, at: nat)
    requires DecodeSpriteHeader(s, at).Some?
    ensures var h := DecodeSpriteHeader(s, at).value;
      |h.value.0| <= INT32_MAX && h.next == at + |NameBytes(h.value.0)| + 48
  {
    var name := DecodeName(s, at).value;
    NameReadLength(s, at);
    var rect := DecodeRect(s, name.next).value;
    var offset := DecodeVector2(s, rect.next).value;
    var border := DecodeVector4(s, offset.next).value;
    var pixelsToUnits := DecodeU32(s, border.next).value;
    var extrude := DecodeU32(s, pixelsToUnits.next).value;
    assert DecodeSpriteHeader(s, at).value
        == Decoded((name.value, rect.value, offset.value, border.value, pixelsToUnits.value, extrude.value),
                   extrude.next);
  }

  /** The same for a whole sprite: its own fields, then the render data. */
  lemma {:induction false} SpriteReadLength(s: seq<byte>, at: nat)
    requires DecodeSprite(s, at).Some?
    ensures var d := DecodeSprite(s, at).value;
      ValidSprite(d.value) && d.next == at + |SpriteBytes(d.value)|
  {
    var h := DecodeSpriteHeader(s, at).value;
    SpriteHeaderReadLength(s, at);
    var rd := DecodeRenderData(s, h.next).value;
    RenderDataReadLength(s, h.next);
    var d := DecodeSprite(s, at).value;
    assert d.value.name == h.value.0 && d.value.rd == rd.value && d.next == rd.next;
    assert |SpriteBytes(d.value)| == |SpriteHeaderBytes(d.value)| + |RenderDataBytes(rd.value)|;
  }

  /**
   * Render data written anywhere in a stream, say after what a writer
   * already holds, reads back from where it starts.
   */
  lemma RenderDataDecodesAnywhere(p: seq<byte>, rd: RenderData, q: seq<byte>)
    requires ValidRenderData(rd)
    ensures Yields(DecodeRenderData(p + RenderDataBytes(rd) + q, |p|), rd, |p| + |RenderDataBytes(rd)|)
  {
    BytesAtConcat(p, RenderDataBytes(rd), q);
    RenderDataRoundTrip(p + RenderDataBytes(rd) + q, |p|, rd);
  }

  /** The same for a whole sprite. */
  lemma SpriteDecodesAnywhere(p: seq<byte>, sp: SpriteData, q: seq<byte>)
    requires ValidSprite(sp)
    ensures Yields(DecodeSprite(p + SpriteBytes(sp) + q, |p|), sp, |p| + |SpriteBytes(sp)|)
  {
    BytesAtConcat(p, SpriteBytes(sp), q);
    SpriteRoundTrip(p + SpriteBytes(sp) + q, |p|, sp);
  }
}
