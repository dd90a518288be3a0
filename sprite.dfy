/**
 * The Sprite asset and its parts, as objects read from and written to a
 * stream and cloned into another cabinet.
 *
 * Each class has a function `Value()` giving the serialized content of the
 * object; LoadFrom succeeds exactly when the format's decoder does and leaves
 * the decoded value in the fields, WriteTo appends the format's encoding of
 * `Value()`, and Clone builds new objects with the same value.
 */
module UnityPlugin {
  import opened Wire
  import opened SpriteFormat
  import opened Assets

  class Rectf {
    var x: Single
    var y: Single
    var width: Single
    var height: Single

    constructor ()
    {
    }

    function Value(): (rect: Rect)
      reads this
    {
      Rect(x, y, width, height)
    }

    method LoadFrom(r: Reader) returns (ok: bool)
      modifies this, r
      ensures ok == DecodeRect(r.data, old(r.pos)).Some?
      ensures ok ==> Yields(DecodeRect(r.data, old(r.pos)), Value(), r.pos)
    {
      var a := r.ReadSingle();
      if a.None? { return false; }
      var b := r.ReadSingle();
      if b.None? { return false; }
      var c := r.ReadSingle();
      if c.None? { return false; }
      var d := r.ReadSingle();
      if d.None? { return false; }
      x, y, width, height := a.value, b.value, c.value, d.value;
      ok := true;
    }

    method WriteTo(w: Writer)
      modifies w
      ensures w.data == old(w.data) + RectBytes(Value())
    {
      w.WriteSingle(x);
      w.WriteSingle(y);
      w.WriteSingle(width);
      w.WriteSingle(height);
    }

    method Clone() returns (clone: Rectf)
      ensures fresh(clone) && clone.Value() == Value()
    {
      clone := new Rectf();
      clone.x := x;
      clone.y := y;
      clone.width := width;
      clone.height := height;
    }
  }

  class SpriteVertex {
    var pos: Vector3

    constructor ()
    {
    }

    method LoadFrom(r: Reader) returns (ok: bool)
      modifies this, r
      ensures ok == DecodeVector3(r.data, old(r.pos)).Some?
      ensures ok ==> Yields(DecodeVector3(r.data, old(r.pos)), pos, r.pos)
    {
      var p := r.ReadVector3();
      if p.None? { return false; }
      pos := p.value;
      ok := true;
    }

    method WriteTo(w: Writer)
      modifies w
      ensures w.data == old(w.data) + Vector3Bytes(pos)
    {
      w.WriteVector3(pos);
    }

    method Clone() returns (clone: SpriteVertex)
      ensures fresh(clone) && clone.pos == pos
    {
      clone := new SpriteVertex();
      clone.pos := pos;
    }
  }

  /** The vertex objects of a vertex array. */
  ghost function VertexObjects(a: array<SpriteVertex?>): set<object>
    reads a
  {
    set j | 0 <= j < a.Length && a[j] != null :: a[j] as object
  }

  /** The positions of a filled vertex array, in order. */
  ghost function Positions(a: array<SpriteVertex?>): (ps: seq<Vector3>)
    requires forall j :: 0 <= j < a.Length ==> a[j] != null
    reads a, VertexObjects(a)
    ensures |ps| == a.Length && forall j :: 0 <= j < a.Length ==> ps[j] == a[j].pos
  {
    seq(a.Length, j requires 0 <= j < a.Length && a[j] != null reads a, VertexObjects(a) => a[j].pos)
  }

  /**
   * `n` vertices read one after another into a new array (the loop of
   * SpriteRenderData.LoadFrom); `ps` are their positions.
   */
  method ReadVertices(r: Reader, n: nat) returns (vs: Option<array<SpriteVertex?>>, ghost ps: seq<Vector3>)
    modifies r
    ensures DecodeVertices(r.data, old(r.pos), n).Some? <==> vs.Some?
    ensures vs.Some? ==> fresh(vs.value) && vs.value.Length == n == |ps|
    ensures vs.Some? ==> forall j :: 0 <= j < n ==> vs.value[j] != null && fresh(vs.value[j]) && vs.value[j].pos == ps[j]
    ensures vs.Some? ==> Yields(DecodeVertices(r.data, old(r.pos), n), ps, r.pos)
  {
    ghost var s, p := r.data, r.pos;
    var a := new SpriteVertex?[n];
    ps := [];
    var i := 0;
    while i < n
      modifies r, a
      invariant 0 <= i <= n == a.Length
      invariant |ps| == i && forall j :: 0 <= j < i ==> a[j] != null && fresh(a[j]) && a[j].pos == ps[j]
      invariant Yields(DecodeVertices(s, p, i), ps, r.pos)
    {
      ghost var q := r.pos;
      var v := new SpriteVertex();
      var ok := v.LoadFrom(r);
      if !ok {
        VerticesFailureStays(s, p, i + 1, n);
        return None, ps;
      }
      VerticesStep(s, p, i + 1, ps, v.pos, q, r.pos);
      a[i] := v;
      ps := ps + [v.pos];
      i := i + 1;
    }
    vs := Some(a);
  }

  /** The vertices of an array written one after another (the loop of SpriteRenderData.WriteTo). */
  method WriteVertices(a: array<SpriteVertex?>, w: Writer, ghost ps: seq<Vector3>)
    requires |ps| == a.Length && forall j :: 0 <= j < a.Length ==> a[j] != null && a[j].pos == ps[j]
    modifies w
    ensures w.data == old(w.data) + VerticesBytes(ps)
  {
    var i := 0;
    while i < a.Length
      invariant 0 <= i <= a.Length
      invariant w.data == old(w.data) + VerticesBytes(ps[..i])
    {
      a[i].WriteTo(w);
      assert ps[..i + 1][..i] == ps[..i];
      i := i + 1;
    }
    assert ps[..a.Length] == ps;
  }

  /** Appending pieces one by one appends their concatenation. */
  lemma Concat2(d: seq<byte>, a: seq<byte>, b: seq<byte>)
    ensures d + a + b == d + (a + b)
  {
  }

  lemma Concat3(d: seq<byte>, a: seq<byte>, b: seq<byte>, c: seq<byte>)
    ensures d + a + b + c == d + (a + b + c)
  {
  }

  lemma Concat6(d: seq<byte>, a: seq<byte>, b: seq<byte>, c: seq<byte>, e: seq<byte>, f: seq<byte>, g: seq<byte>)
    ensures d + a + b + c + e + f + g == d + (a + b + c + e + f + g)
  {
  }

  lemma Concat4(d: seq<byte>, a: seq<byte>, b: seq<byte>, c: seq<byte>, e: seq<byte>)
    ensures d + a + b + c + e == d + (a + b + c + e)
  {
  }

  /**
   * The first part of SpriteRenderData.LoadFrom: the texture pointer, the
   * vertex count and vertices, the index count and indices, and the filler
   * after an odd number of indices.  `ps` are the vertex positions.
   */
  method ReadGeometry(r: Reader, file: AssetCabinet)
    returns (g: Option<(PPtr, array<SpriteVertex?>, array<u16>)>, ghost ps: seq<Vector3>)
    modifies r
    ensures DecodeGeometry(r.data, old(r.pos)).Some? <==> g.Some?
    ensures g.Some? ==> fresh(g.value.1) && fresh(g.value.2) && |ps| == g.value.1.Length
    ensures g.Some? ==>
      forall j :: 0 <= j < g.value.1.Length ==> g.value.1[j] != null && fresh(g.value.1[j]) && g.value.1[j].pos == ps[j]
    ensures g.Some? ==> g.value.0.instance == file.Resolve(g.value.0.key)
    ensures g.Some? ==> Yields(DecodeGeometry(r.data, old(r.pos)), (g.value.0.key, ps, g.value.2[..]), r.pos)
  {
    ghost var s, p0 := r.data, r.pos;
    ps := [];
    var texture := ReadPPtr(r, file);
    if texture.None? { return None, ps; }
    var numVertices := r.ReadInt32();
    if numVertices.None? || numVertices.value < 0 { return None, ps; }
    var vertices;
    vertices, ps := ReadVertices(r, numVertices.value);
    if vertices.None? { return None, ps; }
    ghost var p3 := r.pos;
    var numIndices := r.ReadInt32();
    if numIndices.None? || numIndices.value < 0 { return None, ps; }
    var indices := r.ReadUInt16Array(numIndices.value);
    if indices.None? { return None, ps; }
    if numIndices.value % 2 == 1 {
      r.ReadBytes(2);
    }
    assert Yields(DecodeIndexSection(s, p3), indices.value[..], r.pos);
    ghost var rd := RenderData(texture.value.key, ps, indices.value[..],
                               Rect(0, 0, 0, 0), Vector2(0, 0), 0, Vector4(0, 0, 0, 0));
    GeometrySteps(s, p0, rd, p3, r.pos);
    g := Some((texture.value, vertices.value, indices.value));
  }

  /** The second part: the texture rectangle, its offset, the settings word and the UV transform. */
  method ReadTrailer(r: Reader) returns (t: Option<(Rectf, Vector2, u32, Vector4)>)
    modifies r
    ensures DecodeTrailer(r.data, old(r.pos)).Some? <==> t.Some?
    ensures t.Some? ==> fresh(t.value.0)
    ensures t.Some? ==>
      Yields(DecodeTrailer(r.data, old(r.pos)), (t.value.0.Value(), t.value.1, t.value.2, t.value.3), r.pos)
  {
    var textureRect := new Rectf();
    var ok := textureRect.LoadFrom(r);
    if !ok { return None; }
    var textureRectOffset := r.ReadVector2();
    if textureRectOffset.None? { return None; }
    var settingsRaw := r.ReadUInt32();
    if settingsRaw.None? { return None; }
    var uvTransform := r.ReadVector4();
    if uvTransform.None? { return None; }
    t := Some((textureRect, textureRectOffset.value, settingsRaw.value, uvTransform.value));
  }

  class SpriteRenderData {
    var texture: PPtr
    var vertices: array?<SpriteVertex?>
    var indices: array?<u16>
    var textureRect: Rectf?
    var textureRectOffset: Vector2
    var settingsRaw: u32
    var uvTransform: Vector4

    const file: AssetCabinet

    constructor (file: AssetCabinet)
      ensures this.file == file && vertices == null && indices == null && textureRect == null
    {
      this.file := file;
      vertices, indices, textureRect := null, null, null;
    }

    /** Loaded: every array and part is present and fits a C# int length. */
    ghost predicate Valid()
      reads this, vertices
    {
      vertices != null && indices != null && textureRect != null
      && ValidKey(texture.key)
      && vertices.Length <= INT32_MAX && indices.Length <= INT32_MAX
      && forall j :: 0 <= j < vertices.Length ==> vertices[j] != null
    }

    /** The objects the serialized content lives in: this, its arrays, its rectangle and its vertices. */
    ghost function Footprint(): (fp: set<object>)
      requires Valid()
      reads this, vertices
    {
      {this as object, vertices, indices, textureRect} + VertexObjects(vertices)
    }

    ghost function Value(): (rd: RenderData)
      requires Valid()
      reads this, vertices, Footprint()
      ensures ValidRenderData(rd)
    {
      RenderData(texture.key, Positions(vertices), indices[..], textureRect.Value(),
                 textureRectOffset, settingsRaw, uvTransform)
    }

    /** Sets every field at once, as the end of a successful LoadFrom does. */
    method Assign(tex: PPtr, vs: array<SpriteVertex?>, ix: array<u16>, rect: Rectf,
                  offset: Vector2, settings: u32, uv: Vector4, ghost ps: seq<Vector3>)
      requires ValidKey(tex.key) && vs.Length <= INT32_MAX && ix.Length <= INT32_MAX
      requires |ps| == vs.Length && forall j :: 0 <= j < vs.Length ==> vs[j] != null && vs[j].pos == ps[j]
      modifies this
      ensures texture == tex && vertices == vs && indices == ix && textureRect == rect
      ensures Valid() && Value() == RenderData(tex.key, ps, ix[..], rect.Value(), offset, settings, uv)
    {
      texture, vertices, indices, textureRect := tex, vs, ix, rect;
      textureRectOffset, settingsRaw, uvTransform := offset, settings, uv;
      assert Positions(vs) == ps;
    }

    method LoadFrom(r: Reader) returns (ok: bool)
      modifies this, r
      ensures ok == DecodeRenderData(r.data, old(r.pos)).Some?
      ensures ok ==> Valid() && fresh(vertices) && fresh(indices) && fresh(textureRect)
      ensures ok ==> forall j :: 0 <= j < vertices.Length ==> fresh(vertices[j])
      ensures ok ==> texture.instance == file.Resolve(texture.key)
      ensures ok ==> Yields(DecodeRenderData(r.data, old(r.pos)), Value(), r.pos)
    {
      ghost var s, p0 := r.data, r.pos;
      var g, ps := ReadGeometry(r, file);
      if g.None? { return false; }
      ghost var p1 := r.pos;
      var (tex, vs, ix) := g.value;
      ghost var ixs := ix[..];
      var t := ReadTrailer(r);
      if t.None? { return false; }
      var (rect, offset, settings, uv) := t.value;
      ghost var rd := RenderData(tex.key, ps, ixs, rect.Value(), offset, settings, uv);
      RenderDataSteps(s, p0, rd, p1, r.pos);
      Assign(tex, vs, ix, rect, offset, settings, uv, ps);
      ok := true;
    }

    method WriteTo(w: Writer)
      requires Valid()
      modifies w
      ensures w.data == old(w.data) + RenderDataBytes(old(Value()))
    {
      ghost var v := Value();
      ghost var d0 := w.data;
      WritePPtr(texture, w);
      w.WriteInt32(vertices.Length);
      WriteVertices(vertices, w, v.vertices);
      ghost var d1 := w.data;
      Concat3(d0, PPtrBytes(v.texture), Int32Bytes(|v.vertices|), VerticesBytes(v.vertices));
      w.WriteInt32(indices.Length);
      w.WriteUInt16Array(indices);
      if indices.Length % 2 == 1 {
        w.WriteUInt16(0);
      } else {
        assert w.data + IndexPadding(|v.indices|) == w.data;
      }
      ghost var d2 := w.data;
      Concat3(d1, Int32Bytes(|v.indices|), U16sBytes(v.indices), IndexPadding(|v.indices|));
      assert d2 == d1 + IndexSectionBytes(v.indices);
      Concat2(d0, PPtrBytes(v.texture) + Int32Bytes(|v.vertices|) + VerticesBytes(v.vertices),
              IndexSectionBytes(v.indices));
      assert d2 == d0 + GeometryBytes(v);
      textureRect.WriteTo(w);
      w.WriteVector2(textureRectOffset);
      w.WriteUInt32(settingsRaw);
      w.WriteVector4(uvTransform);
      Concat4(d2, RectBytes(v.textureRect), Vector2Bytes(v.textureRectOffset), U32Bytes(v.settingsRaw),
              Vector4Bytes(v.uvTransform));
      assert w.data == d2 + TrailerBytes(v);
      Concat2(d0, GeometryBytes(v), TrailerBytes(v));
    }

    /**
     * A copy owned by `file`: new vertex, index and rectangle objects with the
     * same content, and a pointer to a clone of the texture, if there is one.
     */
    method Clone(file: AssetCabinet) returns (clone: SpriteRenderData)
      requires Valid()
      modifies file.bundle
      ensures fresh(clone) && clone.file == file && clone.Valid()
      ensures fresh(clone.vertices) && fresh(clone.indices) && fresh(clone.textureRect)
      ensures forall j :: 0 <= j < clone.vertices.Length ==> fresh(clone.vertices[j])
      ensures clone.Value() == old(Value()).(texture := NullKey)
      ensures texture.instance == null ==> clone.texture.instance == null
      ensures texture.instance == null ==> file.bundle.updateSet == old(file.bundle.updateSet)
      ensures texture.instance != null ==>
        && clone.texture.instance != null && fresh(clone.texture.instance)
        && clone.texture.instance.m_Name == texture.instance.m_Name
        && clone.texture.instance.file == file
        && file.bundle.updateSet == old(file.bundle.updateSet) + {clone.texture.instance}
      ensures file.bundle.container == old(file.bundle.container)
    {
      ghost var v := Value();
      var c := new SpriteRenderData(file);
      var instance: Texture2D? := null;
      if texture.instance != null {
        instance := texture.instance.Clone(file);
      }
      var vs := new SpriteVertex?[vertices.Length];
      var i := 0;
      while i < vertices.Length
        modifies vs
        invariant 0 <= i <= vertices.Length == vs.Length
        invariant forall j :: 0 <= j < i ==> vs[j] != null && fresh(vs[j]) && vs[j].pos == v.vertices[j]
      {
        var vertex := vertices[i].Clone();
        vs[i] := vertex;
        i := i + 1;
      }
      var source: array<u16> := indices;
      var ix := new u16[source.Length](j requires 0 <= j < source.Length reads source => source[j]);
      assert ix[..] == v.indices;
      var rect := textureRect.Clone();
      c.Assign(PPtrTo(instance), vs, ix, rect, textureRectOffset, settingsRaw, uvTransform, v.vertices);
      clone := c;
    }
  }

  /**
   * The first part of Sprite.LoadFrom: name, rectangle, offset, border,
   * pixels-to-units ratio and extrusion.
   */
  method ReadHeader(r: Reader) returns (h: Option<(seq<byte>, Rectf, Vector2, Vector4, Single, u32)>)
    modifies r
    ensures DecodeSpriteHeader(r.data, old(r.pos)).Some? <==> h.Some?
    ensures h.Some? ==> fresh(h.value.1) && |h.value.0| <= INT32_MAX
    ensures h.Some? ==>
      Yields(DecodeSpriteHeader(r.data, old(r.pos)),
             (h.value.0, h.value.1.Value(), h.value.2, h.value.3, h.value.4, h.value.5), r.pos)
  {
    ghost var s, p0 := r.data, r.pos;
    var name := r.ReadNameA4();
    if name.None? { return None; }
    ghost var p1 := r.pos;
    var rect := new Rectf();
    var ok := rect.LoadFrom(r);
    if !ok { return None; }
    var offset := r.ReadVector2();
    if offset.None? { return None; }
    var border := r.ReadVector4();
    if border.None? { return None; }
    var pixelsToUnits := r.ReadSingle();
    if pixelsToUnits.None? { return None; }
    var extrude := r.ReadUInt32();
    if extrude.None? { return None; }
    ghost var sp := SpriteData(name.value, rect.Value(), offset.value, border.value, pixelsToUnits.value,
                               extrude.value, RenderData(NullKey, [], [], Rect(0, 0, 0, 0), Vector2(0, 0), 0,
                                                         Vector4(0, 0, 0, 0)));
    SpriteHeaderSteps(s, p0, sp, p1, r.pos);
    h := Some((name.value, rect, offset.value, border.value, pixelsToUnits.value, extrude.value));
  }

  /**
   * The bundle bookkeeping after a sprite copy: the texture clone leaves the
   * update set, and the new sprite is listed under the source texture's name
   * and registered for update in its place.
   */
  method ListCopy(bundle: Bundle, textureClone: Texture2D, name: seq<byte>, dest: object)
    modifies bundle
    ensures bundle.container == old(bundle.container) + [BundleEntry(name, Texture2DClass, dest)]
    ensures bundle.updateSet == old(bundle.updateSet) - {textureClone} + {dest}
  {
    bundle.UnregisterFromUpdate(textureClone);
    bundle.AppendComponent(name, Texture2DClass, dest);
    bundle.RegisterForUpdate(dest);
  }

  /** Why Sprite.Clone throws instead of returning. */
  datatype CloneError = TexturelessSprite | InvalidCast

  /** What Sprite.Clone returns: a sprite, null, or the exception it throws. */
  datatype CloneResult = Cloned(sprite: Sprite) | NullSprite | Failed(error: CloneError)

  /** The cast `(Sprite)component`: null stays null, any other class fails. */
  function AsSprite(c: object?): (r: CloneResult)
    ensures r == NullSprite <==> c == null
    ensures r.Cloned? <==> c is Sprite
    ensures r.Cloned? ==> r.sprite == c
    ensures r.Failed? ==> r.error == InvalidCast
  {
    if c == null then NullSprite
    else if c is Sprite then Cloned(c as Sprite)
    else Failed(InvalidCast)
  }

  /**
   * The component a found bundle entry stands for: a placeholder yields its
   * replacement if it has one and otherwise what the cabinet loads for it.
   */
  ghost function Existing(file: AssetCabinet, found: object): (c: object?)
    reads file, found
    ensures !(found is NotLoaded) ==> c == found
  {
    if found is NotLoaded then
      var notLoaded := found as NotLoaded;
      if notLoaded.replacement != null then notLoaded.replacement else file.Stored(notLoaded.pathID)
    else found
  }

  class Sprite {
    var file: AssetCabinet
    var pathID: int
    var classID1: UnityClassID
    var classID2: UnityClassID

    var m_Name: seq<byte>
    var m_Rect: Rectf?
    var m_Offset: Vector2
    var m_Border: Vector4
    var m_PixelsToUnits: Single
    var m_Extrude: u32
    var m_RD: SpriteRenderData?

    constructor (file: AssetCabinet, pathID: int, classID1: UnityClassID, classID2: UnityClassID)
      ensures this.file == file && this.pathID == pathID
      ensures this.classID1 == classID1 && this.classID2 == classID2
      ensures m_Name == [] && m_Rect == null && m_RD == null
    {
      this.file := file;
      this.pathID := pathID;
      this.classID1 := classID1;
      this.classID2 := classID2;
      m_Name, m_Rect, m_RD := [], null, null;
    }

    /** A new, empty sprite appended to the subfiles of `file`. */
    constructor Attached(file: AssetCabinet)
      modifies file
      ensures this.file == file && pathID == 0 && classID1 == SpriteClass && classID2 == SpriteClass
      ensures m_Name == [] && m_Rect == null && m_RD == null
      ensures file.components == old(file.components) + [this]
      ensures file.types == old(file.types) && file.textures == old(file.textures) && file.stored == old(file.stored)
    {
      this.file := file;
      pathID := 0;
      classID1, classID2 := SpriteClass, SpriteClass;
      m_Name, m_Rect, m_RD := [], null, null;
      new;
      file.ReplaceSubfile(-1, this, null);
    }

    /** Loaded: the rectangle and the render data are present and loaded. */
    ghost predicate Valid()
      reads this, m_RD, if m_RD != null then {m_RD.vertices} else {}
    {
      m_Rect != null && m_RD != null && m_RD.Valid() && |m_Name| <= INT32_MAX
    }

    ghost function Value(): (sp: SpriteData)
      requires Valid()
      reads this, m_Rect, m_RD, m_RD.vertices, m_RD.Footprint()
      ensures ValidSprite(sp)
    {
      SpriteData(m_Name, m_Rect.Value(), m_Offset, m_Border, m_PixelsToUnits, m_Extrude, m_RD.Value())
    }

    /** Sets every serialized field at once, as the end of a successful LoadFrom does. */
    method Assign(name: seq<byte>, rect: Rectf, offset: Vector2, border: Vector4, pixelsToUnits: Single,
                  extrude: u32, rd: SpriteRenderData, ghost rdv: RenderData)
      requires |name| <= INT32_MAX && rd.Valid() && rd.Value() == rdv
      modifies this
      ensures file == old(file) && m_Rect == rect && m_RD == rd
      ensures pathID == old(pathID) && classID1 == old(classID1) && classID2 == old(classID2)
      ensures Valid() && Value() == SpriteData(name, rect.Value(), offset, border, pixelsToUnits, extrude, rdv)
    {
      assert this !in rd.Footprint();
      m_Name, m_Rect, m_Offset, m_Border := name, rect, offset, border;
      m_PixelsToUnits, m_Extrude, m_RD := pixelsToUnits, extrude, rd;
    }

    method LoadFrom(r: Reader) returns (ok: bool)
      modifies this, r
      ensures ok == DecodeSprite(r.data, old(r.pos)).Some?
      ensures file == old(file) && pathID == old(pathID) && classID1 == old(classID1) && classID2 == old(classID2)
      ensures ok ==> Valid() && fresh(m_Rect) && fresh(m_RD) && m_RD.file == file
      ensures ok ==> m_RD.texture.instance == file.Resolve(m_RD.texture.key)
      ensures ok ==> Yields(DecodeSprite(r.data, old(r.pos)), Value(), r.pos)
    {
      ghost var s, p0 := r.data, r.pos;
      var h := ReadHeader(r);
      if h.None? { return false; }
      ghost var p1 := r.pos;
      var (name, rect, offset, border, pixelsToUnits, extrude) := h.value;
      ghost var rectValue := rect.Value();
      var rd := new SpriteRenderData(file);
      ok := rd.LoadFrom(r);
      if !ok { return; }
      ghost var sp := SpriteData(name, rectValue, offset, border, pixelsToUnits, extrude, rd.Value());
      SpriteSteps(s, p0, sp, p1, r.pos);
      Assign(name, rect, offset, border, pixelsToUnits, extrude, rd, sp.rd);
    }

    method WriteTo(w: Writer)
      requires Valid()
      modifies w
      ensures w.data == old(w.data) + SpriteBytes(old(Value()))
    {
      assert w !in m_RD.Footprint();
      ghost var v := Value();
      ghost var d0 := w.data;
      w.WriteNameA4(m_Name);
      m_Rect.WriteTo(w);
      w.WriteVector2(m_Offset);
      w.WriteVector4(m_Border);
      w.WriteSingle(m_PixelsToUnits);
      w.WriteUInt32(m_Extrude);
      ghost var d1 := w.data;
      assert d1 == d0 + NameBytes(v.name) + RectBytes(v.rect) + Vector2Bytes(v.offset) + Vector4Bytes(v.border)
                   + U32Bytes(v.pixelsToUnits) + U32Bytes(v.extrude);
      Concat6(d0, NameBytes(v.name), RectBytes(v.rect), Vector2Bytes(v.offset), Vector4Bytes(v.border),
              U32Bytes(v.pixelsToUnits), U32Bytes(v.extrude));
      assert d1 == d0 + SpriteHeaderBytes(v);
      assert m_RD.Value() == v.rd;
      m_RD.WriteTo(w);
      Concat2(d0, SpriteHeaderBytes(v), RenderDataBytes(v.rd));
    }

    /** Copies of the rectangle and the render data (whose texture is cloned) for `file`. */
    method CloneParts(file: AssetCabinet) returns (rect: Rectf, rd: SpriteRenderData)
      requires Valid() && m_RD.texture.instance != null
      modifies file.bundle
      ensures fresh(rect) && rect.Value() == m_Rect.Value()
      ensures fresh(rd) && rd.Valid() && rd.file == file
      ensures rd.Value() == old(m_RD.Value()).(texture := NullKey)
      ensures rd.texture.instance != null && fresh(rd.texture.instance)
      ensures rd.texture.instance.m_Name == m_RD.texture.instance.m_Name && rd.texture.instance.file == file
      ensures file.bundle.updateSet == old(file.bundle.updateSet) + {rd.texture.instance}
      ensures file.bundle.container == old(file.bundle.container)
    {
      assert file.bundle !in m_RD.Footprint();
      rect := m_Rect.Clone();
      rd := m_RD.Clone(file);
    }

    /**
     * Lines up a new sprite in `file` with copies of every part of this one:
     * the type definition is merged, the new sprite is appended to the
     * cabinet, its texture is cloned, and the bundle lists the new sprite
     * under the source texture's name and registers it, rather than the
     * texture clone, for update.
     */
    method CopyInto(file: AssetCabinet) returns (dest: Sprite)
      requires Valid() && m_RD.texture.instance != null
      modifies file, file.bundle
      ensures fresh(dest) && dest.Valid() && fresh(dest.m_Rect) && fresh(dest.m_RD)
      ensures dest.file == file && dest.pathID == 0
      ensures dest.classID1 == SpriteClass && dest.classID2 == SpriteClass
      ensures dest.m_RD.file == file
      ensures dest.Value() == old(Value()).(rd := old(Value()).rd.(texture := NullKey))
      ensures dest.m_RD.texture.instance != null && fresh(dest.m_RD.texture.instance)
      ensures dest.m_RD.texture.instance.m_Name == m_RD.texture.instance.m_Name
      ensures dest.m_RD.texture.instance.file == file
      ensures file.types == old(file.types) + {SpriteClass}
      ensures file.components == old(file.components) + [dest]
      ensures file.textures == old(file.textures) && file.stored == old(file.stored)
      ensures file.bundle.container
              == old(file.bundle.container) + [BundleEntry(m_RD.texture.instance.m_Name, Texture2DClass, dest)]
      ensures file.bundle.updateSet == old(file.bundle.updateSet) + {dest}
    {
      assert file !in m_RD.Footprint() && file.bundle !in m_RD.Footprint();
      file.MergeTypeDefinition(this.file, SpriteClass);
      dest := new Sprite.Attached(file);
      dest.FillFrom(this, file);
    }

    /** Fills this new sprite with copies of the parts of `source` and lists it in the bundle of `file`. */
    method FillFrom(source: Sprite, file: AssetCabinet)
      requires source.Valid() && source.m_RD.texture.instance != null
      requires this != source && this !in source.m_RD.Footprint() && file.bundle !in source.m_RD.Footprint()
      modifies this, file.bundle
      ensures Valid() && fresh(m_Rect) && fresh(m_RD) && m_RD.file == file
      ensures this.file == old(this.file) && pathID == old(pathID)
      ensures classID1 == old(classID1) && classID2 == old(classID2)
      ensures Value() == old(source.Value()).(rd := old(source.Value()).rd.(texture := NullKey))
      ensures m_RD.texture.instance != null && fresh(m_RD.texture.instance)
      ensures m_RD.texture.instance.m_Name == source.m_RD.texture.instance.m_Name
      ensures m_RD.texture.instance.file == file
      ensures file.bundle.container
              == old(file.bundle.container) + [BundleEntry(source.m_RD.texture.instance.m_Name, Texture2DClass, this)]
      ensures file.bundle.updateSet == old(file.bundle.updateSet) + {this}
    {
      ghost var v := source.Value();
      var texture: Texture2D := source.m_RD.texture.instance;
      var rect, rd := source.CloneParts(file);
      ghost var rdv := rd.Value();
      assert file.bundle !in rd.Footprint();
      ListCopy(file.bundle, rd.texture.instance, texture.m_Name, this);
      assert rd.Valid() && rd.Value() == rdv;
      Assign(source.m_Name, rect, source.m_Offset, source.m_Border, source.m_PixelsToUnits, source.m_Extrude, rd, rdv);
    }

    /**
     * A copy of this sprite for `file`.  If the destination bundle already has
     * a sprite of this name, that one is returned (through its placeholder
     * when it has not been loaded) and nothing changes.  Otherwise a textured
     * sprite is copied into `file`; a sprite without a texture cannot be.
     */
    method Clone(file: AssetCabinet) returns (res: CloneResult)
      requires file.bundle.FindComponent(m_Name, SpriteClass) == null ==>
        m_RD != null && (m_RD.texture.instance != null ==> Valid())
      modifies file, file.bundle
      ensures var found := old(file.bundle.FindComponent(m_Name, SpriteClass));
        found != null ==> res == AsSprite(old(Existing(file, found))) && unchanged(file, file.bundle)
      ensures var found := old(file.bundle.FindComponent(m_Name, SpriteClass));
        found != null && found is Sprite ==> res == Cloned(found as Sprite)
      ensures var found := old(file.bundle.FindComponent(m_Name, SpriteClass));
        found != null && !(found is Sprite) && !(found is NotLoaded) ==> res == Failed(InvalidCast)
      ensures var found := old(file.bundle.FindComponent(m_Name, SpriteClass));
        found == null && m_RD.texture.instance == null ==>
          res == Failed(TexturelessSprite) && unchanged(file, file.bundle)
      ensures var found := old(file.bundle.FindComponent(m_Name, SpriteClass));
        found == null && m_RD.texture.instance != null ==>
          && res.Cloned? && fresh(res.sprite) && res.sprite.Valid()
          && fresh(res.sprite.m_Rect) && fresh(res.sprite.m_RD)
          && res.sprite.file == file && res.sprite.pathID == 0
          && res.sprite.classID1 == SpriteClass && res.sprite.classID2 == SpriteClass
          && res.sprite.m_RD.file == file
          && res.sprite.Value() == old(Value()).(rd := old(Value()).rd.(texture := NullKey))
          && res.sprite.m_RD.texture.instance != null && fresh(res.sprite.m_RD.texture.instance)
          && res.sprite.m_RD.texture.instance.m_Name == m_RD.texture.instance.m_Name
          && res.sprite.m_RD.texture.instance.file == file
          && file.types == old(file.types) + {SpriteClass}
          && file.components == old(file.components) + [res.sprite]
          && file.textures == old(file.textures) && file.stored == old(file.stored)
          && file.bundle.container
             == old(file.bundle.container) + [BundleEntry(m_RD.texture.instance.m_Name, Texture2DClass, res.sprite)]
          && file.bundle.updateSet == old(file.bundle.updateSet) + {res.sprite}
      // The copy is listed under class Texture2D, so the lookup of a later
      // Clone of this sprite still finds nothing and makes another copy.
      ensures old(file.bundle.FindComponent(m_Name, SpriteClass)) == null ==>
        file.bundle.FindComponent(m_Name, SpriteClass) == null
    {
      var sprite := file.bundle.FindComponent(m_Name, SpriteClass);
      if sprite == null {
        if m_RD.texture.instance == null {
          return Failed(TexturelessSprite);
        }
        ghost var es := file.bundle.container;
        var dest := CopyInto(file);
        FirstMatchSkips(es, BundleEntry(m_RD.texture.instance.m_Name, Texture2DClass, dest), m_Name, SpriteClass);
        return Cloned(dest);
      }
      var found: object := sprite;
      if found is NotLoaded {
        var notLoaded := found as NotLoaded;
        if notLoaded.replacement != null {
          sprite := notLoaded.replacement;
        } else {
          sprite := file.LoadComponent(notLoaded);
        }
      }
      res := AsSprite(sprite);
    }
  }
}
