/**
 * The parts of the asset cabinet and bundle that Sprite code talks to.
 *
 * Only the calls Sprite makes are modelled, each with the effect the Sprite
 * code relies on: a bundle's container is a list of (name, class, asset)
 * entries searched from the front, the update set is a set of objects, a
 * cabinet keeps its subfiles in order and resolves texture pointers through a
 * table.  Components are plain objects: the Sprite code tells them apart with
 * run-time type tests, and so does the model.
 */
module Assets {
  import opened Wire
  import opened SpriteFormat

  /** The class identifiers Sprite code names; every other one is Other. */
  datatype UnityClassID = SpriteClass | Texture2DClass | OtherClass(id: int)

  /** A texture; only its name and owning cabinet matter to a sprite. */
  class Texture2D {
    const m_Name: seq<byte>
    const file: AssetCabinet

    constructor (name: seq<byte>, file: AssetCabinet)
      ensures m_Name == name && this.file == file
    {
      m_Name := name;
      this.file := file;
    }

    /**
     * A copy owned by `file`: a new texture with the same name, registered
     * with the destination bundle for update.  The destination's container
     * and cabinet tables are left alone.
     */
    method Clone(file: AssetCabinet) returns (t: Texture2D)
      modifies file.bundle
      ensures fresh(t) && t.m_Name == m_Name && t.file == file
      ensures file.bundle.updateSet == old(file.bundle.updateSet) + {t}
      ensures file.bundle.container == old(file.bundle.container)
    {
      t := new Texture2D(m_Name, file);
      file.bundle.RegisterForUpdate(t);
    }
  }

  /** A texture pointer: the serialized key and the texture it stands for, if any. */
  datatype PPtr = PPtr(key: PPtrKey, instance: Texture2D?)

  /** The key of a pointer built from an instance rather than read from a stream. */
  const NullKey: PPtrKey := PPtrKey(0, 0)

  /** `new PPtr<Texture2D>(instance)`. */
  function PPtrTo(t: Texture2D?): (p: PPtr)
    ensures p.instance == t && ValidKey(p.key)
  {
    PPtr(NullKey, t)
  }

  /** `new PPtr<Texture2D>(stream, file)`: two int32 words, resolved in `file`. */
  method ReadPPtr(r: Reader, file: AssetCabinet) returns (p: Option<PPtr>)
    modifies r
    ensures DecodePPtr(r.data, old(r.pos)).Some? <==> p.Some?
    ensures p.Some? ==> Yields(DecodePPtr(r.data, old(r.pos)), p.value.key, r.pos)
    ensures p.Some? ==> p.value.instance == file.Resolve(p.value.key)
  {
    var fileID := r.ReadInt32();
    if fileID.None? { return None; }
    var pathID := r.ReadInt32();
    if pathID.None? { return None; }
    var key := PPtrKey(fileID.value, pathID.value);
    p := Some(PPtr(key, file.Resolve(key)));
  }

  /** `PPtr.WriteTo`: the key's two words. */
  method WritePPtr(p: PPtr, w: Writer)
    requires ValidKey(p.key)
    modifies w
    ensures w.data == old(w.data) + PPtrBytes(p.key)
  {
    w.WriteInt32(p.key.fileID);
    w.WriteInt32(p.key.pathID);
  }

  datatype BundleEntry = BundleEntry(name: seq<byte>, cls: UnityClassID, asset: object)

  predicate Matches(e: BundleEntry, name: seq<byte>, cls: UnityClassID)
  {
    e.name == name && e.cls == cls
  }

  /** The asset of the first entry with this name and class, or null when there is none. */
  function FirstMatch(es: seq<BundleEntry>, name: seq<byte>, cls: UnityClassID): (r: object?)
    ensures r == null <==> forall i :: 0 <= i < |es| ==> !Matches(es[i], name, cls)
    ensures r != null ==>
      exists i :: 0 <= i < |es| && Matches(es[i], name, cls) && es[i].asset == r
        && forall j :: 0 <= j < i ==> !Matches(es[j], name, cls)
  {
    if |es| == 0 then null
    else if Matches(es[0], name, cls) then es[0].asset
    else
      var r := FirstMatch(es[1..], name, cls);
      assert forall i :: 1 <= i < |es| ==> es[i] == es[1..][i - 1];
      r
  }

  /**
   * An entry that does not match the lookup does not change its answer when
   * it is appended: in particular a copy listed under class Texture2D is
   * never what a Sprite lookup finds.
   */
  lemma {:induction false} FirstMatchSkips(es: seq<BundleEntry>, e: BundleEntry, name: seq<byte>, cls: UnityClassID)
    requires !Matches(e, name, cls)
    ensures FirstMatch(es + [e], name, cls) == FirstMatch(es, name, cls)
  {
    if |es| > 0 && !Matches(es[0], name, cls) {
      assert (es + [e])[1..] == es[1..] + [e];
      FirstMatchSkips(es[1..], e, name, cls);
    }
  }

  class Bundle {
    var container: seq<BundleEntry>
    var updateSet: set<object>

    constructor ()
      ensures container == [] && updateSet == {}
    {
      container := [];
      updateSet := {};
    }

    /** The first listed asset with this name and class; null when none is listed. */
    function FindComponent(name: seq<byte>, cls: UnityClassID): (r: object?)
      reads this
      ensures r == null <==> forall i :: 0 <= i < |container| ==> !Matches(container[i], name, cls)
      ensures r != null ==> exists i :: 0 <= i < |container| && Matches(container[i], name, cls) && container[i].asset == r
    {
      FirstMatch(container, name, cls)
    }

    method AppendComponent(name: seq<byte>, cls: UnityClassID, asset: object)
      modifies this
      ensures container == old(container) + [BundleEntry(name, cls, asset)]
      ensures updateSet == old(updateSet)
    {
      container := container + [BundleEntry(name, cls, asset)];
    }

    method RegisterForUpdate(asset: object)
      modifies this
      ensures updateSet == old(updateSet) + {asset}
      ensures container == old(container)
    {
      updateSet := updateSet + {asset};
    }

    method UnregisterFromUpdate(asset: object)
      modifies this
      ensures updateSet == old(updateSet) - {asset}
      ensures container == old(container)
    {
      updateSet := updateSet - {asset};
    }
  }

  /** A placeholder for a component whose data has not been read yet. */
  class NotLoaded {
    const pathID: int
    const classID: UnityClassID
    var replacement: object?

    constructor (pathID: int, classID: UnityClassID)
      ensures this.pathID == pathID && this.classID == classID && replacement == null
    {
      this.pathID := pathID;
      this.classID := classID;
      replacement := null;
    }
  }

  class AssetCabinet {
    const bundle: Bundle
    /** The class identifiers whose type definitions the cabinet holds. */
    var types: set<UnityClassID>
    /** The subfiles, in order. */
    var components: seq<object>
    /** What each texture pointer key resolves to. */
    var textures: map<PPtrKey, Texture2D>
    /** What loading the placeholder with each path id produces. */
    var stored: map<int, object>

    constructor (bundle: Bundle)
      ensures this.bundle == bundle
      ensures types == {} && components == [] && textures == map[] && stored == map[]
    {
      this.bundle := bundle;
      types := {};
      components := [];
      textures := map[];
      stored := map[];
    }

    /** The texture a key stands for; null for a key the table does not hold. */
    function Resolve(k: PPtrKey): (t: Texture2D?)
      reads this
      ensures t != null <==> k in textures
      ensures t != null ==> t == textures[k]
    {
      if k in textures then textures[k] else null
    }

    /** The component stored under a path id; null for an id the cabinet does not hold. */
    function Stored(pathID: int): (c: object?)
      reads this
      ensures c != null <==> pathID in stored
      ensures c != null ==> c == stored[pathID]
    {
      if pathID in stored then stored[pathID] else null
    }

    /** Takes over the type definition of `cls` from `source`. */
    method MergeTypeDefinition(source: AssetCabinet, cls: UnityClassID)
      modifies this
      ensures types == old(types) + {cls}
      ensures components == old(components) && textures == old(textures) && stored == old(stored)
    {
      types := types + {cls};
    }

    /** With index -1 and nothing replaced: appends `c` to the subfiles. */
    method ReplaceSubfile(index: int, c: object, replaced: object?)
      requires index == -1 && replaced == null
      modifies this
      ensures components == old(components) + [c]
      ensures types == old(types) && textures == old(textures) && stored == old(stored)
    {
      components := components + [c];
    }

    /** Reads the component a placeholder stands for; null when it cannot. */
    method LoadComponent(notLoaded: NotLoaded) returns (c: object?)
      ensures c == Stored(notLoaded.pathID)
    {
      c := Stored(notLoaded.pathID);
    }
  }
}
