# Sprite assets of the UnityBase plugin, modelled in Dafny

This project models `Plugins/UnityBase/unity3d/Sprite.cs`, a file of the
asset-container plugin. A `Sprite` is a serialized Unity asset: a name, a
rectangle, an offset, a border, a pixels-to-units ratio, an extrusion word
and one embedded `SpriteRenderData`. The render data holds:
- a pointer to a texture;
- an array of `SpriteVertex` positions;
- an array of 16-bit indices;
- a texture rectangle, an offset, a settings word and a UV transform.

The file has three jobs, and the model keeps all three.

1. **Codec.** `Rectf`, `SpriteVertex`, `SpriteRenderData` and `Sprite` each
   read their fields from a stream in a fixed order (`LoadFrom`) and write them
   back in the same order (`WriteTo`).
   - Arrays carry an int32 count.
   - After an odd number of indices come two filler bytes, which keep the
     record 4-byte aligned.
   - Names are length-prefixed and padded to a 4-byte boundary.
2. **Value clones.** `Rectf.Clone`, `SpriteVertex.Clone` and
   `SpriteRenderData.Clone` copy every field into new objects. The render
   data's clone gets a clone of the texture, or a null pointer when it has no
   texture.
3. **`Sprite.Clone(file)`**, a copy into another cabinet that first looks for a
   sprite of the same name already listed there:
   - If the destination bundle already lists a sprite of this name, that sprite
     is returned. When the entry is a not-yet-loaded placeholder, its
     replacement or its loaded component is returned instead.
   - Otherwise a sprite without a texture is refused.
   - A sprite with a texture is copied. The type definition is merged, a new
     sprite is appended to the cabinet and its parts are copied. Then the
     texture clone leaves the update set, and the new sprite is listed and
     registered in its place.

Layout:
- `wire.dfy` (module `Wire`): byte-level encodings of the stream primitives,
  which are little-endian words, int32 in two's complement, vectors and
  padded names. It also holds their decoders and round-trip lemmas, and the
  `Reader` (a byte sequence with a cursor) and `Writer` (an append-only byte
  sequence) classes that stand for `BinaryReader` and `BinaryWriter`.
- `sprite_format.dfy` (module `SpriteFormat`): the serialized content of each
  record as a datatype. It gives, for every record, the encoding (what
  `WriteTo` produces) and the decoding (what `LoadFrom` accepts) as pure
  functions, and proves round trips, the index-filler rules, alignment, and
  that a successful read consumes exactly the encoding of what it read.
- `assets.dfy` (module `Assets`): the collaborators Sprite code calls. These
  are the bundle's container and update set, the cabinet's type table,
  subfiles, texture table and stored components, `NotLoaded` placeholders,
  textures and texture pointers. Each is modelled with the effect Sprite code
  relies on.
- `sprite.dfy` (module `UnityPlugin`): the four classes of `Sprite.cs` as
  Dafny classes with the same fields. Each has a ghost `Value()`, its content
  as a `SpriteFormat` datatype. Its methods are proved against the format
  functions:
  - `LoadFrom` succeeds exactly when the decoder does, and leaves the decoded
    value in the fields;
  - `WriteTo` appends the encoding of `Value()`;
  - `Clone` produces new objects with the same value.

Four behaviours of the code that the model keeps as written:
- The render data clone of a texture-less render data is a null pointer, not
  an error (line 160).
- After a fresh copy, the bundle lists the new sprite under the source
  texture's name with class Texture2D (line 251). It does not bind the
  texture under the sprite's name.
- The filler after an odd number of indices is skipped whatever its value.
  A filler cut short by the end of the stream is not by itself an error
  (line 124). The trailer read that follows then fails, which
  `SpriteFormat.RenderDataReadLength` makes precise.
- Because the copy is listed with class Texture2D, `Sprite.Clone` does not
  deduplicate its own copies under the modelled `FindComponent`, which
  compares the class an entry was listed with. The lookup of line 232 asks for the sprite's name with class
  Sprite, so a second clone of the same sprite into the same cabinet makes
  a second copy (`Assets.FirstMatchSkips`, and the last postcondition of
  `UnityPlugin.Sprite.Clone`).

## Model

| member | source | states |
|---|---|---|
| Wire.PadA4Aligned | Plugins/UnityBase/unity3d/Sprite.cs:209 | the filler after a name brings it to a whole number of 4-byte words, and is empty exactly when the name already fills whole words |
| Wire.DecodeCount | Plugins/UnityBase/unity3d/Sprite.cs:113 | an array count is read exactly when four bytes are left and they hold a non-negative int32; it then fits a C# int |
| Wire.DecodeName | Plugins/UnityBase/unity3d/Sprite.cs:209 | a name read succeeds only within the stream, consumes at least its count word, and yields at most int.MaxValue bytes |
| Wire.NameRoundTrip | Plugins/UnityBase/unity3d/Sprite.cs:209 | reading a name where WriteNameA4 (line 221) wrote it gives back the name and stops right after its filler |
| Wire.NameKeepsAlignment | Plugins/UnityBase/unity3d/Sprite.cs:209 | every successful name read advances the cursor by a multiple of 4 bytes |
| Wire.NameReadLength | Plugins/UnityBase/unity3d/Sprite.cs:209 | a name read back is as long as its count and consumes exactly what writing that name produces |
| Wire.DecodeU16s | Plugins/UnityBase/unity3d/Sprite.cs:121 | reading n ushort values succeeds exactly when 2n bytes are left, and yields n values |
| Wire.U16RoundTrip | Plugins/UnityBase/unity3d/Sprite.cs:121 | a ushort read where one was written gives it back |
| Wire.U32RoundTrip | Plugins/UnityBase/unity3d/Sprite.cs:28-31 | a 32-bit word (a float or a uint) read where one was written gives it back |
| Wire.Int32RoundTrip | Plugins/UnityBase/unity3d/Sprite.cs:113 | an int32 read where one was written gives it back, negative values included |
| Wire.CountRoundTrip | Plugins/UnityBase/unity3d/Sprite.cs:120 | a non-negative count read where it was written gives it back |
| Wire.Vector2RoundTrip | Plugins/UnityBase/unity3d/Sprite.cs:128 | a Vector2 read where one was written gives it back |
| Wire.Vector3RoundTrip | Plugins/UnityBase/unity3d/Sprite.cs:68 | a Vector3 read where one was written gives it back |
| Wire.Vector4RoundTrip | Plugins/UnityBase/unity3d/Sprite.cs:130 | a Vector4 read where one was written gives it back |
| Wire.U16sRoundTrip | Plugins/UnityBase/unity3d/Sprite.cs:121 | ReadUInt16Array of a count's worth of values written by Write(ushort[]) (line 145) gives them back in order |
| Wire.U16sFailureStays | Plugins/UnityBase/unity3d/Sprite.cs:121 | once the i-th value of an array cannot be read, no longer array can be read either |
| Wire.BytesAtConcat | Plugins/UnityBase/unity3d/Sprite.cs:133-155 | an encoding appended to what a stream already holds sits right after it, whatever follows, so the round trips apply to what a writer produces |
| Wire.Skip | Plugins/UnityBase/unity3d/Sprite.cs:124 | skipping never moves the cursor back or past the end of the stream, and advances by the full count when the bytes are there |
| Wire.Int32Word | Plugins/UnityBase/unity3d/Sprite.cs:138 | the bit pattern written for an int32 reads back as the same int32 |
| Wire.NameBytes | Plugins/UnityBase/unity3d/Sprite.cs:221 | a written name is its count word, the name's bytes right after it, and filler to the next 4-byte boundary |
| Wire.U16sBytes | Plugins/UnityBase/unity3d/Sprite.cs:145 | an array of n ushort values is written as exactly 2n bytes |
| Wire.Reader.ReadSingle | Plugins/UnityBase/unity3d/Sprite.cs:28 | succeeds exactly when the decoder does and moves the cursor to where the decoder stops |
| Wire.Reader.ReadInt32 | Plugins/UnityBase/unity3d/Sprite.cs:113 | as ReadSingle, for a signed int32 |
| Wire.Reader.ReadUInt16 | Plugins/UnityBase/unity3d/Sprite.cs:121 | as ReadSingle, for a ushort |
| Wire.Reader.ReadUInt32 | Plugins/UnityBase/unity3d/Sprite.cs:129 | as ReadSingle, for a uint |
| Wire.Reader.ReadVector2 | Plugins/UnityBase/unity3d/Sprite.cs:128 | as ReadSingle, for two words |
| Wire.Reader.ReadVector3 | Plugins/UnityBase/unity3d/Sprite.cs:68 | as ReadSingle, for three words |
| Wire.Reader.ReadVector4 | Plugins/UnityBase/unity3d/Sprite.cs:130 | as ReadSingle, for four words |
| Wire.Reader.ReadNameA4 | Plugins/UnityBase/unity3d/Sprite.cs:209 | as ReadSingle, for a padded name |
| Wire.Reader.ReadUInt16Array | Plugins/UnityBase/unity3d/Sprite.cs:121 | a new array holding the n values the decoder yields, or failure exactly when the decoder fails |
| Wire.Reader.ReadBytes | Plugins/UnityBase/unity3d/Sprite.cs:124 | the cursor moves as Skip says; the bytes are discarded |
| Wire.Writer.WriteSingle | Plugins/UnityBase/unity3d/Sprite.cs:37 | appends the word's four little-endian bytes and nothing else |
| Wire.Writer.WriteInt32 | Plugins/UnityBase/unity3d/Sprite.cs:138 | appends the two's-complement bytes of an int32 |
| Wire.Writer.WriteUInt16 | Plugins/UnityBase/unity3d/Sprite.cs:148 | appends the two bytes of a ushort |
| Wire.Writer.WriteUInt32 | Plugins/UnityBase/unity3d/Sprite.cs:153 | appends the four bytes of a uint |
| Wire.Writer.WriteVector2 | Plugins/UnityBase/unity3d/Sprite.cs:152 | appends the vector's two words |
| Wire.Writer.WriteVector3 | Plugins/UnityBase/unity3d/Sprite.cs:74 | appends the vector's three words |
| Wire.Writer.WriteVector4 | Plugins/UnityBase/unity3d/Sprite.cs:154 | appends the vector's four words |
| Wire.Writer.WriteNameA4 | Plugins/UnityBase/unity3d/Sprite.cs:221 | appends the name's count, bytes and zero filler |
| Wire.Writer.WriteUInt16Array | Plugins/UnityBase/unity3d/Sprite.cs:145 | appends every value of the array, in order, without a count |
| SpriteFormat.PPtrBytes | Plugins/UnityBase/unity3d/Sprite.cs:136 | a texture pointer is written as exactly 8 bytes |
| SpriteFormat.DecodePPtr | Plugins/UnityBase/unity3d/Sprite.cs:111 | a texture pointer is read exactly when 8 bytes are left, and its two words are int32 values |
| SpriteFormat.PPtrAt | Plugins/UnityBase/unity3d/Sprite.cs:111-136 | reading a texture pointer where one was written gives back its key and stops 8 bytes on |
| SpriteFormat.RectBytes | Plugins/UnityBase/unity3d/Sprite.cs:34-41 | a rectangle is written as exactly 16 bytes |
| SpriteFormat.DecodeRect | Plugins/UnityBase/unity3d/Sprite.cs:25-32 | a rectangle is read exactly when 16 bytes are left, and the read consumes 16 bytes |
| SpriteFormat.RectAt | Plugins/UnityBase/unity3d/Sprite.cs:25-41 | reading a rectangle where one was written restores x, y, width and height, and stops 16 bytes on |
| SpriteFormat.VerticesBytes | Plugins/UnityBase/unity3d/Sprite.cs:139-142 | n vertices are written as exactly 12n bytes |
| SpriteFormat.DecodeVertices | Plugins/UnityBase/unity3d/Sprite.cs:113-118 | n vertices are read exactly when 12n bytes are left, and the read yields n positions |
| SpriteFormat.VerticesAt | Plugins/UnityBase/unity3d/Sprite.cs:113-118 | reading the count's worth of vertices where they were written gives back every position in order |
| SpriteFormat.VerticesStep | Plugins/UnityBase/unity3d/Sprite.cs:115-118 | reading one more vertex after i vertices extends the decoded positions by that vertex, which is what one loop turn does |
| SpriteFormat.VerticesFailureStays | Plugins/UnityBase/unity3d/Sprite.cs:115-118 | a vertex that cannot be read makes the whole vertex array unreadable |
| SpriteFormat.IndexPadding | Plugins/UnityBase/unity3d/Sprite.cs:146-149 | the filler after the indices is two zero bytes when the count is odd and nothing when it is even |
| SpriteFormat.IndexSectionBytes | Plugins/UnityBase/unity3d/Sprite.cs:144-149 | the index section is the count word, two bytes per index, and two more bytes exactly when the count is odd |
| SpriteFormat.IndexSectionAt | Plugins/UnityBase/unity3d/Sprite.cs:120-125 | reading an index section where one was written gives back exactly the indices, without the filler, and stops at the end of the section |
| SpriteFormat.IndexPaddingConsumed | Plugins/UnityBase/unity3d/Sprite.cs:122-125 | a successful index-section read yields as many indices as the count says, stops right after them for an even count, and two bytes later for an odd count when those bytes are there |
| SpriteFormat.DecodeIndexSection | Plugins/UnityBase/unity3d/Sprite.cs:120-125 | a successful index-section read yields at most int.MaxValue indices, stays within the stream and consumes at least the count word and two bytes per index |
| SpriteFormat.PairsFillWords | Plugins/UnityBase/unity3d/Sprite.cs:146-149 | indices plus filler always take a whole number of 4-byte words |
| SpriteFormat.IndexSectionAligned | Plugins/UnityBase/unity3d/Sprite.cs:144-149 | the whole index section is 4-byte aligned |
| SpriteFormat.GeometryBytes | Plugins/UnityBase/unity3d/Sprite.cs:136-149 | pointer, vertex count, vertices and index section take 12 + 12·vertices bytes plus the index section |
| SpriteFormat.DecodeGeometry | Plugins/UnityBase/unity3d/Sprite.cs:111-125 | a successful read of the first part yields a writable pointer key and arrays that fit an int, stays within the stream and consumes at least 16 bytes plus 12 per vertex and 2 per index |
| SpriteFormat.GeometryAt | Plugins/UnityBase/unity3d/Sprite.cs:111-125 | reading the first part of render data where it was written restores the pointer key, vertices and indices |
| SpriteFormat.GeometrySteps | Plugins/UnityBase/unity3d/Sprite.cs:111-125 | the pieces read one after another at consecutive positions make up the first part of render data |
| SpriteFormat.TrailerBytes | Plugins/UnityBase/unity3d/Sprite.cs:151-154 | rectangle, offset, settings and transform are written as exactly 44 bytes |
| SpriteFormat.DecodeTrailer | Plugins/UnityBase/unity3d/Sprite.cs:127-130 | the trailer is read exactly when 44 bytes are left |
| SpriteFormat.TrailerAt | Plugins/UnityBase/unity3d/Sprite.cs:127-130 | reading the trailer where it was written restores rectangle, offset, settings and transform |
| SpriteFormat.RenderDataBytes | Plugins/UnityBase/unity3d/Sprite.cs:133-155 | written render data takes 60 bytes, 12 per vertex, 2 per index and 2 more for an odd index count |
| SpriteFormat.DecodeRenderData | Plugins/UnityBase/unity3d/Sprite.cs:108-131 | a successful render-data read yields render data that can be written back and stops within the stream |
| SpriteFormat.RenderDataSteps | Plugins/UnityBase/unity3d/Sprite.cs:108-131 | the two parts read at consecutive positions make up the render data read |
| SpriteFormat.RenderDataRoundTrip | Plugins/UnityBase/unity3d/Sprite.cs:108-155 | reading render data where WriteTo wrote it gives back every field and stops at the end of what was written |
| SpriteFormat.RenderDataReadLength | Plugins/UnityBase/unity3d/Sprite.cs:108-131 | a successful render-data read consumes exactly as many bytes as writing the decoded value produces, including the odd-count filler |
| SpriteFormat.RenderDataAligned | Plugins/UnityBase/unity3d/Sprite.cs:133-155 | written render data always takes a whole number of 4-byte words |
| SpriteFormat.SpriteHeaderBytes | Plugins/UnityBase/unity3d/Sprite.cs:221-226 | a sprite's own fields take the padded name plus 48 bytes |
| SpriteFormat.DecodeSpriteHeader | Plugins/UnityBase/unity3d/Sprite.cs:209-214 | a successful header read yields a name of at most int.MaxValue bytes, stays within the stream and consumes at least the count word, the name and 48 bytes |
| SpriteFormat.SpriteHeaderAt | Plugins/UnityBase/unity3d/Sprite.cs:209-214 | reading a sprite's own fields where they were written restores name, rectangle, offset, border, ratio and extrusion, and stops right after them |
| SpriteFormat.SpriteHeaderSteps | Plugins/UnityBase/unity3d/Sprite.cs:209-214 | those six fields read at consecutive positions make up the header read |
| SpriteFormat.SpriteHeaderReadLength | Plugins/UnityBase/unity3d/Sprite.cs:209-214 | a successful header read consumes the padded name plus 48 bytes |
| SpriteFormat.SpriteBytes | Plugins/UnityBase/unity3d/Sprite.cs:218-228 | a written sprite is its padded name, 48 bytes of own fields and its render data |
| SpriteFormat.DecodeSprite | Plugins/UnityBase/unity3d/Sprite.cs:206-216 | a successful sprite read yields a sprite that can be written back and stops within the stream |
| SpriteFormat.SpriteRoundTrip | Plugins/UnityBase/unity3d/Sprite.cs:206-228 | reading a sprite where WriteTo wrote it gives back every field, with the render data last, and stops at the end of what was written |
| SpriteFormat.SpriteSteps | Plugins/UnityBase/unity3d/Sprite.cs:206-216 | a header followed by render data, each read back, make up the sprite read |
| SpriteFormat.SpriteReadLength | Plugins/UnityBase/unity3d/Sprite.cs:206-216 | a successful sprite read consumes exactly what writing the decoded sprite produces |
| SpriteFormat.RenderDataDecodesAnywhere | Plugins/UnityBase/unity3d/Sprite.cs:108-155 | render data written after any prefix reads back, from where it starts, as the same render data, stopping at the end of what was written |
| SpriteFormat.SpriteDecodesAnywhere | Plugins/UnityBase/unity3d/Sprite.cs:206-228 | a sprite written after any prefix reads back, from where it starts, as the same sprite, stopping at the end of what was written |
| SpriteFormat.SpriteAligned | Plugins/UnityBase/unity3d/Sprite.cs:218-228 | a written sprite always takes a whole number of 4-byte words |
| Assets.Texture2D.Clone | Plugins/UnityBase/unity3d/Sprite.cs:160 | the texture clone is a new texture of the same name, owned by the destination and registered there for update |
| Assets.PPtrTo | Plugins/UnityBase/unity3d/Sprite.cs:160 | a pointer built from an instance points at that instance and has a writable key |
| Assets.ReadPPtr | Plugins/UnityBase/unity3d/Sprite.cs:111 | a pointer is read exactly when its 8 bytes are there, and it stands for what the cabinet resolves its key to |
| Assets.WritePPtr | Plugins/UnityBase/unity3d/Sprite.cs:136 | writing a pointer appends its 8-byte key |
| Assets.FirstMatch | Plugins/UnityBase/unity3d/Sprite.cs:232 | the lookup finds nothing exactly when no entry has the name and class, and otherwise returns the asset of the first such entry |
| Assets.FirstMatchSkips | Plugins/UnityBase/unity3d/Sprite.cs:232 | appending an entry that does not have the looked-up name and class leaves the lookup's answer as it was |
| Assets.Bundle.FindComponent | Plugins/UnityBase/unity3d/Sprite.cs:232 | the lookup is null exactly when no container entry has the name and class, and otherwise is the asset of such an entry |
| Assets.Bundle.UnregisterFromUpdate | Plugins/UnityBase/unity3d/Sprite.cs:250 | removes the object from the update set; the container is unchanged |
| Assets.Bundle.AppendComponent | Plugins/UnityBase/unity3d/Sprite.cs:251 | adds a (name, class, asset) entry at the end of the container; the update set is unchanged |
| Assets.Bundle.RegisterForUpdate | Plugins/UnityBase/unity3d/Sprite.cs:252 | adds the object to the update set; the container is unchanged |
| Assets.AssetCabinet.MergeTypeDefinition | Plugins/UnityBase/unity3d/Sprite.cs:240 | the cabinet gains the class's type definition and nothing else changes |
| Assets.AssetCabinet.ReplaceSubfile | Plugins/UnityBase/unity3d/Sprite.cs:203 | with index -1 and nothing replaced, the component is appended to the subfiles and nothing else changes |
| UnityPlugin.Rectf.LoadFrom | Plugins/UnityBase/unity3d/Sprite.cs:25-32 | succeeds exactly when 16 bytes are there, and leaves the four decoded words in x, y, width and height |
| UnityPlugin.Rectf.WriteTo | Plugins/UnityBase/unity3d/Sprite.cs:34-41 | appends exactly the rectangle's encoding, x first and height last |
| UnityPlugin.Rectf.Clone | Plugins/UnityBase/unity3d/Sprite.cs:43-51 | a new rectangle with all four fields equal |
| UnityPlugin.SpriteVertex.LoadFrom | Plugins/UnityBase/unity3d/Sprite.cs:65-69 | succeeds exactly when a Vector3 can be read, and leaves it in pos |
| UnityPlugin.SpriteVertex.WriteTo | Plugins/UnityBase/unity3d/Sprite.cs:71-75 | appends exactly the encoding of pos |
| UnityPlugin.SpriteVertex.Clone | Plugins/UnityBase/unity3d/Sprite.cs:77-82 | a new vertex with the same position |
| UnityPlugin.ReadVertices | Plugins/UnityBase/unity3d/Sprite.cs:113-118 | the vertex loop fills a new array with n new vertices whose positions are what the decoder yields, or fails exactly when the decoder does |
| UnityPlugin.WriteVertices | Plugins/UnityBase/unity3d/Sprite.cs:139-142 | the vertex loop appends exactly the encoding of every position, in order |
| UnityPlugin.ReadGeometry | Plugins/UnityBase/unity3d/Sprite.cs:111-125 | pointer, vertices and indices read into new arrays, the filler skipped, exactly when the first-part decoder succeeds |
| UnityPlugin.ReadTrailer | Plugins/UnityBase/unity3d/Sprite.cs:127-130 | a new rectangle and the three trailing fields, exactly when the trailer decoder succeeds |
| UnityPlugin.SpriteRenderData.constructor | Plugins/UnityBase/unity3d/Sprite.cs:103-106 | a render data owned by the cabinet, with no parts yet |
| UnityPlugin.SpriteRenderData.Assign | Plugins/UnityBase/unity3d/Sprite.cs:111-130 | storing the parts read makes the object loaded, with exactly those parts as its value |
| UnityPlugin.SpriteRenderData.LoadFrom | Plugins/UnityBase/unity3d/Sprite.cs:108-131 | succeeds exactly when the render-data decoder does, then holds new arrays, rectangle and vertices whose value is the decoded one, and resolves the texture through its cabinet |
| UnityPlugin.SpriteRenderData.WriteTo | Plugins/UnityBase/unity3d/Sprite.cs:133-155 | appends exactly the encoding of the object's value, with the index filler recomputed from the current index count |
| UnityPlugin.SpriteRenderData.Clone | Plugins/UnityBase/unity3d/Sprite.cs:157-174 | new arrays, vertices and rectangle with the same content; the texture pointer is a fresh texture clone exactly when the source has a texture, and null otherwise; only the destination's update set changes |
| UnityPlugin.ReadHeader | Plugins/UnityBase/unity3d/Sprite.cs:209-214 | a sprite's six own fields, with a new rectangle, exactly when the header decoder succeeds |
| UnityPlugin.ListCopy | Plugins/UnityBase/unity3d/Sprite.cs:250-252 | the texture clone leaves the update set, and the new sprite is listed under the texture's name and class Texture2D and enters the update set |
| UnityPlugin.Sprite.constructor | Plugins/UnityBase/unity3d/Sprite.cs:192-198 | a sprite with the given cabinet, path id and class ids |
| UnityPlugin.Sprite.Attached | Plugins/UnityBase/unity3d/Sprite.cs:200-204 | a sprite with path id 0 and both class ids Sprite, appended to the cabinet's subfiles |
| UnityPlugin.Sprite.Assign | Plugins/UnityBase/unity3d/Sprite.cs:209-215 | storing the fields read makes the sprite loaded, with exactly those fields as its value; identity fields stay |
| UnityPlugin.Sprite.LoadFrom | Plugins/UnityBase/unity3d/Sprite.cs:206-216 | succeeds exactly when the sprite decoder does, then holds the decoded value in a new rectangle and a new render data owned by its cabinet; the cabinet, path id and class ids stay |
| UnityPlugin.Sprite.WriteTo | Plugins/UnityBase/unity3d/Sprite.cs:218-228 | appends exactly the encoding of the sprite's value, its own fields first and the render data last |
| UnityPlugin.Sprite.CloneParts | Plugins/UnityBase/unity3d/Sprite.cs:244-249 | a new rectangle with the same value, and a render data clone whose texture is a fresh clone of the source texture, of the same name and owned by the destination cabinet |
| UnityPlugin.Sprite.FillFrom | Plugins/UnityBase/unity3d/Sprite.cs:243-252 | the new sprite gets the source's value with the texture key reset, its own texture clone owned by the destination cabinet, and is listed and registered in the bundle |
| UnityPlugin.Sprite.CopyInto | Plugins/UnityBase/unity3d/Sprite.cs:240-253 | the destination gains the Sprite type and one new subfile, the copy, whose texture clone the destination owns; the bundle lists the copy under the texture's name and has it, not the texture clone, in the update set |
| UnityPlugin.Sprite.Clone | Plugins/UnityBase/unity3d/Sprite.cs:230-268 | when a same-name sprite is listed, nothing changes: a listed sprite is returned as itself, a listed object of another class fails the cast, and a placeholder gives its replacement or its loaded component, cast as line 267 does (`UnityPlugin.Existing`, `UnityPlugin.AsSprite`); otherwise a texture-less sprite fails with nothing changed, and a sprite with a texture gives CopyInto's copy, whose texture clone the destination owns and under which the same lookup still finds nothing |

## Left out

- Streams: `Stream`, `BinaryReader` and `BinaryWriter` are a byte sequence with a cursor and an append-only byte sequence. The stream position outside one call, seeking and disposal are not modelled.
- The encodings of `ReadNameA4`/`WriteNameA4`, `ReadVector2/3/4`, `ReadUInt16Array` and `Write(ushort[])` are extension methods that are not part of this model. The model takes an int32 byte count, the bytes and zero filler to a 4-byte boundary for names, and consecutive little-endian 32-bit words for vectors. The primitive encoders and decoders of `Wire` (`U16Bytes`, `U32Bytes`, `Int32Bytes`, `Vector2/3/4Bytes`, `DecodeU16/U32/Int32`, `DecodeVector2/3/4`, `PadA4`, `Zeros`) are this layout, the one lines 28-41 write and read a float at a time; their rows are the round-trip lemmas above.
- Names are byte strings; the character encoding of a C# `string` is not modelled.
- Floats are opaque 32-bit words copied as they are. The code never computes on them, so no IEEE semantics is needed.
- `PPtr<T>` internals are not part of this model. A pointer read from a stream is its two int32 words, resolved through the cabinet's texture table (`Assets.AssetCabinet.Resolve`, a map lookup taken as given). A pointer built from an instance (line 160) gets the key (0, 0), because how the real key is derived lies in `PPtr<T>`, outside this model. The clone postconditions state that key as the model's choice; the program itself promises only the instance.
- Assets.Texture2D.Clone: its effect (a new same-name texture owned by the destination and registered for update) is taken as given; its body is not part of this model. The model's texture clone changes only the destination bundle's update set: it does not merge the Texture2D type definition into the cabinet or add itself to the cabinet's subfiles. The postconditions of the sprite clone about `types` and `components` hold under this limit.
- Assets.Bundle.FindComponent: taken to return the first container entry listed with the name and class, or null. It compares the class an entry was listed with, not the class of the listed asset.
- Assets.AssetCabinet.LoadComponent: modelled as a lookup of a stored component by path id (`Assets.AssetCabinet.Stored`, taken as given). The `SourceStream` argument, reading from it and any caching are left out.
- Assets.AssetCabinet.ReplaceSubfile: only the form Sprite code uses (index -1, nothing replaced) is modelled.
- Interfaces `IObjInfo`, `Component` and `StoresReferences`, and the stream constructors `Rectf(Stream)`, `SpriteVertex(Stream)` and `SpriteRenderData(file, stream)`. The constructors appear as a new object followed by `LoadFrom` inside the reading methods.
- Exceptions are results. A read past the end of the stream makes `LoadFrom` return false. "Cant clone textureless Sprite" is `Failed(TexturelessSprite)`, and a failing `(Sprite)` cast is `Failed(InvalidCast)`.
- A negative vertex or index count makes the read fail, where C# throws on the array allocation. `(numIndices & 1) > 0` is modelled as `numIndices % 2 == 1`, which agrees for the non-negative counts that get that far.
- UnityPlugin.Rectf.LoadFrom: on failure the fields are not described. The source may have assigned some fields before the end of the stream; the model assigns them all at once at the end.
- UnityPlugin.SpriteVertex.LoadFrom: on failure `pos` is not described, as for Rectf.
- UnityPlugin.SpriteRenderData.LoadFrom: on failure the fields and the cursor are not described. The model keeps the parts in locals and assigns them together at the end, where the source assigns them field by field.
- UnityPlugin.Sprite.LoadFrom: on failure the fields and the cursor are not described, as for SpriteRenderData.
- UnityPlugin.SpriteRenderData.WriteTo: requires a loaded object, meaning every array, the rectangle and every vertex are present and the arrays fit an int. The source would throw a NullReferenceException otherwise.
- UnityPlugin.Sprite.WriteTo: requires a loaded sprite, for the same reason.
- UnityPlugin.SpriteRenderData.Clone: requires a loaded object, for the same reason. The source object is left unchanged by the method's frame, not by an explicit postcondition.
- UnityPlugin.Sprite.Clone: requires what the copy path dereferences. When the destination lists no sprite of that name, `m_RD` must be present (line 235), and a sprite with a texture must be loaded (lines 244-249). When a sprite of that name is listed, only `m_Name` is read, and nothing is required.
- UnityPlugin.Sprite.CopyInto: the new sprite's fields are stored after the bundle bookkeeping of lines 250-252, rather than before. This takes as given that `UnregisterFromUpdate`, `AppendComponent` and `RegisterForUpdate`, whose bodies are not part of this model, do not read those fields; the final state is then the same.

