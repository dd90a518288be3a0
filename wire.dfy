/**
 * The little-endian wire primitives that BinaryReader and BinaryWriter (and
 * the SB3Utility extension methods on them) provide to the sprite codec:
 * 16- and 32-bit words, two's-complement int32, float vectors as opaque
 * 32-bit patterns, and the 4-byte aligned name string.
 *
 * Every primitive has an encoding (a byte sequence) and a decoding at a
 * cursor position of a stream, which fails (None) when the stream is too
 * short.  The Reader and Writer classes are the stateful stream wrappers the
 * codec methods work through.
 */
module Wire {

  newtype byte = b: int | 0 <= b < 0x100
  newtype u16 = x: int | 0 <= x < 0x1_0000
  newtype u32 = x: int | 0 <= x < 0x1_0000_0000

  /** A float32 field: never computed on, so only its bit pattern matters. */
  type Single = u32

  const INT32_MIN: int := -0x8000_0000
  const INT32_MAX: int := 0x7FFF_FFFF

  datatype Option<+T> = None | Some(value: T) {
    predicate IsFailure() { None? }
    function PropagateFailure<U>(): Option<U>
      requires None?
    {
      None
    }
    function Extract(): T
      requires Some?
    {
      value
    }
  }

  /** A value decoded from a stream, and the cursor position just after it. */
  datatype Decoded<+T> = Decoded(value: T, next: nat)

  /** r is a successful read of v that leaves the cursor at next. */
  ghost predicate Yields<T>(r: Option<Decoded<T>>, v: T, next: nat)
  {
    r.Some? && r.value.value == v && r.value.next == next
  }

  datatype Vector2 = Vector2(x: Single, y: Single)
  datatype Vector3 = Vector3(x: Single, y: Single, z: Single)
  datatype Vector4 = Vector4(x: Single, y: Single, z: Single, w: Single)

  // ---------------------------------------------------------------------
  // Encodings

  function U16Bytes(x: u16): (r: seq<byte>)
    ensures |r| == 2
  {
    [(x % 0x100) as byte, (x / 0x100) as byte]
  }

  function U32Bytes(x: u32): (r: seq<byte>)
    ensures |r| == 4
  {
    U16Bytes((x % 0x1_0000) as u16) + U16Bytes((x / 0x1_0000) as u16)
  }

  predicate IsInt32(n: int) { INT32_MIN <= n <= INT32_MAX }

  /** The two's-complement bit pattern of an int32. */
  function Int32Word(n: int): (w: u32)
    requires IsInt32(n)
    ensures WordInt32(w) == n
  {
    if n >= 0 then n as u32 else (n + 0x1_0000_0000) as u32
  }

  /** The int32 whose two's-complement bit pattern is w. */
  function WordInt32(w: u32): (n: int)
    ensures IsInt32(n)
  {
    if w <= INT32_MAX as u32 then w as int else w as int - 0x1_0000_0000
  }

  function Int32Bytes(n: int): (r: seq<byte>)
    requires IsInt32(n)
    ensures |r| == 4
  {
    U32Bytes(Int32Word(n))
  }

  function Vector2Bytes(v: Vector2): (r: seq<byte>)
    ensures |r| == 8
  {
    U32Bytes(v.x) + U32Bytes(v.y)
  }

  function Vector3Bytes(v: Vector3): (r: seq<byte>)
    ensures |r| == 12
  {
    U32Bytes(v.x) + U32Bytes(v.y) + U32Bytes(v.z)
  }

  function Vector4Bytes(v: Vector4): (r: seq<byte>)
    ensures |r| == 16
  {
    U32Bytes(v.x) + U32Bytes(v.y) + U32Bytes(v.z) + U32Bytes(v.w)
  }

  /** The number of filler bytes that bring a length up to a multiple of 4. */
  function PadA4(n: nat): (p: nat)
    ensures p < 4
  {
    (4 - n % 4) % 4
  }

  /** The padding brings a length to a multiple of four, and is empty exactly when it already is one. */
  lemma PadA4Aligned(n: nat)
    ensures (n + PadA4(n)) % 4 == 0
    ensures PadA4(n) == 0 <==> n % 4 == 0
  {
  }

  function Zeros(n: nat): (r: seq<byte>)
    ensures |r| == n && forall i :: 0 <= i < n ==> r[i] == 0
  {
    seq(n, _ => 0)
  }

  /** WriteNameA4: an int32 byte count, the bytes, zero filler to a 4-byte boundary. */
  function NameBytes(name: seq<byte>): (r: seq<byte>)
    requires |name| <= INT32_MAX
    ensures |r| == 4 + |name| + PadA4(|name|) && r[4..4 + |name|] == name
  {
    Int32Bytes(|name|) + name + Zeros(PadA4(|name|))
  }

  /** An array of ushort values, each in two bytes, without a count. */
  function U16sBytes(xs: seq<u16>): (r: seq<byte>)
    ensures |r| == 2 * |xs|
  {
    if |xs| == 0 then [] else U16sBytes(xs[..|xs| - 1]) + U16Bytes(xs[|xs| - 1])
  }

  // ---------------------------------------------------------------------
  // Decodings at a cursor position

  function DecodeU16(s: seq<byte>, at: nat): (r: Option<Decoded<u16>>)
    ensures r.Some? <==> at + 2 <= |s|
    ensures r.Some? ==> r.value.next == at + 2
  {
    if at + 2 <= |s| then Some(Decoded((s[at] as int + 0x100 * s[at + 1] as int) as u16, at + 2))
    else None
  }

  function DecodeU32(s: seq<byte>, at: nat): (r: Option<Decoded<u32>>)
    ensures r.Some? <==> at + 4 <= |s|
    ensures r.Some? ==> r.value.next == at + 4
  {
    var lo :- DecodeU16(s, at);
    var hi :- DecodeU16(s, lo.next);
    Some(Decoded((lo.value as int + 0x1_0000 * hi.value as int) as u32, hi.next))
  }

  function DecodeInt32(s: seq<byte>, at: nat): (r: Option<Decoded<int>>)
    ensures r.Some? <==> at + 4 <= |s|
    ensures r.Some? ==> r.value.next == at + 4 && IsInt32(r.value.value)
  {
    var w :- DecodeU32(s, at);
    Some(Decoded(WordInt32(w.value), w.next))
  }

  /**
   * An int32 element count: a negative count fails, as allocating an array
   * of negative length throws.
   */
  function DecodeCount(s: seq<byte>, at: nat): (r: Option<Decoded<nat>>)
    ensures r.Some? <==> at + 4 <= |s| && DecodeInt32(s, at).value.value >= 0
    ensures r.Some? ==> r.value.next == at + 4 && r.value.value <= INT32_MAX
  {
    var n :- DecodeInt32(s, at);
    if n.value < 0 then None else Some(Decoded(n.value, n.next))
  }

  function DecodeVector2(s: seq<byte>, at: nat): (r: Option<Decoded<Vector2>>)
    ensures r.Some? <==> at + 8 <= |s|
    ensures r.Some? ==> r.value.next == at + 8
  {
    var x :- DecodeU32(s, at);
    var y :- DecodeU32(s, x.next);
    Some(Decoded(Vector2(x.value, y.value), y.next))
  }

  function DecodeVector3(s: seq<byte>, at: nat): (r: Option<Decoded<Vector3>>)
    ensures r.Some? <==> at + 12 <= |s|
    ensures r.Some? ==> r.value.next == at + 12
  {
    var x :- DecodeU32(s, at);
    var y :- DecodeU32(s, x.next);
    var z :- DecodeU32(s, y.next);
    Some(Decoded(Vector3(x.value, y.value, z.value), z.next))
  }

  function DecodeVector4(s: seq<byte>, at: nat): (r: Option<Decoded<Vector4>>)
    ensures r.Some? <==> at + 16 <= |s|
    ensures r.Some? ==> r.value.next == at + 16
  {
    var x :- DecodeU32(s, at);
    var y :- DecodeU32(s, x.next);
    var z :- DecodeU32(s, y.next);
    var w :- DecodeU32(s, z.next);
    Some(Decoded(Vector4(x.value, y.value, z.value, w.value), w.next))
  }

  /** ReadNameA4: the count, that many bytes, and the filler (whose values are ignored). */
  function DecodeName(s: seq<byte>, at: nat): (r: Option<Decoded<seq<byte>>>)
    ensures r.Some? ==> at + 4 <= r.value.next <= |s| && |r.value.value| <= INT32_MAX
  {
    var n :- DecodeCount(s, at);
    var end := n.next + n.value;
    if end + PadA4(n.value) <= |s| then Some(Decoded(s[n.next..end], end + PadA4(n.value)))
    else None
  }

  /** Sums of whole words are whole words. */
  lemma WordsAdd(a: nat, b: nat)
    requires a % 4 == 0 && b % 4 == 0
    ensures (a + b) % 4 == 0
  {
    assert a + b == 4 * (a / 4 + b / 4);
  }

  /** A name read back leaves the cursor on a 4-byte boundary relative to where it started. */
  lemma NameKeepsAlignment(s: seq<byte>, at: nat)
    requires DecodeName(s, at).Some?
    ensures (DecodeName(s, at).value.next - at) % 4 == 0
  {
    var n := DecodeCount(s, at).value.value;
    var m := n + PadA4(n);
    assert DecodeName(s, at).value.next - at == 4 + m;
    PadA4Aligned(n);
    WordsAdd(4, m);
  }

  /** A name read back is as long as its count, and the read ends after the filler that follows it. */
  lemma NameReadLength(s: seq<byte>, at: nat)
    requires DecodeName(s, at).Some?
    ensures var d := DecodeName(s, at).value;
      d.next == at + |NameBytes(d.value)| && |d.value| == DecodeCount(s, at).value.value
  {
    var n := DecodeCount(s, at).value;
    var d := DecodeName(s, at).value;
    assert d.value == s[n.next..n.next + n.value];
  }

  /** ReadUInt16Array(n): n ushort values. */
  function DecodeU16s(s: seq<byte>, at: nat, n: nat): (r: Option<Decoded<seq<u16>>>)
    ensures r.Some? <==> n == 0 || at + 2 * n <= |s|
    ensures r.Some? ==> |r.value.value| == n && r.value.next == at + 2 * n
  {
    if n == 0 then Some(Decoded([], at))
    else
      var init :- DecodeU16s(s, at, n - 1);
      var last :- DecodeU16(s, init.next);
      Some(Decoded(init.value + [last.value], last.next))
  }

  /** BinaryReader.ReadBytes(n) with the result discarded: stops at the end of the stream. */
  function Skip(s: seq<byte>, at: nat, n: nat): (p: nat)
    ensures at <= p && (at <= |s| ==> p <= |s|)
    ensures at + n <= |s| ==> p == at + n
  {
    if at + n <= |s| then at + n else if at <= |s| then |s| else at
  }

  // ---------------------------------------------------------------------
  // Round trips: decoding an encoding found at the cursor

  /** The bytes e sit in the stream s starting at position at, one by one. */
  predicate BytesAt(s: seq<byte>, at: nat, e: seq<byte>)
    decreases |e|
  {
    if |e| == 0 then at <= |s|
    else at < |s| && s[at] == e[0] && BytesAt(s, at + 1, e[1..])
  }

  lemma {:induction false} SplitAt(s: seq<byte>, at: nat, a: seq<byte>, b: seq<byte>, mid: nat)
    requires BytesAt(s, at, a + b) && mid == at + |a|
    ensures BytesAt(s, at, a) && BytesAt(s, mid, b)
    decreases |a|
  {
    if |a| == 0 {
      assert a + b == b;
      BytesWithin(s, at, b);
    } else {
      assert (a + b)[0] == a[0] && (a + b)[1..] == a[1..] + b;
      SplitAt(s, at + 1, a[1..], b, mid);
    }
  }

  lemma {:induction false} BytesWithin(s: seq<byte>, at: nat, e: seq<byte>)
    requires BytesAt(s, at, e)
    ensures at + |e| <= |s| && s[at..at + |e|] == e
    decreases |e|
  {
    if |e| > 0 {
      BytesWithin(s, at + 1, e[1..]);
      assert s[at..at + |e|] == [s[at]] + s[at + 1..at + |e|];
    }
  }

  /** An encoding placed anywhere in a stream sits right after what comes before it. */
  lemma {:induction false} BytesAtConcat(p: seq<byte>, e: seq<byte>, q: seq<byte>)
    ensures BytesAt(p + e + q, |p|, e)
    decreases |e|
  {
    if |e| > 0 {
      assert p + e + q == (p + [e[0]]) + e[1..] + q;
      BytesAtConcat(p + [e[0]], e[1..], q);
    }
  }

  lemma U16RoundTrip(s: seq<byte>, at: nat, x: u16)
    requires BytesAt(s, at, U16Bytes(x))
    ensures Yields(DecodeU16(s, at), x, at + 2)
  {
    var e := U16Bytes(x);
    assert BytesAt(s, at + 1, e[1..]);
    assert e[1..][1..] == [];
  }

  lemma U32RoundTrip(s: seq<byte>, at: nat, x: u32)
    requires BytesAt(s, at, U32Bytes(x))
    ensures Yields(DecodeU32(s, at), x, at + 4)
  {
    var lo, hi := (x % 0x1_0000) as u16, (x / 0x1_0000) as u16;
    SplitAt(s, at, U16Bytes(lo), U16Bytes(hi), at + 2);
    U16RoundTrip(s, at, lo);
    U16RoundTrip(s, at + 2, hi);
  }

  lemma Int32RoundTrip(s: seq<byte>, at: nat, n: int)
    requires IsInt32(n) && BytesAt(s, at, Int32Bytes(n))
    ensures Yields(DecodeInt32(s, at), n, at + 4)
  {
    U32RoundTrip(s, at, Int32Word(n));
  }

  lemma CountRoundTrip(s: seq<byte>, at: nat, n: nat)
    requires n <= INT32_MAX && BytesAt(s, at, Int32Bytes(n))
    ensures Yields(DecodeCount(s, at), n, at + 4)
  {
    Int32RoundTrip(s, at, n);
  }

  lemma Vector2RoundTrip(s: seq<byte>, at: nat, v: Vector2)
    requires BytesAt(s, at, Vector2Bytes(v))
    ensures Yields(DecodeVector2(s, at), v, at + 8)
  {
    SplitAt(s, at, U32Bytes(v.x), U32Bytes(v.y), at + 4);
    U32RoundTrip(s, at, v.x);
    U32RoundTrip(s, at + 4, v.y);
  }

  lemma Vector3RoundTrip(s: seq<byte>, at: nat, v: Vector3)
    requires BytesAt(s, at, Vector3Bytes(v))
    ensures Yields(DecodeVector3(s, at), v, at + 12)
  {
    SplitAt(s, at, U32Bytes(v.x) + U32Bytes(v.y), U32Bytes(v.z), at + 8);
    SplitAt(s, at, U32Bytes(v.x), U32Bytes(v.y), at + 4);
    U32RoundTrip(s, at, v.x);
    U32RoundTrip(s, at + 4, v.y);
    U32RoundTrip(s, at + 8, v.z);
  }

  lemma Vector4RoundTrip(s: seq<byte>, at: nat, v: Vector4)
    requires BytesAt(s, at, Vector4Bytes(v))
    ensures Yields(DecodeVector4(s, at), v, at + 16)
  {
    SplitAt(s, at, U32Bytes(v.x) + U32Bytes(v.y) + U32Bytes(v.z), U32Bytes(v.w), at + 12);
    SplitAt(s, at, U32Bytes(v.x) + U32Bytes(v.y), U32Bytes(v.z), at + 8);
    SplitAt(s, at, U32Bytes(v.x), U32Bytes(v.y), at + 4);
    U32RoundTrip(s, at, v.x);
    U32RoundTrip(s, at + 4, v.y);
    U32RoundTrip(s, at + 8, v.z);
    U32RoundTrip(s, at + 12, v.w);
  }

  /** The name comes back without its filler, and the cursor lands right after the filler. */
  lemma NameRoundTrip(s: seq<byte>, at: nat, name: seq<byte>)
    requires |name| <= INT32_MAX && BytesAt(s, at, NameBytes(name))
    ensures Yields(DecodeName(s, at), name, at + |NameBytes(name)|)
  {
    SplitAt(s, at, Int32Bytes(|name|) + name, Zeros(PadA4(|name|)), at + 4 + |name|);
    SplitAt(s, at, Int32Bytes(|name|), name, at + 4);
    CountRoundTrip(s, at, |name|);
    BytesWithin(s, at + 4, name);
    BytesWithin(s, at, NameBytes(name));
  }

  lemma {:induction false} U16sRoundTrip(s: seq<byte>, at: nat, xs: seq<u16>)
    requires BytesAt(s, at, U16sBytes(xs))
    ensures Yields(DecodeU16s(s, at, |xs|), xs, at + 2 * |xs|)
  {
    if |xs| > 0 {
      var init, last := xs[..|xs| - 1], xs[|xs| - 1];
      SplitAt(s, at, U16sBytes(init), U16Bytes(last), at + 2 * |init|);
      U16sRoundTrip(s, at, init);
      U16RoundTrip(s, at + 2 * |init|, last);
      assert init + [last] == xs;
    }
  }

  /** Once a prefix of an array fails to decode, the whole array fails to decode. */
  lemma {:induction false} U16sFailureStays(s: seq<byte>, at: nat, i: nat, n: nat)
    requires i <= n && DecodeU16s(s, at, i).None?
    ensures DecodeU16s(s, at, n).None?
  {
    if i < n {
      U16sFailureStays(s, at, i, n - 1);
    }
  }

  // ---------------------------------------------------------------------
  // Streams

  /** A BinaryReader over a stream whose contents are fixed: only the cursor moves. */
  class Reader {
    const data: seq<byte>
    var pos: nat

    constructor (data: seq<byte>)
      ensures this.data == data && pos == 0
    {
      this.data := data;
      pos := 0;
    }

    method ReadUInt16() returns (r: Option<u16>)
      modifies this
      ensures DecodeU16(data, old(pos)).Some? <==> r.Some?
      ensures r.Some? ==> Yields(DecodeU16(data, old(pos)), r.value, pos)
    {
      var d := DecodeU16(data, pos);
      if d.None? { return None; }
      pos := d.value.next;
      r := Some(d.value.value);
    }

    method ReadUInt32() returns (r: Option<u32>)
      modifies this
      ensures DecodeU32(data, old(pos)).Some? <==> r.Some?
      ensures r.Some? ==> Yields(DecodeU32(data, old(pos)), r.value, pos)
    {
      var lo := ReadUInt16();
      if lo.None? { return None; }
      var hi := ReadUInt16();
      if hi.None? { return None; }
      r := Some((lo.value as int + 0x1_0000 * hi.value as int) as u32);
    }

    method ReadSingle() returns (r: Option<Single>)
      modifies this
      ensures DecodeU32(data, old(pos)).Some? <==> r.Some?
      ensures r.Some? ==> Yields(DecodeU32(data, old(pos)), r.value, pos)
    {
      r := ReadUInt32();
    }

    method ReadInt32() returns (r: Option<int>)
      modifies this
      ensures DecodeInt32(data, old(pos)).Some? <==> r.Some?
      ensures r.Some? ==> Yields(DecodeInt32(data, old(pos)), r.value, pos)
    {
      var w := ReadUInt32();
      if w.None? { return None; }
      r := Some(WordInt32(w.value));
    }

    method ReadVector2() returns (r: Option<Vector2>)
      modifies this
      ensures DecodeVector2(data, old(pos)).Some? <==> r.Some?
      ensures r.Some? ==> Yields(DecodeVector2(data, old(pos)), r.value, pos)
    {
      var x := ReadSingle();
      if x.None? { return None; }
      var y := ReadSingle();
      if y.None? { return None; }
      r := Some(Vector2(x.value, y.value));
    }

    method ReadVector3() returns (r: Option<Vector3>)
      modifies this
      ensures DecodeVector3(data, old(pos)).Some? <==> r.Some?
      ensures r.Some? ==> Yields(DecodeVector3(data, old(pos)), r.value, pos)
    {
      var x := ReadSingle();
      if x.None? { return None; }
      var y := ReadSingle();
      if y.None? { return None; }
      var z := ReadSingle();
      if z.None? { return None; }
      r := Some(Vector3(x.value, y.value, z.value));
    }

    method ReadVector4() returns (r: Option<Vector4>)
      modifies this
      ensures DecodeVector4(data, old(pos)).Some? <==> r.Some?
      ensures r.Some? ==> Yields(DecodeVector4(data, old(pos)), r.value, pos)
    {
      var x := ReadSingle();
      if x.None? { return None; }
      var y := ReadSingle();
      if y.None? { return None; }
      var z := ReadSingle();
      if z.None? { return None; }
      var w := ReadSingle();
      if w.None? { return None; }
      r := Some(Vector4(x.value, y.value, z.value, w.value));
    }

    method ReadNameA4() returns (r: Option<seq<byte>>)
      modifies this
      ensures DecodeName(data, old(pos)).Some? <==> r.Some?
      ensures r.Some? ==> Yields(DecodeName(data, old(pos)), r.value, pos)
    {
      var n := ReadInt32();
      if n.None? || n.value < 0 { return None; }
      var end := pos + n.value;
      if end + PadA4(n.value) > |data| { return None; }
      r := Some(data[pos..end]);
      pos := end + PadA4(n.value);
    }

    /** ReadUInt16Array(n): a fresh array of n values read in order. */
    method ReadUInt16Array(n: nat) returns (r: Option<array<u16>>)
      modifies this
      ensures DecodeU16s(data, old(pos), n).Some? <==> r.Some?
      ensures r.Some? ==> fresh(r.value) && Yields(DecodeU16s(data, old(pos), n), r.value[..], pos)
    {
      var a := new u16[n];
      var i := 0;
      while i < n
        invariant 0 <= i <= n
        invariant Yields(DecodeU16s(data, old(pos), i), a[..i], pos)
      {
        var x := ReadUInt16();
        if x.None? {
          U16sFailureStays(data, old(pos), i + 1, n);
          return None;
        }
        a[i] := x.value;
        assert a[..i + 1] == a[..i] + [x.value];
        i := i + 1;
      }
      assert a[..n] == a[..];
      r := Some(a);
    }

    /** ReadBytes(n) with the bytes discarded. */
    method ReadBytes(n: nat)
      modifies this
      ensures pos == Skip(data, old(pos), n)
    {
      pos := Skip(data, pos, n);
    }
  }

  /** A BinaryWriter over an append-only stream. */
  class Writer {
    var data: seq<byte>

    constructor ()
      ensures data == []
    {
      data := [];
    }

    method WriteUInt16(x: u16)
      modifies this
      ensures data == old(data) + U16Bytes(x)
    {
      data := data + U16Bytes(x);
    }

    method WriteUInt32(x: u32)
      modifies this
      ensures data == old(data) + U32Bytes(x)
    {
      WriteUInt16((x % 0x1_0000) as u16);
      WriteUInt16((x / 0x1_0000) as u16);
    }

    method WriteSingle(x: Single)
      modifies this
      ensures data == old(data) + U32Bytes(x)
    {
      WriteUInt32(x);
    }

    method WriteInt32(n: int)
      requires IsInt32(n)
      modifies this
      ensures data == old(data) + Int32Bytes(n)
    {
      WriteUInt32(Int32Word(n));
    }

    method WriteVector2(v: Vector2)
      modifies this
      ensures data == old(data) + Vector2Bytes(v)
    {
      WriteSingle(v.x);
      WriteSingle(v.y);
    }

    method WriteVector3(v: Vector3)
      modifies this
      ensures data == old(data) + Vector3Bytes(v)
    {
      WriteSingle(v.x);
      WriteSingle(v.y);
      WriteSingle(v.z);
    }

    method WriteVector4(v: Vector4)
      modifies this
      ensures data == old(data) + Vector4Bytes(v)
    {
      WriteSingle(v.x);
      WriteSingle(v.y);
      WriteSingle(v.z);
      WriteSingle(v.w);
    }

    method WriteNameA4(name: seq<byte>)
      requires |name| <= INT32_MAX
      modifies this
      ensures data == old(data) + NameBytes(name)
    {
      WriteInt32(|name|);
      data := data + name + Zeros(PadA4(|name|));
    }

    /** Write(ushort[]): the values in order, with no count. */
    method WriteUInt16Array(a: array<u16>)
      modifies this
      ensures data == old(data) + U16sBytes(a[..])
    {
      var i := 0;
      while i < a.Length
        invariant 0 <= i <= a.Length
        invariant data == old(data) + U16sBytes(a[..i])
      {
        WriteUInt16(a[i]);
        assert a[..i + 1][..i] == a[..i];
        i := i + 1;
      }
      assert a[..a.Length] == a[..];
    }
  }
}
