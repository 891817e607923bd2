/**
 * The binary STL reader (`readStlModel`) and the two loaders built on it.
 *
 * A binary STL file is an 80-byte header, a little-endian 32-bit facet
 * count, then one 50-byte record per facet: twelve 4-byte floats (the
 * normal, then the three vertices) and a 2-byte attribute count.  The
 * reader keeps the nine vertex floats of every record.  How four bytes
 * become a float is a parameter (`decode`).
 */
module StlImport {
  import opened Wrappers
  import opened Geometry

  type Byte = b: int | 0 <= b < 256

  /** Four bytes in file order, as one float or count is read. */
  type Word = (Byte, Byte, Byte, Byte)

  const HeaderSize: int := 80
  const FirstRecord: int := 84
  const RecordSize: int := 50
  const AttributeSize: int := 2

  function WordAt(bytes: seq<Byte>, p: int): Word
    requires 0 <= p && p + 4 <= |bytes|
  {
    (bytes[p], bytes[p + 1], bytes[p + 2], bytes[p + 3])
  }

  /** The unsigned count stored little-endian in bytes 80 to 83. */
  function FacetCount(bytes: seq<Byte>): (n: nat)
    requires |bytes| >= FirstRecord
    ensures n < 0x1_0000_0000
  {
    var w := WordAt(bytes, HeaderSize);
    w.0 + 0x100 * w.1 + 0x1_0000 * w.2 + 0x100_0000 * w.3
  }

  /** The file holds the header, the count and every record the count announces. */
  predicate Complete(bytes: seq<Byte>)
  {
    |bytes| >= FirstRecord && |bytes| >= FirstRecord + RecordSize * FacetCount(bytes)
  }

  /** The nine vertex floats of record `i`: the record's floats 3 to 11. */
  function FacetFloats(bytes: seq<Byte>, decode: Word -> real, i: nat): (fs: seq<real>)
    requires FirstRecord + RecordSize * (i + 1) <= |bytes|
    ensures |fs| == 9
  {
    seq(9, j requires 0 <= j < 9 => decode(WordAt(bytes, FirstRecord + RecordSize * i + 12 + 4 * j)))
  }

  /** The vertex floats of the first `n` records. */
  function StlFloats(bytes: seq<Byte>, decode: Word -> real, n: nat): (fs: seq<real>)
    requires FirstRecord + RecordSize * n <= |bytes|
    ensures |fs| == 9 * n
  {
    if n == 0 then [] else StlFloats(bytes, decode, n - 1) + FacetFloats(bytes, decode, n - 1)
  }

  /**
   * `readStlModel`: skip the header, read the count, then per record read
   * twelve floats, keep the last nine and skip the attribute count.  A file
   * shorter than its count announces gives `None`: the source then reads
   * past the end and the floats it keeps are not determined by the file.
   */
  method ReadStlModel(bytes: seq<Byte>, decode: Word -> real) returns (v: Option<seq<real>>)
    ensures v.Some? <==> Complete(bytes)
    ensures v.Some? ==> v.value == StlFloats(bytes, decode, FacetCount(bytes))
  {
    if |bytes| < FirstRecord {
      return None;
    }
    var facets := FacetCount(bytes);
    if |bytes| < FirstRecord + RecordSize * facets {
      return None;
    }
    var fs: seq<real> := [];
    var p := FirstRecord;
    var i := 0;
    while i < facets
      invariant 0 <= i <= facets && p == FirstRecord + RecordSize * i
      invariant fs == StlFloats(bytes, decode, i)
    {
      var attrs := seq(12, j requires 0 <= j < 12 => decode(WordAt(bytes, p + 4 * j)));
      assert attrs[3..12] == FacetFloats(bytes, decode, i);
      fs := fs + attrs[3..12];
      p := p + 4 * 12;
      p := p + AttributeSize;
      i := i + 1;
    }
    return Some(fs);
  }

  /** `loadBinaryStlModel`: the vertex buffer and its vertex count. */
  method LoadBinaryStlModel(bytes: seq<Byte>, decode: Word -> real) returns (mi: Option<ModelInfo>)
    ensures mi.Some? <==> Complete(bytes)
    ensures mi.Some? ==>
      var fs := StlFloats(bytes, decode, FacetCount(bytes));
      mi.value == ModelInfo(fs, 3 * FacetCount(bytes)) && mi.value.vertices == |fs| / 3
  {
    var v := ReadStlModel(bytes, decode);
    if v.None? {
      return None;
    }
    return Some(ModelInfo(v.value, |v.value| / 3));
  }

  /**
   * `loadBinaryStlModelWithNormals`: the vertex buffer and, for every
   * triangle, its face normal repeated at each of its three vertices.
   */
  method LoadBinaryStlModelWithNormals(bytes: seq<Byte>, decode: Word -> real)
    returns (r: Option<(ModelInfo, ModelInfo)>)
    ensures r.Some? <==> Complete(bytes)
    ensures r.Some? ==>
      var fs := StlFloats(bytes, decode, FacetCount(bytes));
      r.value.0 == ModelInfo(fs, 3 * FacetCount(bytes)) &&
      r.value.1 == ModelInfo(NormalFloats(fs), 3 * FacetCount(bytes)) &&
      |r.value.1.data| == |r.value.0.data|
  {
    var v := ReadStlModel(bytes, decode);
    if v.None? {
      return None;
    }
    var n := CalculateNormals(v.value);
    return Some((ModelInfo(v.value, |v.value| / 3), ModelInfo(n, |n| / 3)));
  }

  // ---------------------------------------------------------------------------
  // Writing a model in the same layout

  function CountBytes(n: nat): (w: seq<Byte>)
    requires n < 0x1_0000_0000
    ensures |w| == 4
  {
    [n % 0x100, (n / 0x100) % 0x100, (n / 0x1_0000) % 0x100, n / 0x100_0000]
  }

  function WordBytes(w: Word): seq<Byte>
  {
    [w.0, w.1, w.2, w.3]
  }

  /** Each float as the four bytes `encode` gives it. */
  function EncodeFloats(encode: real -> Word, fs: seq<real>): (bs: seq<Byte>)
    ensures |bs| == 4 * |fs|
  {
    if fs == [] then [] else EncodeFloats(encode, fs[..|fs| - 1]) + WordBytes(encode(fs[|fs| - 1]))
  }

  /** One record: the face normal, the three vertices, a zero attribute count. */
  function EncodeFacet(encode: real -> Word, t: Triangle): (bs: seq<Byte>)
    ensures |bs| == RecordSize
  {
    EncodeFloats(encode, Coordinates(Normal(t)) + TriangleFloats(t)) + [0, 0]
  }

  function EncodeFacets(encode: real -> Word, m: Model): (bs: seq<Byte>)
    ensures |bs| == RecordSize * |m|
  {
    if m == [] then [] else EncodeFacets(encode, m[..|m| - 1]) + EncodeFacet(encode, m[|m| - 1])
  }

  /** A binary STL file holding `m` after the given header. */
  function EncodeStl(header: seq<Byte>, encode: real -> Word, m: Model): (bs: seq<Byte>)
    requires |header| == HeaderSize && |m| < 0x1_0000_0000
    ensures |bs| == FirstRecord + RecordSize * |m|
  {
    header + CountBytes(|m|) + EncodeFacets(encode, m)
  }

  lemma {:induction false} EncodeFloatsAt(encode: real -> Word, fs: seq<real>, j: nat)
    requires j < |fs|
    ensures WordAt(EncodeFloats(encode, fs), 4 * j) == encode(fs[j])
    decreases |fs|
  {
    var n := |fs| - 1;
    var bs := EncodeFloats(encode, fs);
    if j < n {
      EncodeFloatsAt(encode, fs[..n], j);
      assert bs[..4 * n] == EncodeFloats(encode, fs[..n]);
      assert WordAt(bs, 4 * j) == WordAt(bs[..4 * n], 4 * j);
    }
  }

  lemma {:induction false} EncodeFacetsAt(encode: real -> Word, m: Model, i: nat)
    requires i < |m|
    ensures EncodeFacets(encode, m)[RecordSize * i .. RecordSize * (i + 1)] == EncodeFacet(encode, m[i])
    decreases |m|
  {
    var n := |m| - 1;
    var bs := EncodeFacets(encode, m);
    if i < n {
      EncodeFacetsAt(encode, m[..n], i);
      assert bs[..RecordSize * n] == EncodeFacets(encode, m[..n]);
      assert bs[RecordSize * i .. RecordSize * (i + 1)] == bs[..RecordSize * n][RecordSize * i .. RecordSize * (i + 1)];
    }
  }

  lemma CountRoundTrip(bs: seq<Byte>, header: seq<Byte>, n: nat)
    requires |header| == HeaderSize && n < 0x1_0000_0000
    requires |bs| >= FirstRecord && bs[..FirstRecord] == header + CountBytes(n)
    ensures FacetCount(bs) == n
  {
    assert WordAt(bs, HeaderSize) == WordAt(header + CountBytes(n), HeaderSize);
    var w := CountBytes(n);
    var a, b, c := n / 0x100, n / 0x1_0000, n / 0x100_0000;
    assert n == w[0] + 0x100 * a;
    assert a == w[1] + 0x100 * b;
    assert b == w[2] + 0x100 * c;
  }

  lemma WordInSlice(bs: seq<Byte>, start: nat, rec: seq<Byte>, p: nat)
    requires start + |rec| <= |bs| && bs[start .. start + |rec|] == rec && p + 4 <= |rec|
    ensures WordAt(bs, start + p) == WordAt(rec, p)
  {
    assert forall q :: 0 <= q < |rec| ==> bs[start + q] == rec[q];
  }

  /** Record `i` of an encoded file holds the encoding of triangle `i`. */
  lemma RecordOf(header: seq<Byte>, encode: real -> Word, m: Model, i: nat)
    requires |header| == HeaderSize && |m| < 0x1_0000_0000 && i < |m|
    ensures EncodeStl(header, encode, m)[FirstRecord + RecordSize * i .. FirstRecord + RecordSize * (i + 1)]
         == EncodeFacet(encode, m[i])
  {
    var facets := EncodeFacets(encode, m);
    EncodeFacetsAt(encode, m, i);
    assert EncodeStl(header, encode, m)[FirstRecord..] == facets;
  }

  /**
   * Every coordinate of the model survives a write and a read: the model
   * holds only values a 32-bit float represents.
   */
  ghost predicate Stored(encode: real -> Word, decode: Word -> real, m: Model)
  {
    forall t, x :: t in m && x in TriangleFloats(t) ==> decode(encode(x)) == x
  }

  /** Record `i` of an encoded file reads back as triangle `i`. */
  lemma FacetRoundTrip(header: seq<Byte>, encode: real -> Word, decode: Word -> real, m: Model, i: nat)
    requires |header| == HeaderSize && |m| < 0x1_0000_0000 && i < |m|
    requires forall x :: x in TriangleFloats(m[i]) ==> decode(encode(x)) == x
    ensures FacetFloats(EncodeStl(header, encode, m), decode, i) == TriangleFloats(m[i])
  {
    var bs := EncodeStl(header, encode, m);
    var start := FirstRecord + RecordSize * i;
    var rec := EncodeFacet(encode, m[i]);
    var fs := Coordinates(Normal(m[i])) + TriangleFloats(m[i]);
    RecordOf(header, encode, m, i);
    forall j | 0 <= j < 9
      ensures FacetFloats(bs, decode, i)[j] == TriangleFloats(m[i])[j]
    {
      EncodeFloatsAt(encode, fs, 3 + j);
      assert WordAt(rec, 12 + 4 * j) == WordAt(EncodeFloats(encode, fs), 4 * (3 + j));
      WordInSlice(bs, start, rec, 12 + 4 * j);
    }
  }

  /**
   * Round trip: reading back a file written from a model gives the
   * model's flattened vertex stream.
   */
  lemma StlRoundTrip(header: seq<Byte>, encode: real -> Word, decode: Word -> real, m: Model)
    requires |header| == HeaderSize && |m| < 0x1_0000_0000
    requires Stored(encode, decode, m)
    ensures Complete(EncodeStl(header, encode, m))
    ensures StlFloats(EncodeStl(header, encode, m), decode, FacetCount(EncodeStl(header, encode, m))) == Flatten(m)
  {
    var bs := EncodeStl(header, encode, m);
    CountRoundTrip(bs, header, |m|);
    ReadPrefix(header, encode, decode, m, |m|);
    assert m[..|m|] == m;
  }

  lemma {:induction false} ReadPrefix(header: seq<Byte>, encode: real -> Word, decode: Word -> real, m: Model, n: nat)
    requires |header| == HeaderSize && |m| < 0x1_0000_0000 && n <= |m|
    requires Stored(encode, decode, m)
    ensures StlFloats(EncodeStl(header, encode, m), decode, n) == Flatten(m[..n])
    decreases n
  {
    if n > 0 {
      ReadPrefix(header, encode, decode, m, n - 1);
      FacetRoundTrip(header, encode, decode, m, n - 1);
      assert m[..n][..n - 1] == m[..n - 1];
    }
  }
}
