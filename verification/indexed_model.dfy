/**
 * Vertex de-duplication into an index buffer (`IndexedModel`).
 *
 * A flat `x, y, z` float stream, as the model parser exports it, becomes a
 * buffer of distinct vertices in first-occurrence order plus one offset per
 * input vertex.  The `point_map` of the source is a `std::map` ordered by
 * `less_than_vec3`; since that order is strict and total, two keys are
 * equivalent exactly when they are equal, so the map is modelled by a Dafny
 * `map<Vertex, nat>`.
 */
module IndexedModels {
  import opened Wrappers
  import opened Geometry
  import opened SimpleModel
  import ModelParsing

  // ---------------------------------------------------------------------------
  // The key order

  /** `less_than_vec3`: compare x, then y, then z. */
  predicate LessThanVec3(l: Vertex, r: Vertex)
  {
    (l.x < r.x) ||
    (l.x == r.x && l.y < r.y) ||
    (l.x == r.x && l.y == r.y && l.z < r.z)
  }

  /** Lexicographic order on coordinate lists, as an independent reference. */
  predicate LexLess(a: seq<real>, b: seq<real>)
    decreases |a|
  {
    |a| > 0 && |b| > 0 &&
    (a[0] < b[0] || (a[0] == b[0] && LexLess(a[1..], b[1..])))
  }

  /** `less_than_vec3` is the lexicographic order on the coordinate triples. */
  lemma LessThanIsLexicographic(l: Vertex, r: Vertex)
    ensures LessThanVec3(l, r) <==> LexLess(Coordinates(l), Coordinates(r))
  {
    var a, b := Coordinates(l), Coordinates(r);
    assert a[1..][1..][1..] == [] && b[1..][1..][1..] == [];
    assert !LexLess(a[1..][1..][1..], b[1..][1..][1..]);
    assert LexLess(a[1..][1..], b[1..][1..]) <==> l.z < r.z;
    assert LexLess(a[1..], b[1..]) <==> l.y < r.y || (l.y == r.y && l.z < r.z);
  }

  /**
   * The order is a strict total order, so the map's equivalence
   * (neither key less than the other) is plain equality.
   */
  lemma LessThanIsStrictTotal(a: Vertex, b: Vertex, c: Vertex)
    ensures !LessThanVec3(a, a)
    ensures LessThanVec3(a, b) ==> !LessThanVec3(b, a)
    ensures LessThanVec3(a, b) && LessThanVec3(b, c) ==> LessThanVec3(a, c)
    ensures !LessThanVec3(a, b) && !LessThanVec3(b, a) <==> a == b
  {
  }

  // ---------------------------------------------------------------------------
  // The specification of the de-duplication

  predicate Distinct(vs: seq<Vertex>)
  {
    forall i, j :: 0 <= i < j < |vs| ==> vs[i] != vs[j]
  }

  /** The distinct vertices of `vs`, each where it first occurs. */
  function Unique(vs: seq<Vertex>): (u: seq<Vertex>)
    ensures forall v :: v in u <==> v in vs
    ensures Distinct(u)
    ensures |u| <= |vs|
  {
    if vs == [] then []
    else
      var w, u := vs[|vs| - 1], Unique(vs[..|vs| - 1]);
      assert vs == vs[..|vs| - 1] + [w];
      if w in u then u else u + [w]
  }

  /** The position of the first occurrence of `v`. */
  function FirstIndex(vs: seq<Vertex>, v: Vertex): (r: nat)
    requires v in vs
    ensures r < |vs| && vs[r] == v && v !in vs[..r]
  {
    if vs[0] == v then 0
    else
      assert vs == [vs[0]] + vs[1..];
      1 + FirstIndex(vs[1..], v)
  }

  lemma {:induction false} FirstIndexPrefix(vs: seq<Vertex>, w: Vertex, v: Vertex)
    requires v in vs
    ensures FirstIndex(vs + [w], v) == FirstIndex(vs, v)
  {
    if vs[0] != v {
      assert vs == [vs[0]] + vs[1..];
      assert (vs + [w])[1..] == vs[1..] + [w];
      FirstIndexPrefix(vs[1..], w, v);
    }
  }

  /**
   * `Unique` lists the distinct vertices in the order of their first
   * occurrences (with its own ensures, this pins it down completely).
   */
  lemma {:induction false} UniqueInFirstOccurrenceOrder(vs: seq<Vertex>, i: nat, j: nat)
    requires i < j < |Unique(vs)|
    ensures FirstIndex(vs, Unique(vs)[i]) < FirstIndex(vs, Unique(vs)[j])
    decreases |vs|
  {
    var n := |vs| - 1;
    var w, p, u := vs[n], vs[..n], Unique(vs[..n]);
    assert vs == p + [w];
    var a, b := Unique(vs)[i], Unique(vs)[j];
    assert a in p by { assert Unique(vs)[i] == u[i]; }
    FirstIndexPrefix(p, w, a);
    if j < |u| {
      assert Unique(vs)[j] == u[j];
      UniqueInFirstOccurrenceOrder(p, i, j);
      FirstIndexPrefix(p, w, b);
    } else {
      assert b == w && w !in p;
    }
  }

  /** A vertex already seen leaves the unique list as it is; a new one is appended. */
  lemma UniqueExtend(vs: seq<Vertex>, v: Vertex)
    ensures v in vs ==> Unique(vs + [v]) == Unique(vs)
    ensures v !in vs ==> Unique(vs + [v]) == Unique(vs) + [v]
  {
    assert (vs + [v])[..|vs|] == vs;
  }

  /** The position of a vertex in a list of distinct vertices. */
  function IndexIn(u: seq<Vertex>, v: Vertex): (r: nat)
    requires Distinct(u) && v in u
    ensures r < |u| && u[r] == v
    ensures forall j :: 0 <= j < |u| && u[j] == v ==> j == r
  {
    if u[0] == v then 0
    else
      assert u == [u[0]] + u[1..];
      1 + IndexIn(u[1..], v)
  }

  /** Offset k names, in `u`, the vertex k of `vs`. */
  ghost predicate Points(u: seq<Vertex>, vs: seq<Vertex>, offsets: seq<nat>)
  {
    |offsets| == |vs| &&
    forall k :: 0 <= k < |offsets| ==> offsets[k] < |u| && u[offsets[k]] == vs[k]
  }

  /** What an index buffer says about the stream it was built from. */
  ghost predicate Indexes(fs: seq<real>, data: seq<real>, offsets: seq<nat>)
    requires |fs| % 3 == 0
  {
    data == Coords(Unique(Vertices(fs))) && Points(Unique(Vertices(fs)), Vertices(fs), offsets)
  }

  /** Expanding an index buffer: the triple of each offset in turn. */
  function Expand(data: seq<real>, offsets: seq<nat>): (fs: seq<real>)
    requires forall k :: 0 <= k < |offsets| ==> 3 * offsets[k] + 3 <= |data|
    ensures |fs| == 3 * |offsets|
  {
    if offsets == [] then []
    else
      var o := offsets[|offsets| - 1];
      Expand(data, offsets[..|offsets| - 1]) + data[3 * o .. 3 * o + 3]
  }

  /** Reconstruction: an index buffer expands back to the stream it indexes. */
  lemma ExpandIndexes(fs: seq<real>, data: seq<real>, offsets: seq<nat>)
    requires |fs| % 3 == 0 && Indexes(fs, data, offsets)
    ensures forall k :: 0 <= k < |offsets| ==> 3 * offsets[k] + 3 <= |data|
    ensures Expand(data, offsets) == fs
  {
    var u, vs := Unique(Vertices(fs)), Vertices(fs);
    forall k | 0 <= k < |offsets|
      ensures offsets[k] < |u| && Coordinates(u[offsets[k]]) == fs[3 * k .. 3 * k + 3]
    {
      VerticesAt(fs, k);
    }
    ExpandPrefix(fs, u, offsets, |offsets|);
    assert offsets[..|offsets|] == offsets;
  }

  /** The first `n` offsets expand to the first `n` triples of the stream. */
  lemma {:induction false} ExpandPrefix(fs: seq<real>, u: seq<Vertex>, offsets: seq<nat>, n: nat)
    requires |fs| == 3 * |offsets| && n <= |offsets|
    requires forall k :: 0 <= k < |offsets| ==>
      offsets[k] < |u| && Coordinates(u[offsets[k]]) == fs[3 * k .. 3 * k + 3]
    ensures Expand(Coords(u), offsets[..n]) == fs[..3 * n]
    decreases n
  {
    if n > 0 {
      var o := offsets[n - 1];
      assert offsets[..n][..n - 1] == offsets[..n - 1];
      ExpandPrefix(fs, u, offsets, n - 1);
      CoordsAt(u, o);
      assert fs[..3 * n] == fs[..3 * (n - 1)] + fs[3 * (n - 1) .. 3 * n];
    }
  }

  /** Offsets of equal vertices are equal: a repeat reuses the first index. */
  lemma RepeatsShareOffsets(fs: seq<real>, data: seq<real>, offsets: seq<nat>, j: nat, k: nat)
    requires |fs| % 3 == 0 && Indexes(fs, data, offsets)
    requires j < k < |offsets| && Vertices(fs)[j] == Vertices(fs)[k]
    ensures offsets[k] == offsets[j]
    ensures offsets[k] == IndexIn(Unique(Vertices(fs)), Vertices(fs)[k])
  {
    var u := Unique(Vertices(fs));
    assert u[offsets[j]] == u[offsets[k]];
  }

  // ---------------------------------------------------------------------------
  // The de-duplication loop

  /** `point_map` holds each vertex of `u` with its position there. */
  ghost predicate Table(u: seq<Vertex>, pointMap: map<Vertex, nat>)
  {
    (forall v :: v in pointMap <==> v in u) &&
    forall v :: v in pointMap ==> pointMap[v] < |u| && u[pointMap[v]] == v
  }

  lemma AddNew(u: seq<Vertex>, vs: seq<Vertex>, offsets: seq<nat>, pointMap: map<Vertex, nat>, v: Vertex)
    requires Table(u, pointMap) && Points(u, vs, offsets) && v !in pointMap
    ensures Table(u + [v], pointMap[v := |u|])
    ensures Points(u + [v], vs + [v], offsets + [|u|])
  {
    var u', m' := u + [v], pointMap[v := |u|];
    forall w | w in m'
      ensures m'[w] < |u'| && u'[m'[w]] == w
    {
      if w != v {
        assert u'[pointMap[w]] == u[pointMap[w]];
      }
    }
    forall k | 0 <= k < |offsets|
      ensures u'[offsets[k]] == (vs + [v])[k]
    {
      assert u'[offsets[k]] == u[offsets[k]];
    }
  }

  lemma AddKnown(u: seq<Vertex>, vs: seq<Vertex>, offsets: seq<nat>, pointMap: map<Vertex, nat>, v: Vertex)
    requires Table(u, pointMap) && Points(u, vs, offsets) && v in pointMap
    ensures Points(u, vs + [v], offsets + [pointMap[v]])
  {
  }

  /** The constructor's working state: `point_map`, `current_index` and the two buffers. */
  datatype State = State(pointMap: map<Vertex, nat>, currentIndex: nat, data: seq<real>, offsets: seq<nat>)

  /**
   * The state after the constructor's loop has visited `vs`: each vertex is
   * looked up in `point_map`; a new one is given the next index and appended
   * to the vertex buffer, a known one contributes its stored index only.
   */
  function Dedup(vs: seq<Vertex>): (st: State)
    ensures |st.offsets| == |vs|
  {
    if vs == [] then State(map[], 0, [], [])
    else
      var st := Dedup(vs[..|vs| - 1]);
      var v := vs[|vs| - 1];
      if v !in st.pointMap then
        State(st.pointMap[v := st.currentIndex], st.currentIndex + 1,
              st.data + [v.x, v.y, v.z], st.offsets + [st.currentIndex])
      else
        State(st.pointMap, st.currentIndex, st.data, st.offsets + [st.pointMap[v]])
  }

  /**
   * After visiting `vs`, the vertex buffer holds the distinct vertices in
   * first-occurrence order, the map sends each of them to its position, and
   * every offset points at its input vertex.
   */
  lemma {:induction false} DedupSpec(vs: seq<Vertex>)
    ensures var st := Dedup(vs);
      && Table(Unique(vs), st.pointMap) && Points(Unique(vs), vs, st.offsets)
      && st.currentIndex == |Unique(vs)| && st.data == Coords(Unique(vs))
    decreases |vs|
  {
    if vs != [] {
      var n := |vs| - 1;
      var seen, v := vs[..n], vs[n];
      assert vs == seen + [v];
      DedupSpec(seen);
      var st, u := Dedup(seen), Unique(seen);
      UniqueExtend(seen, v);
      if v !in st.pointMap {
        AddNew(u, seen, st.offsets, st.pointMap, v);
        assert (u + [v])[..|u|] == u;
      } else {
        AddKnown(u, seen, st.offsets, st.pointMap, v);
      }
    }
  }

  /**
   * The constructor's loop over the flat stream, one vertex of three floats
   * at a time.  The stream length is a multiple of three because the
   * parser's flattening emits whole vertices.
   */
  method Deduplicate(fs: seq<real>) returns (data: seq<real>, offsets: seq<nat>, count: nat)
    requires |fs| % 3 == 0
    ensures Indexes(fs, data, offsets)
    ensures count == |Unique(Vertices(fs))| && |data| == 3 * count
    ensures |offsets| == |fs| / 3
  {
    var pointMap: map<Vertex, nat> := map[];
    var currentIndex: nat := 0;
    data, offsets := [], [];
    ghost var vs := Vertices(fs);
    ghost var j := 0;
    var i := 0;
    while i < |fs|
      invariant 0 <= j <= |vs| && i == 3 * j && |fs| == 3 * |vs|
      invariant State(pointMap, currentIndex, data, offsets) == Dedup(vs[..j])
    {
      var v := Vertex(fs[i + 0], fs[i + 1], fs[i + 2]);
      VerticesAt(fs, j);
      assert vs[..j + 1][..j] == vs[..j];
      if v !in pointMap {
        pointMap := pointMap[v := currentIndex];
        offsets := offsets + [currentIndex];
        data := data + [v.x, v.y, v.z];
        currentIndex := currentIndex + 1;
      } else {
        offsets := offsets + [pointMap[v]];
      }
      i, j := i + 3, j + 1;
    }
    assert vs[..j] == vs;
    DedupSpec(vs);
    count := currentIndex;
  }

  // ---------------------------------------------------------------------------
  // The indexed model

  class IndexedModel {
    var vertexData: seq<real>
    var vertexOffsets: seq<nat>

    /** The index buffer of one flat vertex stream. */
    constructor FromData(fs: seq<real>)
      requires |fs| % 3 == 0
      ensures Indexes(fs, vertexData, vertexOffsets)
      ensures forall k :: 0 <= k < |vertexOffsets| ==> 3 * vertexOffsets[k] + 3 <= |vertexData|
      ensures Expand(vertexData, vertexOffsets) == fs
    {
      var data, offsets, _ := Deduplicate(fs);
      vertexData, vertexOffsets := data, offsets;
      ExpandIndexes(fs, data, offsets);
    }
  }

  /**
   * `IndexedModel(smp, modelname)`: the exported model's stream is looked
   * up first, which raises for an unknown name.
   */
  method Load(p: ModelParsing.ModelParser, name: string) returns (r: Result<IndexedModel, Error>)
    ensures name !in p.exportedModels <==> r.Failure?
    ensures r.Failure? ==> r.error == RuntimeError("unable to find exported model in SimpleModel")
    ensures r.Success? ==>
      fresh(r.value) &&
      Indexes(Flatten(p.exportedModels[name]), r.value.vertexData, r.value.vertexOffsets)
  {
    var md := p.GetExportedModelData(name);
    if md.Failure? {
      return Failure(md.error);
    }
    var m := new IndexedModel.FromData(md.value.0);
    return Success(m);
  }
}
