/**
 * The geometry of the plain-text model format: a vertex is three coordinates, a
 * triangle three vertices, a model an ordered list of triangles. Floats are
 * modelled as reals (rounding is not modelled); sine and cosine are supplied
 * by the caller as an opaque `Polar` function.
 */
module Geometry {

  datatype Vertex = Vertex(x: real, y: real, z: real)

  datatype Triangle = Triangle(a: Vertex, b: Vertex, c: Vertex)

  type Model = seq<Triangle>

  /** A vertex buffer's contents and the vertex count recorded for it. */
  datatype ModelInfo = ModelInfo(data: seq<real>, vertices: int)

  const Origin: Vertex := Vertex(0.0, 0.0, 0.0)

  /** `(cos θ, sin θ)` for θ = i·2π/n, as the generators compute it. */
  type Polar = (int, int) -> (real, real)

  // ---------------------------------------------------------------------------
  // Flattening a model into an x,y,z float stream and back

  function TriangleFloats(t: Triangle): (fs: seq<real>)
  {
    [t.a.x, t.a.y, t.a.z, t.b.x, t.b.y, t.b.z, t.c.x, t.c.y, t.c.z]
  }

  /** x, y, z of every vertex of every triangle, in order. */
  function Flatten(m: Model): (fs: seq<real>)
    ensures |fs| == 9 * |m| && |fs| % 3 == 0
  {
    if m == [] then [] else Flatten(m[..|m| - 1]) + TriangleFloats(m[|m| - 1])
  }

  function TriangleOf(fs: seq<real>): Triangle
    requires |fs| == 9
  {
    Triangle(Vertex(fs[0], fs[1], fs[2]), Vertex(fs[3], fs[4], fs[5]), Vertex(fs[6], fs[7], fs[8]))
  }

  /** Groups a float stream nine at a time into triangles. */
  function Regroup(fs: seq<real>): (m: Model)
    requires |fs| % 9 == 0
    ensures |m| == |fs| / 9
  {
    if fs == [] then [] else Regroup(fs[..|fs| - 9]) + [TriangleOf(fs[|fs| - 9..])]
  }

  /** Regrouping a flattened model gives back the model. */
  lemma {:induction false} RegroupFlatten(m: Model)
    ensures Regroup(Flatten(m)) == m
    decreases |m|
  {
    if m != [] {
      var fs := Flatten(m);
      assert fs[..|fs| - 9] == Flatten(m[..|m| - 1]);
      assert fs[|fs| - 9..] == TriangleFloats(m[|m| - 1]);
      RegroupFlatten(m[..|m| - 1]);
    }
  }

  /** Flattening a regrouped stream gives back the stream. */
  lemma {:induction false} FlattenRegroup(fs: seq<real>)
    requires |fs| % 9 == 0
    ensures Flatten(Regroup(fs)) == fs
    decreases |fs|
  {
    if fs != [] {
      var pre, last := fs[..|fs| - 9], fs[|fs| - 9..];
      var m := Regroup(fs);
      assert m == Regroup(pre) + [TriangleOf(last)];
      assert m[..|m| - 1] == Regroup(pre);
      FlattenRegroup(pre);
      TriangleOfFloats(last);
      assert Flatten(m) == Flatten(Regroup(pre)) + TriangleFloats(TriangleOf(last));
      assert fs == pre + last;
    }
  }

  lemma TriangleOfFloats(s: seq<real>)
    requires |s| == 9
    ensures TriangleFloats(TriangleOf(s)) == s
  {
  }

  /** Where each coordinate of each vertex lands in the flattened stream. */
  lemma {:induction false} FlattenAt(m: Model, k: nat)
    requires k < |m|
    ensures Flatten(m)[9 * k..9 * k + 9] == TriangleFloats(m[k])
    decreases |m|
  {
    var fs := Flatten(m);
    if k < |m| - 1 {
      FlattenAt(m[..|m| - 1], k);
      assert fs[9 * k..9 * k + 9] == Flatten(m[..|m| - 1])[9 * k..9 * k + 9];
    }
  }

  /** The flattening loop shared by both model-data getters. */
  method FlattenModel(m: Model) returns (fs: seq<real>)
    ensures fs == Flatten(m)
  {
    fs := [];
    for k := 0 to |m|
      invariant fs == Flatten(m[..k])
    {
      var t := m[k];
      fs := fs + [t.a.x, t.a.y, t.a.z];
      fs := fs + [t.b.x, t.b.y, t.b.z];
      fs := fs + [t.c.x, t.c.y, t.c.z];
      assert m[..k + 1][..k] == m[..k];
    }
    assert m[..|m|] == m;
  }

  // ---------------------------------------------------------------------------
  // Flat-shaded normals

  /** The unnormalised cross product of d1 = b - a and d2 = c - b. */
  function Normal(t: Triangle): Vertex
  {
    var d1 := Vertex(t.b.x - t.a.x, t.b.y - t.a.y, t.b.z - t.a.z);
    var d2 := Vertex(t.c.x - t.b.x, t.c.y - t.b.y, t.c.z - t.b.z);
    Vertex(d1.y * d2.z - d1.z * d2.y, d1.z * d2.x - d1.x * d2.z, d1.x * d2.y - d1.y * d2.x)
  }

  /** The face normal of `t` three times over, as x, y, z floats. */
  function NormalTriple(t: Triangle): (fs: seq<real>)
    ensures |fs| == 9
  {
    var c := Normal(t);
    TriangleFloats(Triangle(c, c, c))
  }

  /** The normal stream: for each nine-float triangle of `v`, its face normal once per vertex. */
  function NormalFloats(v: seq<real>): (n: seq<real>)
    requires |v| % 9 == 0
    ensures |n| == |v|
  {
    if v == [] then [] else NormalFloats(v[..|v| - 9]) + NormalTriple(TriangleOf(v[|v| - 9..]))
  }

  /** `c` pushed `j` times, as the inner loop of the normal computation does. */
  function Repeated(c: Vertex, j: nat): seq<real>
  {
    if j == 0 then [] else Repeated(c, j - 1) + [c.x, c.y, c.z]
  }

  /**
   * The normal loop: nine floats (one triangle) at a time, the face normal
   * pushed three times. The stream must hold whole triangles: the loop reads
   * nine floats past every index it visits.
   */
  method CalculateNormals(v: seq<real>) returns (n: seq<real>)
    requires |v| % 9 == 0
    ensures n == NormalFloats(v)
  {
    n := [];
    var i := 0;
    while i < |v|
      invariant 0 <= i <= |v| && i % 9 == 0
      invariant n == NormalFloats(v[..i])
    {
      var t := TriangleOf(v[i..i + 9]);
      var c := Normal(t);
      ghost var before := n;
      for j := 0 to 3
        invariant n == before + Repeated(c, j)
      {
        n := n + [c.x, c.y, c.z];
      }
      assert Repeated(c, 2) == [c.x, c.y, c.z, c.x, c.y, c.z];
      assert Repeated(c, 3) == NormalTriple(t);
      assert v[..i + 9][..i] == v[..i];
      assert v[..i + 9][i..] == v[i..i + 9];
      assert NormalFloats(v[..i + 9]) == NormalFloats(v[..i]) + NormalTriple(t);
      i := i + 9;
    }
    assert v[..i] == v;
  }

  /** Triangle k of the stream has its face normal at each of its three vertices. */
  lemma {:induction false} NormalsAt(v: seq<real>, k: nat)
    requires |v| % 9 == 0 && k < |v| / 9
    ensures NormalFloats(v)[9 * k..9 * k + 9] == NormalTriple(TriangleOf(v[9 * k..9 * k + 9]))
    decreases |v|
  {
    var n := NormalFloats(v);
    var w := v[..|v| - 9];
    if k < |v| / 9 - 1 {
      NormalsAt(w, k);
      assert w[9 * k..9 * k + 9] == v[9 * k..9 * k + 9];
      assert n[9 * k..9 * k + 9] == NormalFloats(w)[9 * k..9 * k + 9];
    } else {
      assert n[9 * k..9 * k + 9] == n[|v| - 9..];
    }
  }

  /** Computed from a flattened model, the normal stream holds triangle k's face normal at each of its vertices. */
  lemma NormalsOfModel(m: Model, k: nat)
    requires k < |m|
    ensures NormalFloats(Flatten(m))[9 * k..9 * k + 9] == NormalTriple(m[k])
  {
    var v := Flatten(m);
    assert |v| / 9 == |m|;
    FlattenAt(m, k);
    var w := v[9 * k..9 * k + 9];
    assert w == TriangleFloats(m[k]);
    assert TriangleOf(w) == m[k];
    NormalsAt(v, k);
  }

  // ---------------------------------------------------------------------------
  // Per-vertex transforms

  function ApplyToTriangle(t: Triangle, f: Vertex -> Vertex): Triangle
  {
    Triangle(f(t.a), f(t.b), f(t.c))
  }

  /** The model with `f` applied to every vertex of every triangle. */
  function Transformed(m: Model, f: Vertex -> Vertex): (r: Model)
    ensures |r| == |m|
  {
    seq(|m|, k requires 0 <= k < |m| => ApplyToTriangle(m[k], f))
  }

  /** The in-place loop over a copied model: every vertex replaced by its image. */
  method TransformModel(m: Model, f: Vertex -> Vertex) returns (r: Model)
    ensures |r| == |m|
    ensures forall k :: 0 <= k < |m| ==> r[k] == Triangle(f(m[k].a), f(m[k].b), f(m[k].c))
    ensures r == Transformed(m, f)
  {
    r := m;
    for k := 0 to |r|
      invariant |r| == |m|
      invariant forall j :: 0 <= j < k ==> r[j] == ApplyToTriangle(m[j], f)
      invariant forall j :: k <= j < |m| ==> r[j] == m[j]
    {
      var t := r[k];
      r := r[k := Triangle(f(t.a), f(t.b), f(t.c))];
    }
  }

  /** `glm::translate` by (dx, dy, dz) applied to a point. */
  function Translate(d: Vertex): Vertex -> Vertex
  {
    (v: Vertex) => Vertex(v.x + d.x, v.y + d.y, v.z + d.z)
  }

  /** `glm::scale` by (sx, sy, sz) applied to a point. */
  function Scale(s: Vertex): Vertex -> Vertex
  {
    (v: Vertex) => Vertex(v.x * s.x, v.y * s.y, v.z * s.z)
  }

  // ---------------------------------------------------------------------------
  // Generators

  /** Point i of an n-gon of the given radius in the XZ plane at height y. */
  function RimPoint(polar: Polar, i: int, n: int, radius: real, y: real): Vertex
  {
    var p := polar(i, n);
    Vertex(radius * p.0, y, radius * p.1)
  }

  /** Fan triangle i of an n-gon: rim point i, rim point i+1 (mod n), the origin. */
  function FanTriangle(polar: Polar, i: int, n: int, radius: real): Triangle
    requires n > 0
  {
    Triangle(RimPoint(polar, i, n, radius, 0.0), RimPoint(polar, (i + 1) % n, n, radius, 0.0), Origin)
  }

  /** The model `generate_circle` builds: one fan triangle per rim point, none for n <= 0. */
  function Circle(n: int, radius: real, polar: Polar): (m: Model)
    ensures |m| == if n > 0 then n else 0
  {
    if n <= 0 then
      []
    else
      seq(n, i requires 0 <= i < n => FanTriangle(polar, i, n, radius))
  }

  /** Every fan triangle lies in the plane y = 0 and has its third vertex at the origin. */
  lemma CircleShape(n: int, radius: real, polar: Polar)
    ensures var m := Circle(n, radius, polar);
      forall k :: 0 <= k < |m| ==>
        m[k].c == Origin && m[k].a.y == 0.0 && m[k].b.y == 0.0 && m[k].c.y == 0.0
  {
  }

  /** Every vertex raised to height h, as the cylinder's top cap is built. */
  function Lift(m: Model, h: real): (r: Model)
    ensures |r| == |m|
    ensures forall k :: 0 <= k < |m| ==> r[k].a.y == h && r[k].b.y == h && r[k].c.y == h
  {
    seq(|m|, k requires 0 <= k < |m| =>
      Triangle(m[k].a.(y := h), m[k].b.(y := h), m[k].c.(y := h)))
  }

  /** The two side triangles of the cylinder between rim points i and i+1. */
  function SidePair(n: int, radius: real, h: real, polar: Polar, i: int): Model
    requires n > 0
  {
    var j := (i + 1) % n;
    [ Triangle(RimPoint(polar, i, n, radius, 0.0), RimPoint(polar, j, n, radius, 0.0), RimPoint(polar, j, n, radius, h)),
      Triangle(RimPoint(polar, i, n, radius, 0.0), RimPoint(polar, j, n, radius, h), RimPoint(polar, i, n, radius, h)) ]
  }

  /** The side pairs for the first `count` rim points, in rim order. */
  function Sides(n: int, radius: real, h: real, polar: Polar, count: nat): (m: Model)
    requires n > 0
    ensures |m| == 2 * count
    decreases count
  {
    if count == 0 then [] else Sides(n, radius, h, polar, count - 1) + SidePair(n, radius, h, polar, count - 1)
  }

  /** The `(gcyl)` model: bottom cap, top cap, then two side triangles per rim point. */
  function Cylinder(n: int, radius: real, h: real, polar: Polar): (m: Model)
    ensures |m| == if n > 0 then 4 * n else 0
  {
    var bottom := Circle(n, radius, polar);
    bottom + Lift(bottom, h) + (if n > 0 then Sides(n, radius, h, polar, n) else [])
  }

  /**
   * The cylinder has 4k triangles for k rim points: the k bottom-cap triangles
   * at y = 0 first, then k top-cap triangles at y = h, then 2k side triangles.
   */
  lemma CylinderShape(n: int, radius: real, h: real, polar: Polar)
    ensures var k := if n > 0 then n else 0;
      var m := Cylinder(n, radius, h, polar);
      && |m| == 4 * k
      && m[..k] == Circle(n, radius, polar)
      && (forall i :: 0 <= i < k ==> m[i].a.y == 0.0 && m[i].b.y == 0.0 && m[i].c.y == 0.0)
      && (forall i :: k <= i < 2 * k ==> m[i].a.y == h && m[i].b.y == h && m[i].c.y == h)
      && (n > 0 ==> m[2 * k..] == Sides(n, radius, h, polar, n))
  {
    var k := if n > 0 then n else 0;
    var bottom := Circle(n, radius, polar);
    var m := Cylinder(n, radius, h, polar);
    CircleShape(n, radius, polar);
    assert m[..k] == bottom;
    forall i | k <= i < 2 * k
      ensures m[i].a.y == h && m[i].b.y == h && m[i].c.y == h
    {
      assert m[i] == Lift(bottom, h)[i - k];
    }
  }

  /** The rim points both generators compute in their first loop. */
  method RimPoints(n: int, radius: real, polar: Polar) returns (pts: seq<(real, real)>)
    ensures |pts| == if n > 0 then n else 0
    ensures forall i :: 0 <= i < |pts| ==> Vertex(pts[i].0, 0.0, pts[i].1) == RimPoint(polar, i, n, radius, 0.0)
    ensures forall i, y :: 0 <= i < |pts| ==> Vertex(pts[i].0, y, pts[i].1) == RimPoint(polar, i, n, radius, y)
  {
    pts := [];
    var i := 0;
    while i < n
      invariant 0 <= i <= (if n > 0 then n else 0) && |pts| == i
      invariant forall j, y :: 0 <= j < i ==> Vertex(pts[j].0, y, pts[j].1) == RimPoint(polar, j, n, radius, y)
    {
      var p := polar(i, n);
      pts := pts + [(radius * p.0, radius * p.1)];
      i := i + 1;
    }
  }

  /** `generate_circle`: the rim points, then one fan triangle per point. */
  method GenerateCircle(n: int, radius: real, polar: Polar) returns (m: Model)
    ensures m == Circle(n, radius, polar)
  {
    var pts := RimPoints(n, radius, polar);
    m := [];
    var i := 0;
    while i < n
      invariant 0 <= i <= (if n > 0 then n else 0) && |m| == i
      invariant forall j :: 0 <= j < i ==> m[j] == FanTriangle(polar, j, n, radius)
    {
      var p := pts[i];
      var q := pts[(i + 1) % n];
      m := m + [Triangle(Vertex(p.0, 0.0, p.1), Vertex(q.0, 0.0, q.1), Origin)];
      i := i + 1;
    }
  }

  /** The top-cap loop of `(gcyl)`: a copy of the bottom cap with every y set to h. */
  method LiftModel(bottom: Model, h: real) returns (top: Model)
    ensures top == Lift(bottom, h)
  {
    top := bottom;
    for k := 0 to |top|
      invariant |top| == |bottom|
      invariant forall j :: 0 <= j < k ==> top[j] == Lift(bottom, h)[j]
      invariant forall j :: k <= j < |top| ==> top[j] == bottom[j]
    {
      var t := top[k];
      top := top[k := Triangle(t.a.(y := h), t.b.(y := h), t.c.(y := h))];
    }
  }

  /** The side loop of `(gcyl)`: two triangles per rim point. */
  method SideTriangles(n: int, radius: real, h: real, polar: Polar) returns (sides: Model)
    ensures n > 0 ==> sides == Sides(n, radius, h, polar, n)
    ensures n <= 0 ==> sides == []
  {
    var pts := RimPoints(n, radius, polar);
    sides := [];
    var i := 0;
    while i < n
      invariant 0 <= i <= (if n > 0 then n else 0)
      invariant n > 0 ==> sides == Sides(n, radius, h, polar, i)
      invariant n <= 0 ==> sides == []
    {
      var p := pts[i];
      var q := pts[(i + 1) % n];
      sides := sides + [Triangle(Vertex(p.0, 0.0, p.1), Vertex(q.0, 0.0, q.1), Vertex(q.0, h, q.1))];
      sides := sides + [Triangle(Vertex(p.0, 0.0, p.1), Vertex(q.0, h, q.1), Vertex(p.0, h, p.1))];
      i := i + 1;
    }
  }

  /** The `(gcyl)` generator: a circle, a lifted copy of it, then the side triangles. */
  method GenerateCylinder(n: int, radius: real, h: real, polar: Polar) returns (m: Model)
    ensures m == Cylinder(n, radius, h, polar)
  {
    var bottom := GenerateCircle(n, radius, polar);
    var top := LiftModel(bottom, h);
    var sides := SideTriangles(n, radius, h, polar);
    m := bottom + top + sides;
  }

  // ---------------------------------------------------------------------------
  // Flat streams of single vertices

  /** A vertex as its three floats. */
  function Coordinates(v: Vertex): (c: seq<real>)
    ensures |c| == 3 && c[0] == v.x && c[1] == v.y && c[2] == v.z
  {
    [v.x, v.y, v.z]
  }

  /** The vertices of a flat stream: triple k is vertex k. */
  function Vertices(fs: seq<real>): (vs: seq<Vertex>)
    requires |fs| % 3 == 0
    ensures |vs| == |fs| / 3
  {
    if fs == [] then []
    else
      var n := |fs| - 3;
      Vertices(fs[..n]) + [Vertex(fs[n], fs[n + 1], fs[n + 2])]
  }

  /** Vertex k is made of the floats 3k, 3k+1 and 3k+2. */
  lemma {:induction false} VerticesAt(fs: seq<real>, k: nat)
    requires |fs| % 3 == 0 && k < |fs| / 3
    ensures Vertices(fs)[k] == Vertex(fs[3 * k], fs[3 * k + 1], fs[3 * k + 2])
    ensures Coordinates(Vertices(fs)[k]) == fs[3 * k .. 3 * k + 3]
    decreases |fs|
  {
    var n := |fs| - 3;
    if 3 * k < n {
      VerticesAt(fs[..n], k);
    }
  }

  /** The flat stream of a vertex sequence. */
  function Coords(vs: seq<Vertex>): (fs: seq<real>)
    ensures |fs| == 3 * |vs|
  {
    if vs == [] then [] else Coords(vs[..|vs| - 1]) + Coordinates(vs[|vs| - 1])
  }

  lemma {:induction false} CoordsAt(vs: seq<Vertex>, j: nat)
    requires j < |vs|
    ensures Coords(vs)[3 * j .. 3 * j + 3] == Coordinates(vs[j])
    decreases |vs|
  {
    var n := |vs| - 1;
    if j < n {
      CoordsAt(vs[..n], j);
      assert vs[..n][j] == vs[j];
      assert Coords(vs)[..3 * n] == Coords(vs[..n]);
      assert Coords(vs)[3 * j .. 3 * j + 3] == Coords(vs)[..3 * n][3 * j .. 3 * j + 3];
    }
  }

  /** Cutting a stream into vertices and flattening them back is the identity. */
  lemma {:induction false} CoordsOfVertices(fs: seq<real>)
    requires |fs| % 3 == 0
    ensures Coords(Vertices(fs)) == fs
    decreases |fs|
  {
    if fs != [] {
      var n := |fs| - 3;
      var vs := Vertices(fs);
      assert vs[..|vs| - 1] == Vertices(fs[..n]);
      CoordsOfVertices(fs[..n]);
      assert fs == fs[..n] + [fs[n], fs[n + 1], fs[n + 2]];
    }
  }

  /** Flattening distributes over concatenation. */
  lemma {:induction false} CoordsAppend(a: seq<Vertex>, b: seq<Vertex>)
    ensures Coords(a + b) == Coords(a) + Coords(b)
    decreases |b|
  {
    if b != [] {
      var n := |b| - 1;
      assert (a + b)[..|a + b| - 1] == a + b[..n];
      assert (a + b)[|a + b| - 1] == b[n];
      CoordsAppend(a, b[..n]);
    } else {
      assert a + b == a;
    }
  }

  lemma CoordsCons(a: Vertex, p: seq<Vertex>)
    ensures Coords([a] + p) == Coordinates(a) + Coords(p)
  {
    CoordsAppend([a], p);
    assert [a][..0] == [];
  }

  /** The floats of a short explicit vertex list. */
  lemma CoordsOfFour(a: Vertex, b: Vertex, c: Vertex, d: Vertex)
    ensures Coords([a, b, c, d]) == Coordinates(a) + Coordinates(b) + Coordinates(c) + Coordinates(d)
  {
    CoordsCons(a, [b, c, d]);
    assert [a, b, c, d] == [a] + [b, c, d];
    CoordsCons(b, [c, d]);
    assert [b, c, d] == [b] + [c, d];
    CoordsCons(c, [d]);
    assert [c, d] == [c] + [d];
    CoordsCons(d, []);
    assert [d] == [d] + [];
  }
}
