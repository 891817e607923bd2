/**
 * The axis and ground-grid line buffers of `loadXYGrid`.
 *
 * The vertex buffer holds line segments as vertex pairs: the three axes,
 * then grid lines on the y = 0 plane at every inner integer x and z.  The
 * colour buffer gives each vertex an RGB triple.  The upload of the two
 * buffers is modelled by the buffer contents and the vertex counts stored
 * in the two `ModelInfo` records.
 */
module AxisGrid {
  import opened Geometry

  const Red: Vertex := Vertex(1.0, 0.0, 0.0)
  const Green: Vertex := Vertex(0.0, 1.0, 0.0)
  const Blue: Vertex := Vertex(0.0, 0.0, 1.0)
  const Black: Vertex := Vertex(0.0, 0.0, 0.0)

  /** The x, y and z axis segments. */
  function Axes(xLen: int, yLen: int, zLen: int): seq<Vertex>
  {
    [Vertex(-xLen as real, 0.0, 0.0), Vertex(xLen as real, 0.0, 0.0),
     Vertex(0.0, yLen as real, 0.0), Vertex(0.0, -yLen as real, 0.0),
     Vertex(0.0, 0.0, zLen as real), Vertex(0.0, 0.0, -zLen as real)]
  }

  /** The four vertices of the grid lines at x = `x` and x = `-x`. */
  function XPair(x: int, zLen: int): seq<Vertex>
  {
    [Vertex(x as real, 0.0, zLen as real), Vertex(x as real, 0.0, -zLen as real),
     Vertex(-x as real, 0.0, zLen as real), Vertex(-x as real, 0.0, -zLen as real)]
  }

  /** The four vertices of the grid lines at z = `z` and z = `-z`. */
  function ZPair(z: int, xLen: int): seq<Vertex>
  {
    [Vertex(xLen as real, 0.0, z as real), Vertex(-xLen as real, 0.0, z as real),
     Vertex(xLen as real, 0.0, -z as real), Vertex(-xLen as real, 0.0, -z as real)]
  }

  /**
   * The lines at x = 1, -1, 2, -2, ..., n, -n: line j lies on y = 0 at
   * x = (j / 2 + 1) for even j and its negation for odd j, and runs from
   * z = zLen to z = -zLen.
   */
  function XLines(zLen: int, n: nat): (g: seq<Vertex>)
    ensures |g| == 4 * n
    ensures forall j :: 0 <= j < 2 * n ==>
      var x := (if j % 2 == 0 then 1 else -1) * (j / 2 + 1);
      g[2 * j] == Vertex(x as real, 0.0, zLen as real) && g[2 * j + 1] == Vertex(x as real, 0.0, -zLen as real)
  {
    if n == 0 then [] else XLines(zLen, n - 1) + XPair(n, zLen)
  }

  /**
   * The lines at z = 1, -1, ..., n, -n: line j lies on y = 0 at z = ±(j / 2 + 1)
   * and runs from x = xLen to x = -xLen.
   */
  function ZLines(xLen: int, n: nat): (g: seq<Vertex>)
    ensures |g| == 4 * n
    ensures forall j :: 0 <= j < 2 * n ==>
      var z := (if j % 2 == 0 then 1 else -1) * (j / 2 + 1);
      g[2 * j] == Vertex(xLen as real, 0.0, z as real) && g[2 * j + 1] == Vertex(-xLen as real, 0.0, z as real)
  {
    if n == 0 then [] else ZLines(xLen, n - 1) + ZPair(n, xLen)
  }

  /** The number of inner grid lines on each side of an axis of half-length `len`. */
  function Inner(len: int): nat
  {
    if len > 1 then len - 1 else 0
  }

  /** Every vertex of `loadXYGrid`'s vertex buffer, in order. */
  function Grid(xLen: int, yLen: int, zLen: int): (g: seq<Vertex>)
    ensures |g| == 6 + 4 * Inner(xLen) + 4 * Inner(zLen)
  {
    Axes(xLen, yLen, zLen) + XLines(zLen, Inner(xLen)) + ZLines(xLen, Inner(zLen))
  }

  /** Two red, two green and two blue vertices, then black for the rest. */
  function Colours(n: nat): (c: seq<Vertex>)
    requires n >= 6
    ensures |c| == n
    ensures c[..6] == [Red, Red, Green, Green, Blue, Blue]
    ensures forall k :: 6 <= k < n ==> c[k] == Black
  {
    [Red, Red, Green, Green, Blue, Blue] + seq(n - 6, _ => Black)
  }

  // ---------------------------------------------------------------------------
  // Properties

  /** For lengths of at least one, the vertex count is 6 + 4(x_len - 1) + 4(z_len - 1). */
  lemma GridSize(xLen: int, yLen: int, zLen: int)
    requires xLen >= 1 && zLen >= 1
    ensures |Grid(xLen, yLen, zLen)| == 6 + 4 * (xLen - 1) + 4 * (zLen - 1)
  {
  }

  /** Every grid-line vertex lies on the y = 0 plane. */
  lemma GridLinesLieFlat(xLen: int, yLen: int, zLen: int, k: int)
    requires 6 <= k < |Grid(xLen, yLen, zLen)|
    ensures Grid(xLen, yLen, zLen)[k].y == 0.0
  {
    var g, nx := Grid(xLen, yLen, zLen), 4 * Inner(xLen);
    if k < 6 + nx {
      assert g[k] == XLines(zLen, Inner(xLen))[k - 6];
      var j := (k - 6) / 2;
      assert k - 6 == 2 * j || k - 6 == 2 * j + 1;
      assert XLines(zLen, Inner(xLen))[2 * j].y == 0.0 && XLines(zLen, Inner(xLen))[2 * j + 1].y == 0.0;
    } else {
      assert g[k] == ZLines(xLen, Inner(zLen))[k - 6 - nx];
      var j := (k - 6 - nx) / 2;
      assert k - 6 - nx == 2 * j || k - 6 - nx == 2 * j + 1;
      assert 0 <= j < 2 * Inner(zLen);
      assert ZLines(xLen, Inner(zLen))[2 * j].y == 0.0 && ZLines(xLen, Inner(zLen))[2 * j + 1].y == 0.0;
    }
  }

  /**
   * The grid lines come in segments parallel to an axis: the x-lines keep
   * their x and run from z = z_len to z = -z_len, the z-lines keep their z
   * and run from x = x_len to x = -x_len; no line sits on an axis.
   */
  lemma GridLinesSpan(xLen: int, yLen: int, zLen: int, j: int)
    requires 0 <= j < 2 * (Inner(xLen) + Inner(zLen))
    ensures var g, a, b := Grid(xLen, yLen, zLen), 6 + 2 * j, 6 + 2 * j + 1;
      if j < 2 * Inner(xLen) then
        g[a].x == g[b].x && g[a].x != 0.0 && g[a].z == zLen as real && g[b].z == -zLen as real
      else
        g[a].z == g[b].z && g[a].z != 0.0 && g[a].x == xLen as real && g[b].x == -xLen as real
  {
    var g, nx := Grid(xLen, yLen, zLen), Inner(xLen);
    var a := 6 + 2 * j;
    if j < 2 * nx {
      assert g[a] == XLines(zLen, nx)[2 * j] && g[a + 1] == XLines(zLen, nx)[2 * j + 1];
    } else {
      var i := j - 2 * nx;
      assert a - 6 - 4 * nx == 2 * i;
      assert g[a] == ZLines(xLen, Inner(zLen))[2 * i] && g[a + 1] == ZLines(xLen, Inner(zLen))[2 * i + 1];
    }
  }

  /** `y_len` moves only the two ends of the y axis. */
  lemma OnlyYAxisUsesYLen(xLen: int, yLen: int, yLen': int, zLen: int, k: int)
    requires 0 <= k < |Grid(xLen, yLen, zLen)| && k != 2 && k != 3
    ensures Grid(xLen, yLen, zLen)[k] == Grid(xLen, yLen', zLen)[k]
  {
    var g, g' := Grid(xLen, yLen, zLen), Grid(xLen, yLen', zLen);
    if k >= 6 {
      assert g[k] == (XLines(zLen, Inner(xLen)) + ZLines(xLen, Inner(zLen)))[k - 6] == g'[k];
    }
  }

  // ---------------------------------------------------------------------------
  // The generator

  lemma XStep(xLen: int, yLen: int, zLen: int, x: int)
    requires 1 <= x
    ensures Coords(Axes(xLen, yLen, zLen) + XLines(zLen, x)) ==
      Coords(Axes(xLen, yLen, zLen) + XLines(zLen, x - 1)) +
      [x as real, 0.0, zLen as real, x as real, 0.0, -zLen as real] +
      [-x as real, 0.0, zLen as real, -x as real, 0.0, -zLen as real]
  {
    var a := Axes(xLen, yLen, zLen);
    assert a + XLines(zLen, x) == (a + XLines(zLen, x - 1)) + XPair(x, zLen);
    CoordsAppend(a + XLines(zLen, x - 1), XPair(x, zLen));
    var p := XPair(x, zLen);
    CoordsOfFour(p[0], p[1], p[2], p[3]);
    assert p == [p[0], p[1], p[2], p[3]];
  }

  lemma ZStep(front: seq<Vertex>, xLen: int, zLen: int, z: int)
    requires 1 <= z
    ensures Coords(front + ZLines(xLen, z)) ==
      Coords(front + ZLines(xLen, z - 1)) +
      [xLen as real, 0.0, z as real, -xLen as real, 0.0, z as real] +
      [xLen as real, 0.0, -z as real, -xLen as real, 0.0, -z as real]
  {
    assert front + ZLines(xLen, z) == (front + ZLines(xLen, z - 1)) + ZPair(z, xLen);
    CoordsAppend(front + ZLines(xLen, z - 1), ZPair(z, xLen));
    var p := ZPair(z, xLen);
    CoordsOfFour(p[0], p[1], p[2], p[3]);
    assert p == [p[0], p[1], p[2], p[3]];
  }

  lemma SixCoords(p: seq<Vertex>)
    requires |p| == 6
    ensures Coords(p) == Coordinates(p[0]) + Coordinates(p[1]) + Coordinates(p[2]) +
      Coordinates(p[3]) + Coordinates(p[4]) + Coordinates(p[5])
  {
    CoordsOfFour(p[2], p[3], p[4], p[5]);
    assert p[2..] == [p[2], p[3], p[4], p[5]];
    CoordsCons(p[1], p[2..]);
    assert p[1..] == [p[1]] + p[2..];
    CoordsCons(p[0], p[1..]);
    assert p == [p[0]] + p[1..];
  }

  lemma ColourStep(n: nat)
    requires n >= 6
    ensures Coords(Colours(n + 1)) == Coords(Colours(n)) + [0.0, 0.0, 0.0]
  {
    assert Colours(n + 1) == Colours(n) + [Black];
  }

  /** `loadXYGrid(x_len, y_len, z_len)`: both buffers, vertex by vertex. */
  method LoadXYGrid(xLen: int, yLen: int, zLen: int) returns (verts: ModelInfo, colours: ModelInfo)
    ensures verts == ModelInfo(Coords(Grid(xLen, yLen, zLen)), |Grid(xLen, yLen, zLen)|)
    ensures colours == ModelInfo(Coords(Colours(|Grid(xLen, yLen, zLen)|)), |Grid(xLen, yLen, zLen)|)
  {
    var v := VertexBuffer(xLen, yLen, zLen);
    var colors := ColourBuffer(v);
    verts := ModelInfo(v, |v| / 3);
    colours := ModelInfo(colors, |colors| / 3);
  }

  /** The vertex half of `loadXYGrid`: the axes, the x-lines, then the z-lines. */
  method VertexBuffer(xLen: int, yLen: int, zLen: int) returns (v: seq<real>)
    ensures v == Coords(Grid(xLen, yLen, zLen))
  {
    v := [];
    ghost var axes := Axes(xLen, yLen, zLen);
    v := v + [-xLen as real, 0.0, 0.0, xLen as real, 0.0, 0.0];
    v := v + [0.0, yLen as real, 0.0, 0.0, -yLen as real, 0.0];
    v := v + [0.0, 0.0, zLen as real, 0.0, 0.0, -zLen as real];
    assert v == Coords(axes + XLines(zLen, 0)) by {
      assert axes + XLines(zLen, 0) == axes;
      SixCoords(axes);
    }

    var x := 1;
    while x < xLen
      invariant 1 <= x && (x <= xLen || x == 1)
      invariant v == Coords(axes + XLines(zLen, x - 1))
    {
      XStep(xLen, yLen, zLen, x);
      v := v + [x as real, 0.0, zLen as real, x as real, 0.0, -zLen as real];
      v := v + [-x as real, 0.0, zLen as real, -x as real, 0.0, -zLen as real];
      x := x + 1;
    }
    ghost var front := axes + XLines(zLen, Inner(xLen));
    assert v == Coords(front + ZLines(xLen, 0)) by {
      assert x - 1 == Inner(xLen);
      assert front + ZLines(xLen, 0) == front;
    }

    var z := 1;
    while z < zLen
      invariant 1 <= z && (z <= zLen || z == 1)
      invariant v == Coords(front + ZLines(xLen, z - 1))
    {
      ZStep(front, xLen, zLen, z);
      v := v + [xLen as real, 0.0, z as real, -xLen as real, 0.0, z as real];
      v := v + [xLen as real, 0.0, -z as real, -xLen as real, 0.0, -z as real];
      z := z + 1;
    }
    assert z - 1 == Inner(zLen);
  }

  /** The colour half of `loadXYGrid`: one triple per vertex of `v`. */
  method ColourBuffer(v: seq<real>) returns (colors: seq<real>)
    requires |v| % 3 == 0 && |v| >= 18
    ensures colors == Coords(Colours(|v| / 3))
  {
    colors := [];
    colors := colors + [1.0, 0.0, 0.0];
    colors := colors + [1.0, 0.0, 0.0];
    colors := colors + [0.0, 1.0, 0.0];
    colors := colors + [0.0, 1.0, 0.0];
    colors := colors + [0.0, 0.0, 1.0];
    colors := colors + [0.0, 0.0, 1.0];
    assert colors == Coords(Colours(6)) by {
      SixCoords(Colours(6));
    }
    ghost var n, total := 6, |v| / 3;
    var i := 18;
    while i < |v|
      invariant 6 <= n <= total && i == 3 * n && |v| == 3 * total
      invariant colors == Coords(Colours(n))
    {
      ColourStep(n);
      colors := colors + [0.0, 0.0, 0.0];
      i, n := i + 3, n + 1;
    }
  }
}
