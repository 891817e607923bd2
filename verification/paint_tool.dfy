/**
 * The paint tool: a 64 x 64 surface of colour indices into a 17-entry
 * palette, the recursive 4-connected flood fill, the image writer and reader
 * that translate indices to and from RGB triples, and the mouse handlers that
 * draw, fill and pick a colour.
 */
module PaintTool {
  import opened Wrappers

  const Dim: int := 64
  const PixelSize: int := 9
  const MaxX: int := Dim * PixelSize
  const MaxY: int := Dim * PixelSize
  const ColorBlockSize: int := 35
  const ColorSelHeight: int := ColorBlockSize * 17
  const ScreenWidth: int := 800
  const Black: int := 14

  datatype Rgb = Rgb(r: int, g: int, b: int)

  /** The palette, index by index. */
  const Lut: seq<Rgb> := [
    Rgb(0x80, 0x00, 0x00), Rgb(0xFF, 0x00, 0x00), Rgb(0xFF, 0xA5, 0x00), Rgb(0xFF, 0xFF, 0x00),
    Rgb(0x80, 0x80, 0x00), Rgb(0x80, 0x00, 0x80), Rgb(0xFF, 0x00, 0xFF), Rgb(0xFF, 0xFF, 0xFF),
    Rgb(0x00, 0xFF, 0x00), Rgb(0x00, 0x80, 0x00), Rgb(0x00, 0x00, 0x80), Rgb(0x00, 0x00, 0xFF),
    Rgb(0x00, 0xFF, 0xFF), Rgb(0x00, 0x80, 0x80), Rgb(0x00, 0x00, 0x00), Rgb(0xC0, 0xC0, 0xC0),
    Rgb(0x80, 0x80, 0x08)
  ]

  /** No two palette entries are the same colour. */
  lemma LutDistinct()
    ensures |Lut| == 17
    ensures forall i, j :: 0 <= i < j < |Lut| ==> Lut[i] != Lut[j]
  {
  }

  /** (row, column) */
  type Cell = (int, int)
  type Surface = seq<seq<int>>

  predicate InGrid(c: Cell)
  {
    0 <= c.0 < Dim && 0 <= c.1 < Dim
  }

  predicate IsSurface(s: Surface)
  {
    |s| == Dim && forall y :: 0 <= y < Dim ==> |s[y]| == Dim
  }

  function At(s: Surface, c: Cell): int
    requires IsSurface(s) && InGrid(c)
  {
    s[c.0][c.1]
  }

  /** Every cell holds a palette index. */
  ghost predicate InPalette(s: Surface)
    requires IsSurface(s)
  {
    forall c :: InGrid(c) ==> 0 <= At(s, c) < |Lut|
  }

  /** The surface held by the array, as a value. */
  function Snap(ds: array2<int>): (s: Surface)
    requires ds.Length0 == Dim && ds.Length1 == Dim
    reads ds
    ensures IsSurface(s)
    ensures forall c :: InGrid(c) ==> At(s, c) == ds[c.0, c.1]
  {
    seq(Dim, (y: int) requires 0 <= y < Dim reads ds =>
      seq(Dim, (x: int) requires 0 <= x < Dim reads ds => ds[y, x]))
  }

  // ---------------------------------------------------------------------------
  // Connectivity

  predicate Adjacent(a: Cell, b: Cell)
  {
    (a.0 == b.0 && (a.1 == b.1 + 1 || b.1 == a.1 + 1)) || (a.1 == b.1 && (a.0 == b.0 + 1 || b.0 == a.0 + 1))
  }

  /** A walk through cells of `e`, each step to a 4-neighbour. */
  ghost predicate IsPath(e: set<Cell>, p: seq<Cell>)
  {
    && |p| >= 1
    && (forall i :: 0 <= i < |p| ==> p[i] in e)
    && (forall i :: 0 <= i < |p| - 1 ==> Adjacent(p[i], p[i + 1]))
  }

  ghost predicate Reach(e: set<Cell>, a: Cell, b: Cell)
  {
    exists p :: IsPath(e, p) && p[0] == a && p[|p| - 1] == b
  }

  /** The cells of `s` holding `colour`. */
  ghost function Holding(s: Surface, colour: int): set<Cell>
    requires IsSurface(s)
  {
    set y, x | 0 <= y < Dim && 0 <= x < Dim && s[y][x] == colour :: (y, x)
  }

  lemma HoldingSpec(s: Surface, colour: int, c: Cell)
    requires IsSurface(s)
    ensures c in Holding(s, colour) <==> InGrid(c) && At(s, c) == colour
  {
  }

  /** A step into a walk in a smaller set is a walk in the larger one. */
  lemma ReachPrepend(e: set<Cell>, e': set<Cell>, a: Cell, n: Cell, c: Cell)
    requires a in e && Adjacent(a, n) && e' <= e && Reach(e', n, c)
    ensures Reach(e, a, c)
  {
    var p :| IsPath(e', p) && p[0] == n && p[|p| - 1] == c;
    var q := [a] + p;
    assert forall i :: 1 <= i < |q| ==> q[i] == p[i - 1];
    assert IsPath(e, q);
  }

  // ---------------------------------------------------------------------------
  // What a fill does

  /**
   * `after` is `before` filled from `start`: every changed cell held `exist`,
   * now holds `newColour` and was reachable from `start` through `exist`
   * cells; no changed cell has an `exist` neighbour left; and the start cell,
   * if it held `exist`, is recoloured.
   */
  ghost predicate Filled(before: Surface, after: Surface, start: Cell, exist: int, newColour: int)
    requires IsSurface(before) && IsSurface(after)
    ensures Filled(before, after, start, exist, newColour) ==>
      forall c :: InGrid(c) && At(after, c) != At(before, c) ==> At(before, c) == exist && At(after, c) == newColour
  {
    && (forall c :: InGrid(c) ==>
         (At(after, c) == At(before, c)
          || (At(before, c) == exist && At(after, c) == newColour && Reach(Holding(before, exist), start, c))))
    && (forall c, n :: InGrid(c) && InGrid(n) && Adjacent(c, n) && At(after, c) != At(before, c) ==> At(after, n) != exist)
    && (InGrid(start) && At(before, start) == exist ==> At(after, start) == newColour)
  }

  /** The four cells the fill visits after `c`, in its order: up, down, left, right. */
  function Neighbour(c: Cell, k: int): Cell
  {
    if k == 0 then (c.0 - 1, c.1)
    else if k == 1 then (c.0 + 1, c.1)
    else if k == 2 then (c.0, c.1 - 1)
    else (c.0, c.1 + 1)
  }

  /**
   * The state of a fill at `start` after its first `k` recursive calls: the
   * changes so far are reachable recolourings, every changed cell but the
   * start is closed, the start is recoloured, and the first `k` neighbours
   * no longer hold `exist`.
   */
  ghost predicate Partial(s0: Surface, sk: Surface, start: Cell, exist: int, newColour: int, k: int)
    requires IsSurface(s0) && IsSurface(sk)
  {
    && InGrid(start) && At(s0, start) == exist && exist != newColour
    && (forall c :: InGrid(c) ==>
         (At(sk, c) == At(s0, c)
          || (At(s0, c) == exist && At(sk, c) == newColour && Reach(Holding(s0, exist), start, c))))
    && (forall c, n :: InGrid(c) && InGrid(n) && Adjacent(c, n) && c != start && At(sk, c) != At(s0, c) ==> At(sk, n) != exist)
    && At(sk, start) == newColour
    && (forall j :: 0 <= j < k && InGrid(Neighbour(start, j)) ==> At(sk, Neighbour(start, j)) != exist)
  }

  lemma PartialStart(s0: Surface, s1: Surface, start: Cell, exist: int, newColour: int)
    requires IsSurface(s0) && IsSurface(s1) && InGrid(start) && At(s0, start) == exist && exist != newColour
    requires At(s1, start) == newColour && forall c :: InGrid(c) && c != start ==> At(s1, c) == At(s0, c)
    ensures Partial(s0, s1, start, exist, newColour, 0)
  {
    HoldingSpec(s0, exist, start);
    assert IsPath(Holding(s0, exist), [start]);
  }

  /** During a fill the `exist` cells only shrink, and the start is no longer one of them. */
  lemma PartialShrinks(s0: Surface, sk: Surface, start: Cell, exist: int, newColour: int, k: int)
    requires IsSurface(s0) && IsSurface(sk) && Partial(s0, sk, start, exist, newColour, k)
    ensures Holding(sk, exist) < Holding(s0, exist)
  {
    forall c | c in Holding(sk, exist)
      ensures c in Holding(s0, exist)
    {
      HoldingSpec(sk, exist, c);
      HoldingSpec(s0, exist, c);
    }
    HoldingSpec(sk, exist, start);
    HoldingSpec(s0, exist, start);
  }

  /** The recursive call on the next neighbour keeps the partial state. */
  lemma PartialStep(s0: Surface, sk: Surface, sk1: Surface, start: Cell, exist: int, newColour: int, k: int)
    requires IsSurface(s0) && IsSurface(sk) && IsSurface(sk1) && 0 <= k < 4
    requires Partial(s0, sk, start, exist, newColour, k)
    requires Filled(sk, sk1, Neighbour(start, k), exist, newColour)
    ensures Partial(s0, sk1, start, exist, newColour, k + 1)
  {
    var e0 := Holding(s0, exist);
    var n := Neighbour(start, k);
    forall c | InGrid(c)
      ensures At(sk1, c) == At(s0, c)
        || (At(s0, c) == exist && At(sk1, c) == newColour && Reach(e0, start, c))
    {
      if At(sk1, c) != At(sk, c) {
        assert At(sk, c) == exist && Reach(Holding(sk, exist), n, c);
        PartialShrinks(s0, sk, start, exist, newColour, k);
        HoldingSpec(s0, exist, start);
        ReachPrepend(e0, Holding(sk, exist), start, n, c);
      }
    }
  }

  lemma PartialDone(s0: Surface, s4: Surface, start: Cell, exist: int, newColour: int)
    requires IsSurface(s0) && IsSurface(s4) && Partial(s0, s4, start, exist, newColour, 4)
    ensures Filled(s0, s4, start, exist, newColour)
  {
    forall c, n | InGrid(c) && InGrid(n) && Adjacent(c, n) && At(s4, c) != At(s0, c)
      ensures At(s4, n) != exist
    {
      if c == start {
        var k := if n == Neighbour(start, 0) then 0 else if n == Neighbour(start, 1) then 1
          else if n == Neighbour(start, 2) then 2 else 3;
        assert n == Neighbour(start, k);
      }
    }
  }

  /** A fill that returns at once leaves the surface as it was. */
  lemma FilledNothing(s: Surface, start: Cell, exist: int, newColour: int)
    requires IsSurface(s) && !(InGrid(start) && At(s, start) == exist && exist != newColour)
    ensures Filled(s, s, start, exist, newColour)
  {
  }

  /**
   * `fillArea`: from cell (y, x), recolour `exist` cells with `newColour`
   * through up, down, left and right neighbours. Each recursive call starts
   * with fewer `exist` cells.
   */
  method FillArea(ds: array2<int>, x: int, y: int, exist: int, newColour: int)
    requires ds.Length0 == Dim && ds.Length1 == Dim
    modifies ds
    ensures Filled(old(Snap(ds)), Snap(ds), (y, x), exist, newColour)
    decreases Holding(Snap(ds), exist)
  {
    if exist == newColour {
      FilledNothing(Snap(ds), (y, x), exist, newColour);
      return;
    }
    if x < 0 || x > 63 || y < 0 || y > 63 {
      FilledNothing(Snap(ds), (y, x), exist, newColour);
      return;
    } else if ds[y, x] == exist {
      ghost var s0 := Snap(ds);
      ds[y, x] := newColour;
      PartialStart(s0, Snap(ds), (y, x), exist, newColour);
      ghost var sk := Snap(ds);
      PartialShrinks(s0, sk, (y, x), exist, newColour, 0);
      FillArea(ds, x, y - 1, exist, newColour);
      PartialStep(s0, sk, Snap(ds), (y, x), exist, newColour, 0);
      sk := Snap(ds);
      PartialShrinks(s0, sk, (y, x), exist, newColour, 1);
      FillArea(ds, x, y + 1, exist, newColour);
      PartialStep(s0, sk, Snap(ds), (y, x), exist, newColour, 1);
      sk := Snap(ds);
      PartialShrinks(s0, sk, (y, x), exist, newColour, 2);
      FillArea(ds, x - 1, y, exist, newColour);
      PartialStep(s0, sk, Snap(ds), (y, x), exist, newColour, 2);
      sk := Snap(ds);
      PartialShrinks(s0, sk, (y, x), exist, newColour, 3);
      FillArea(ds, x + 1, y, exist, newColour);
      PartialStep(s0, sk, Snap(ds), (y, x), exist, newColour, 3);
      PartialDone(s0, Snap(ds), (y, x), exist, newColour);
    } else {
      FilledNothing(Snap(ds), (y, x), exist, newColour);
    }
  }

  lemma {:induction false} FilledAlongPath(before: Surface, after: Surface, start: Cell, exist: int, newColour: int, p: seq<Cell>)
    requires IsSurface(before) && IsSurface(after) && Filled(before, after, start, exist, newColour)
    requires exist != newColour && IsPath(Holding(before, exist), p) && p[0] == start
    ensures At(after, p[|p| - 1]) == newColour
    decreases |p|
  {
    HoldingSpec(before, exist, p[|p| - 1]);
    if |p| == 1 {
    } else {
      var q := p[..|p| - 1];
      assert IsPath(Holding(before, exist), q);
      FilledAlongPath(before, after, start, exist, newColour, q);
      HoldingSpec(before, exist, q[|q| - 1]);
      assert Adjacent(q[|q| - 1], p[|p| - 1]);
    }
  }

  /**
   * A fill recolours exactly the cells 4-connected to the start through
   * `exist` cells, and leaves every other cell as it was; with
   * `exist == newColour` it changes nothing.
   */
  lemma FillIsExact(before: Surface, after: Surface, start: Cell, exist: int, newColour: int)
    requires IsSurface(before) && IsSurface(after) && Filled(before, after, start, exist, newColour)
    ensures forall c :: InGrid(c) ==>
      At(after, c) == if exist != newColour && Reach(Holding(before, exist), start, c) then newColour else At(before, c)
  {
    forall c | InGrid(c) && exist != newColour && Reach(Holding(before, exist), start, c)
      ensures At(after, c) == newColour
    {
      var p :| IsPath(Holding(before, exist), p) && p[0] == start && p[|p| - 1] == c;
      FilledAlongPath(before, after, start, exist, newColour, p);
    }
  }

  // ---------------------------------------------------------------------------
  // Image files

  /** The first palette index holding `c`, as `readFile`'s search finds it. */
  function LutIndex(c: Rgb, i: nat): (r: Option<int>)
    requires i <= |Lut|
    ensures r.Some? ==> i <= r.value < |Lut| && Lut[r.value] == c && forall j :: i <= j < r.value ==> Lut[j] != c
    ensures r.None? ==> forall j :: i <= j < |Lut| ==> Lut[j] != c
    decreases |Lut| - i
  {
    if i == |Lut| then None else if Lut[i] == c then Some(i) else LutIndex(c, i + 1)
  }

  /** The palette search of `readFile`: the first entry equal to the triple. */
  method LookUp(rgb: Rgb) returns (r: Option<int>)
    ensures r == LutIndex(rgb, 0)
  {
    for i := 0 to |Lut|
      invariant LutIndex(rgb, 0) == LutIndex(rgb, i)
    {
      if Lut[i] == rgb {
        return Some(i);
      }
    }
    return None;
  }

  /** The cell indices of a surface in row-major order. */
  function Pixels(s: Surface): (p: seq<int>)
    requires IsSurface(s)
    ensures |p| == Dim * Dim
  {
    seq(Dim * Dim, (k: int) requires 0 <= k < Dim * Dim => s[k / Dim][k % Dim])
  }

  lemma PixelsAt(s: Surface, c: Cell)
    requires IsSurface(s) && InGrid(c)
    ensures 0 <= Dim * c.0 + c.1 < Dim * Dim && Pixels(s)[Dim * c.0 + c.1] == At(s, c)
  {
    var k := Dim * c.0 + c.1;
    assert k / Dim == c.0 && k % Dim == c.1;
  }

  lemma PixelsInPalette(s: Surface)
    requires IsSurface(s) && InPalette(s)
    ensures Indices(Pixels(s))
  {
    forall k | 0 <= k < Dim * Dim
      ensures 0 <= Pixels(s)[k] < |Lut|
    {
      var c := (k / Dim, k % Dim);
      assert Dim * c.0 + c.1 == k;
      PixelsAt(s, c);
    }
  }

  /** Every entry is a palette index. */
  predicate Indices(idx: seq<int>)
  {
    forall k :: 0 <= k < |idx| ==> 0 <= idx[k] < |Lut|
  }

  /** The numbers written for a sequence of palette indices: one RGB triple each. */
  function Encode(idx: seq<int>): (v: seq<int>)
    requires Indices(idx)
    ensures |v| == 3 * |idx|
  {
    if idx == [] then []
    else
      var c := Lut[idx[|idx| - 1]];
      Encode(idx[..|idx| - 1]) + [c.r, c.g, c.b]
  }

  lemma {:induction false} EncodeAt(idx: seq<int>, k: int)
    requires Indices(idx)
    requires 0 <= k < |idx|
    ensures Encode(idx)[3 * k..3 * k + 3] == [Lut[idx[k]].r, Lut[idx[k]].g, Lut[idx[k]].b]
    decreases |idx|
  {
    var init := idx[..|idx| - 1];
    if k < |idx| - 1 {
      EncodeAt(init, k);
      assert Encode(idx)[3 * k..3 * k + 3] == Encode(init)[3 * k..3 * k + 3];
    }
  }

  lemma EncodeStep(idx: seq<int>, n: int)
    requires Indices(idx) && 0 <= n < |idx|
    ensures Indices(idx[..n]) && Indices(idx[..n + 1])
    ensures Encode(idx[..n + 1]) == Encode(idx[..n]) + [Lut[idx[n]].r, Lut[idx[n]].g, Lut[idx[n]].b]
  {
    assert idx[..n + 1][..n] == idx[..n];
  }

  /** Cell (y, x) of the array is pixel `Dim * y + x` of its row-major listing. */
  lemma SnapPixel(ds: array2<int>, y: int, x: int)
    requires ds.Length0 == Dim && ds.Length1 == Dim && InGrid((y, x))
    ensures 0 <= Dim * y + x < Dim * Dim && Pixels(Snap(ds))[Dim * y + x] == ds[y, x]
  {
    PixelsAt(Snap(ds), (y, x));
  }

  /** `saveFile`: the numbers after the `IMAGEDATA` header. */
  method SaveFile(ds: array2<int>) returns (values: seq<int>)
    requires ds.Length0 == Dim && ds.Length1 == Dim && InPalette(Snap(ds))
    ensures (PixelsInPalette(Snap(ds)); values == Encode(Pixels(Snap(ds))))
  {
    ghost var s := Snap(ds);
    ghost var p := Pixels(s);
    PixelsInPalette(s);
    values := [];
    assert Indices(p[..0]);
    for y := 0 to Dim
      invariant Indices(p[..Dim * y]) && values == Encode(p[..Dim * y])
    {
      for x := 0 to Dim
        invariant Indices(p[..Dim * y + x]) && values == Encode(p[..Dim * y + x])
      {
        SnapPixel(ds, y, x);
        EncodeStep(p, Dim * y + x);
        var c := Lut[ds[y, x]];
        values := values + [c.r, c.g, c.b];
      }
    }
    assert p[..Dim * Dim] == p;
  }

  /** The index `readFile` stores for cell `k`, if its triple is present and in the palette. */
  function ReadPixel(values: seq<int>, k: int): Option<int>
    requires 0 <= k
  {
    if 3 * k + 3 <= |values| then LutIndex(Rgb(values[3 * k], values[3 * k + 1], values[3 * k + 2]), 0) else None
  }

  /** A cell after `readFile`: the index read, or its previous value when none was. */
  function Stored(read: Option<int>, previous: int): int
  {
    match read
    case Some(i) => i
    case None => previous
  }

  /** Cells before position `n` in row-major order hold what was read for them, the rest are as in `s0`. */
  ghost predicate ReadUpTo(s: Surface, s0: Surface, values: seq<int>, n: int)
    requires IsSurface(s) && IsSurface(s0)
  {
    forall c :: InGrid(c) ==>
      At(s, c) == if Dim * c.0 + c.1 < n then Stored(ReadPixel(values, Dim * c.0 + c.1), At(s0, c)) else At(s0, c)
  }

  /** Storing the next cell in row-major order extends what is read by one. */
  lemma ReadNext(s: Surface, s': Surface, s0: Surface, values: seq<int>, y: int, x: int)
    requires IsSurface(s) && IsSurface(s') && IsSurface(s0) && InGrid((y, x))
    requires ReadUpTo(s, s0, values, Dim * y + x)
    requires At(s', (y, x)) == Stored(ReadPixel(values, Dim * y + x), At(s, (y, x)))
    requires forall c :: InGrid(c) && c != (y, x) ==> At(s', c) == At(s, c)
    ensures ReadUpTo(s', s0, values, Dim * y + x + 1)
  {
    forall c | InGrid(c)
      ensures At(s', c) == if Dim * c.0 + c.1 < Dim * y + x + 1
        then Stored(ReadPixel(values, Dim * c.0 + c.1), At(s0, c)) else At(s0, c)
    {
      var n := Dim * c.0 + c.1;
      assert At(s, c) == if n < Dim * y + x then Stored(ReadPixel(values, n), At(s0, c)) else At(s0, c);
      if c == (y, x) {
        assert At(s', c) == Stored(ReadPixel(values, n), At(s0, c));
      } else {
        Order(c, (y, x));
        assert At(s', c) == At(s, c);
      }
    }
  }

  /** Row-major positions of distinct cells differ. */
  lemma Order(c: Cell, d: Cell)
    requires InGrid(c) && InGrid(d)
    ensures c != d ==> Dim * c.0 + c.1 != Dim * d.0 + d.1
  {
    if c.0 < d.0 {
      assert Dim * c.0 + c.1 < Dim * (c.0 + 1) <= Dim * d.0;
    } else if d.0 < c.0 {
      assert Dim * d.0 + d.1 < Dim * (d.0 + 1) <= Dim * c.0;
    }
  }

  /**
   * `readFile`: a missing header is an error; otherwise each cell whose
   * triple is in the palette takes that index, and any other cell keeps its
   * value.
   */
  method ReadFile(header: Option<string>, values: seq<int>, ds: array2<int>) returns (ok: bool)
    requires ds.Length0 == Dim && ds.Length1 == Dim
    modifies ds
    ensures ok <==> header.Some?
    ensures ok ==> forall c :: InGrid(c) ==>
      ds[c.0, c.1] == Stored(ReadPixel(values, Dim * c.0 + c.1), old(ds[c.0, c.1]))
  {
    if header.None? {
      return false;
    }
    ghost var s0 := Snap(ds);
    for y := 0 to Dim
      invariant ReadUpTo(Snap(ds), s0, values, Dim * y)
    {
      for x := 0 to Dim
        invariant ReadUpTo(Snap(ds), s0, values, Dim * y + x)
      {
        ghost var s := Snap(ds);
        var k := Dim * y + x;
        if 3 * k + 3 <= |values| {
          var found := LookUp(Rgb(values[3 * k], values[3 * k + 1], values[3 * k + 2]));
          if found.Some? {
            ds[y, x] := found.value;
          }
        }
        ReadNext(s, Snap(ds), s0, values, y, x);
      }
    }
    assert ReadUpTo(Snap(ds), s0, values, Dim * Dim);
    return true;
  }

  /** Reading a saved image restores every cell, because no two palette entries are equal. */
  lemma SaveReadRoundTrip(s: Surface)
    requires IsSurface(s) && InPalette(s)
    ensures Indices(Pixels(s))
    ensures forall c :: InGrid(c) ==> ReadPixel(Encode(Pixels(s)), Dim * c.0 + c.1) == Some(At(s, c))
  {
    var p := Pixels(s);
    PixelsInPalette(s);
    LutDistinct();
    forall c | InGrid(c)
      ensures ReadPixel(Encode(p), Dim * c.0 + c.1) == Some(At(s, c))
    {
      var k := Dim * c.0 + c.1;
      PixelsAt(s, c);
      EncodeAt(p, k);
      var v := Encode(p);
      assert v[3 * k..3 * k + 3][0] == v[3 * k];
      assert v[3 * k..3 * k + 3][1] == v[3 * k + 1];
      assert v[3 * k..3 * k + 3][2] == v[3 * k + 2];
      var want := LutIndex(Lut[p[k]], 0);
      assert want == Some(p[k]);
    }
  }

  // ---------------------------------------------------------------------------
  // The editor's state and mouse handlers

  class Editor {
    var surface: array2<int>
    var colourIndex: int
    var isDrawing: bool
    var lastX: int
    var lastY: int

    ghost predicate Valid()
      reads this, surface
    {
      && surface.Length0 == Dim && surface.Length1 == Dim
      && InPalette(Snap(surface))
      && 0 <= colourIndex < |Lut|
    }

    /** A new surface is all black; the brush is palette entry 0. */
    constructor ()
      ensures Valid() && fresh(surface)
      ensures forall c :: InGrid(c) ==> surface[c.0, c.1] == Black
      ensures colourIndex == 0 && !isDrawing && lastX == -1 && lastY == -1
    {
      surface := new int[Dim, Dim]((y, x) => Black);
      colourIndex := 0;
      isDrawing := false;
      lastX := -1;
      lastY := -1;
    }

    /** Motion while the button is held paints the cell under the pointer. */
    method MouseMotion(x: int, y: int)
      requires Valid() && 0 <= x && 0 <= y
      modifies surface
      ensures Valid()
      ensures forall c :: InGrid(c) ==>
        (surface[c.0, c.1] ==
           if isDrawing && x < MaxX && y < MaxY && c == (y / PixelSize, x / PixelSize) then colourIndex
           else old(surface[c.0, c.1]))
    {
      if isDrawing && x < MaxX && y < MaxY {
        surface[y / PixelSize, x / PixelSize] := colourIndex;
      }
    }

    /**
     * A press on the canvas paints (left) or fills (right) at the cell under
     * the pointer; a press on the palette column picks colour `y / 35`.
     */
    method MouseButtonDown(x: int, y: int, left: bool, right: bool)
      requires Valid() && 0 <= x && 0 <= y && !(left && right)
      modifies this, surface
      ensures Valid() && surface == old(surface)
      ensures x < MaxX && y < MaxY && left ==>
        && isDrawing && lastX == x && lastY == y && colourIndex == old(colourIndex)
        && forall c :: InGrid(c) ==>
             (surface[c.0, c.1] == if c == (y / PixelSize, x / PixelSize) then colourIndex else old(surface[c.0, c.1]))
      ensures x < MaxX && y < MaxY && right ==>
        && colourIndex == old(colourIndex)
        && Filled(old(Snap(surface)), Snap(surface), (y / PixelSize, x / PixelSize),
                  old(surface[y / PixelSize, x / PixelSize]), colourIndex)
      ensures !(x < MaxX && y < MaxY) && x > ScreenWidth - ColorBlockSize && y < ColorSelHeight ==>
        colourIndex == y / ColorBlockSize && Snap(surface) == old(Snap(surface))
      ensures !(x < MaxX && y < MaxY && left) ==>
        isDrawing == old(isDrawing) && lastX == old(lastX) && lastY == old(lastY)
      ensures x < MaxX && y < MaxY && !left && !right ==>
        colourIndex == old(colourIndex) && Snap(surface) == old(Snap(surface))
      ensures !(x < MaxX && y < MaxY) && !(x > ScreenWidth - ColorBlockSize && y < ColorSelHeight) ==>
        colourIndex == old(colourIndex) && Snap(surface) == old(Snap(surface))
    {
      if x < MaxX && y < MaxY {
        var cy, cx := y / PixelSize, x / PixelSize;
        if left {
          isDrawing := true;
          lastX := x;
          lastY := y;
          surface[cy, cx] := colourIndex;
        } else if right {
          ghost var before := Snap(surface);
          FillArea(surface, cx, cy, surface[cy, cx], colourIndex);
          forall c | InGrid(c)
            ensures 0 <= At(Snap(surface), c) < |Lut|
          {
            assert At(before, c) == old(surface[c.0, c.1]);
          }
        }
      } else if x > ScreenWidth - ColorBlockSize && y < ColorSelHeight {
        colourIndex := y / ColorBlockSize;
      }
    }

    method MouseButtonUp()
      modifies this
      ensures !isDrawing && colourIndex == old(colourIndex) && surface == old(surface)
      ensures lastX == old(lastX) && lastY == old(lastY)
    {
      isDrawing := false;
    }
  }
}
