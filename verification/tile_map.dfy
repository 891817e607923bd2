/**
 * The level editor's tile map: a 25 x 25 grid of tiles, each DEFAULT or
 * BARRIER, with a scratch `tracked` counter used while barrier tiles are
 * decomposed into 1-wide horizontal or vertical collision strips; the map
 * file writer and reader; and the mouse click that toggles a tile.
 *
 * The grid is an `array2<Tile>` updated in place. The strip scan is specified
 * by the pure function `Scan` over a snapshot of the grid; the properties the
 * editor relies on (shape, coverage, order, count) are lemmas about `Scan`.
 */
module TileMap {
  import opened Wrappers

  const Size: int := 25
  const Cells: int := Size * Size
  const TileWidth: int := 24
  const Default: int := 0
  const Barrier: int := 1

  datatype Tile = Tile(kind: int, tracked: int)

  /** A collision rectangle: origin column `x`, origin row `y`, width `w`, height `h`. */
  datatype Strip = Strip(x: int, y: int, w: int, h: int)

  type Grid = seq<seq<Tile>>

  predicate IsGrid(g: Grid)
  {
    |g| == Size && forall y :: 0 <= y < Size ==> |g[y]| == Size
  }

  predicate InGrid(y: int, x: int)
  {
    0 <= y < Size && 0 <= x < Size
  }

  /** Row-major position arithmetic. */
  lemma Position(y: int, x: int)
    requires InGrid(y, x)
    ensures (Size * y + x) / Size == y && (Size * y + x) % Size == x
    ensures 0 <= Size * y + x < Cells
  {
  }

  /** The grid held by the array, as a value. */
  function Contents(ta: array2<Tile>): (g: Grid)
    requires ta.Length0 == Size && ta.Length1 == Size
    reads ta
    ensures IsGrid(g)
    ensures forall y, x :: InGrid(y, x) ==> g[y][x] == ta[y, x]
  {
    seq(Size, (y: int) requires 0 <= y < Size reads ta =>
      seq(Size, (x: int) requires 0 <= x < Size reads ta => ta[y, x]))
  }

  // ---------------------------------------------------------------------------
  // Runs and strips

  /** The number of consecutive barrier tiles from (y, x) rightwards, stopping at column 25. */
  function HRun(g: Grid, y: int, x: int): (n: int)
    requires IsGrid(g) && 0 <= y < Size && 0 <= x <= Size
    ensures 0 <= n <= Size - x
    ensures forall k :: x <= k < x + n ==> g[y][k].kind == Barrier
    ensures x < Size && g[y][x].kind == Barrier ==> n >= 1
    decreases Size - x
  {
    if x < Size && g[y][x].kind == Barrier then 1 + HRun(g, y, x + 1) else 0
  }

  /** The number of consecutive barrier tiles from (y, x) downwards, stopping at row 25. */
  function VRun(g: Grid, y: int, x: int): (n: int)
    requires IsGrid(g) && 0 <= y <= Size && 0 <= x < Size
    ensures 0 <= n <= Size - y
    ensures forall k :: y <= k < y + n ==> g[k][x].kind == Barrier
    ensures y < Size && g[y][x].kind == Barrier ==> n >= 1
    decreases Size - y
  {
    if y < Size && g[y][x].kind == Barrier then 1 + VRun(g, y + 1, x) else 0
  }

  predicate Covers(s: Strip, y: int, x: int)
  {
    s.y <= y < s.y + s.h && s.x <= x < s.x + s.w
  }

  /**
   * The strip emitted at origin (y, x): the longer of the two runs, the
   * horizontal one on a tie. Every tile it covers is a barrier tile of the grid.
   */
  function StripAt(g: Grid, y: int, x: int): (s: Strip)
    requires IsGrid(g) && InGrid(y, x)
    ensures s.x == x && s.y == y
    ensures forall cy, cx :: Covers(s, cy, cx) ==> InGrid(cy, cx) && g[cy][cx].kind == Barrier
    ensures g[y][x].kind == Barrier ==> Covers(s, y, x)
  {
    var hlen := HRun(g, y, x);
    var vlen := VRun(g, y, x);
    if hlen >= vlen then Strip(x, y, hlen, 1) else Strip(x, y, 1, vlen)
  }

  /** How many strips of `ss` cover (y, x): what the scan adds to that tile's counter. */
  function CoverCount(ss: seq<Strip>, y: int, x: int): (n: nat)
    ensures n > 0 ==> exists s :: s in ss && Covers(s, y, x)
  {
    if ss == [] then 0
    else CoverCount(ss[..|ss| - 1], y, x) + (if Covers(ss[|ss| - 1], y, x) then 1 else 0)
  }

  lemma CoverCountAppend(ss: seq<Strip>, s: Strip, y: int, x: int)
    ensures CoverCount(ss + [s], y, x) == CoverCount(ss, y, x) + (if Covers(s, y, x) then 1 else 0)
  {
    assert (ss + [s])[..|ss|] == ss;
  }

  /**
   * The row-major scan from tile (y, x) with the strips `acc` already
   * emitted: a tile is an origin when it is a barrier and its counter (its
   * value on entry plus the strips covering it so far) is zero.
   */
  function Scan(g: Grid, y: int, x: int, acc: seq<Strip>): seq<Strip>
    requires IsGrid(g) && 0 <= y <= Size && 0 <= x <= Size
    decreases Size - y, Size - x
  {
    if y == Size then acc
    else if x == Size then Scan(g, y + 1, 0, acc)
    else if g[y][x].kind == Barrier && g[y][x].tracked + CoverCount(acc, y, x) == 0
    then Scan(g, y, x + 1, acc + [StripAt(g, y, x)])
    else Scan(g, y, x + 1, acc)
  }

  /** The scan keeps the strips already emitted and appends only the strip at a tile of the grid. */
  lemma {:induction false} ScanEmits(g: Grid, y: int, x: int, acc: seq<Strip>)
    requires IsGrid(g) && 0 <= y <= Size && 0 <= x <= Size
    ensures var r := Scan(g, y, x, acc);
      && |acc| <= |r| && r[..|acc|] == acc
      && forall k :: |acc| <= k < |r| ==> InGrid(r[k].y, r[k].x) && r[k] == StripAt(g, r[k].y, r[k].x)
    decreases Size - y, Size - x
  {
    if y == Size {
    } else if x == Size {
      ScanEmits(g, y + 1, 0, acc);
    } else if g[y][x].kind == Barrier && g[y][x].tracked + CoverCount(acc, y, x) == 0 {
      var acc' := acc + [StripAt(g, y, x)];
      ScanEmits(g, y, x + 1, acc');
      var r := Scan(g, y, x + 1, acc');
      assert r[..|acc|] == r[..|acc'|][..|acc|];
    } else {
      ScanEmits(g, y, x + 1, acc);
    }
  }

  /** The strips of the whole grid. */
  function Strips(g: Grid): (r: seq<Strip>)
    requires IsGrid(g)
    ensures forall k :: 0 <= k < |r| ==> InGrid(r[k].y, r[k].x) && r[k] == StripAt(g, r[k].y, r[k].x)
  {
    ScanEmits(g, 0, 0, []);
    Scan(g, 0, 0, [])
  }

  // ---------------------------------------------------------------------------
  // What the scan guarantees

  /** The row-major position of a strip's origin. */
  function Index(s: Strip): int
  {
    Size * s.y + s.x
  }

  /** A strip as the scan emits it: a barrier origin, the longer run, horizontal on a tie. */
  predicate WellFormed(g: Grid, s: Strip)
    requires IsGrid(g)
  {
    && InGrid(s.y, s.x)
    && g[s.y][s.x].kind == Barrier
    && s == StripAt(g, s.y, s.x)
    && ((s.h == 1 && s.w == HRun(g, s.y, s.x) && s.w >= VRun(g, s.y, s.x))
        || (s.w == 1 && s.h == VRun(g, s.y, s.x) && s.h > HRun(g, s.y, s.x)))
  }

  lemma {:induction false} ScanExtends(g: Grid, y: int, x: int, acc: seq<Strip>)
    requires IsGrid(g) && 0 <= y <= Size && 0 <= x <= Size
    ensures |acc| <= |Scan(g, y, x, acc)| && Scan(g, y, x, acc)[..|acc|] == acc
    ensures forall s :: s in Scan(g, y, x, acc) ==> s in acc || WellFormed(g, s)
    decreases Size - y, Size - x
  {
    if y == Size {
    } else if x == Size {
      ScanExtends(g, y + 1, 0, acc);
    } else if g[y][x].kind == Barrier && g[y][x].tracked + CoverCount(acc, y, x) == 0 {
      var next := acc + [StripAt(g, y, x)];
      ScanExtends(g, y, x + 1, next);
      assert next[..|acc|] == acc;
    } else {
      ScanExtends(g, y, x + 1, acc);
    }
  }

  /** Every strip is a run of barrier tiles inside the grid, horizontal or vertical, horizontal on a tie. */
  lemma StripsAreRuns(g: Grid)
    requires IsGrid(g)
    ensures forall s :: s in Strips(g) ==> WellFormed(g, s)
    ensures forall s, y, x :: s in Strips(g) && Covers(s, y, x) ==> InGrid(y, x) && g[y][x].kind == Barrier
  {
    ScanExtends(g, 0, 0, []);
  }

  ghost predicate Untracked(g: Grid)
    requires IsGrid(g)
  {
    forall y, x :: InGrid(y, x) ==> g[y][x].tracked == 0
  }

  lemma {:induction false} ScanCoversFrom(g: Grid, py: int, px: int, acc: seq<Strip>, y: int, x: int)
    requires IsGrid(g) && Untracked(g) && InGrid(y, x) && g[y][x].kind == Barrier
    requires 0 <= py <= Size && 0 <= px <= Size && (py < y || (py == y && px <= x))
    ensures exists s :: s in Scan(g, py, px, acc) && Covers(s, y, x)
    decreases Size - py, Size - px
  {
    if px == Size {
      ScanCoversFrom(g, py + 1, 0, acc, y, x);
    } else {
      var next := if g[py][px].kind == Barrier && g[py][px].tracked + CoverCount(acc, py, px) == 0
        then acc + [StripAt(g, py, px)] else acc;
      assert Scan(g, py, px, acc) == Scan(g, py, px + 1, next);
      if py < y || px < x {
        ScanCoversFrom(g, py, px + 1, next, y, x);
      } else {
        ScanExtends(g, py, px + 1, next);
        var r := Scan(g, py, px + 1, next);
        if CoverCount(acc, y, x) == 0 {
          assert next[|acc|] == StripAt(g, y, x) && r[|acc|] == next[|acc|];
          assert r[|acc|] in r && Covers(r[|acc|], y, x);
        } else {
          var s :| s in acc && Covers(s, y, x);
          var i :| 0 <= i < |acc| && acc[i] == s;
          assert r[i] == next[i] == s;
          assert r[i] in r;
        }
      }
    }
  }

  /** With every counter at zero on entry, every barrier tile is covered by some strip. */
  lemma StripsCoverBarriers(g: Grid)
    requires IsGrid(g) && Untracked(g)
    ensures forall y, x :: InGrid(y, x) && g[y][x].kind == Barrier ==>
      exists s :: s in Strips(g) && Covers(s, y, x)
  {
    forall y, x | InGrid(y, x) && g[y][x].kind == Barrier
      ensures exists s :: s in Strips(g) && Covers(s, y, x)
    {
      ScanCoversFrom(g, 0, 0, [], y, x);
    }
  }

  predicate Increasing(ss: seq<Strip>)
  {
    forall i, j :: 0 <= i < j < |ss| ==> Index(ss[i]) < Index(ss[j])
  }

  lemma {:induction false} ScanIncreasing(g: Grid, y: int, x: int, acc: seq<Strip>)
    requires IsGrid(g) && 0 <= y <= Size && 0 <= x <= Size
    requires Increasing(acc) && forall s :: s in acc ==> Index(s) < Size * y + x
    ensures Increasing(Scan(g, y, x, acc))
    decreases Size - y, Size - x
  {
    if y == Size {
    } else if x == Size {
      ScanIncreasing(g, y + 1, 0, acc);
    } else if g[y][x].kind == Barrier && g[y][x].tracked + CoverCount(acc, y, x) == 0 {
      var s := StripAt(g, y, x);
      var next := acc + [s];
      assert Index(s) == Size * y + x;
      assert Increasing(next) by {
        forall i, j | 0 <= i < j < |next|
          ensures Index(next[i]) < Index(next[j])
        {
          assert next[i] == acc[i] && acc[i] in acc;
          if j < |acc| {
            assert next[j] == acc[j];
          }
        }
      }
      assert forall t :: t in next ==> t == s || t in acc;
      ScanIncreasing(g, y, x + 1, next);
    } else {
      ScanIncreasing(g, y, x + 1, acc);
    }
  }

  /** Strips are emitted in row-major order of their origins, so no tile is the origin of two strips. */
  lemma StripsInScanOrder(g: Grid)
    requires IsGrid(g)
    ensures Increasing(Strips(g))
  {
    ScanIncreasing(g, 0, 0, []);
  }

  /** The number of barrier tiles from (y, x) onwards in row-major order. */
  function BarriersFrom(g: Grid, y: int, x: int): nat
    requires IsGrid(g) && 0 <= y <= Size && 0 <= x <= Size
    decreases Size - y, Size - x
  {
    if y == Size then 0
    else if x == Size then BarriersFrom(g, y + 1, 0)
    else (if g[y][x].kind == Barrier then 1 else 0) + BarriersFrom(g, y, x + 1)
  }

  lemma {:induction false} ScanCount(g: Grid, y: int, x: int, acc: seq<Strip>)
    requires IsGrid(g) && 0 <= y <= Size && 0 <= x <= Size
    ensures |Scan(g, y, x, acc)| <= |acc| + BarriersFrom(g, y, x)
    decreases Size - y, Size - x
  {
    if y == Size {
    } else if x == Size {
      ScanCount(g, y + 1, 0, acc);
    } else if g[y][x].kind == Barrier && g[y][x].tracked + CoverCount(acc, y, x) == 0 {
      ScanCount(g, y, x + 1, acc + [StripAt(g, y, x)]);
    } else {
      ScanCount(g, y, x + 1, acc);
    }
  }

  /** There are never more strips than barrier tiles. */
  lemma StripCountBound(g: Grid)
    requires IsGrid(g)
    ensures |Strips(g)| <= BarriersFrom(g, 0, 0)
  {
    ScanCount(g, 0, 0, []);
  }

  // ---------------------------------------------------------------------------
  // The strip scan on the array

  /** `track_h`: the horizontal run at (y, x). */
  method TrackH(ta: array2<Tile>, y: int, x: int, ghost g: Grid) returns (len: int)
    requires ta.Length0 == Size && ta.Length1 == Size && IsGrid(g) && InGrid(y, x)
    requires forall cy, cx :: InGrid(cy, cx) ==> ta[cy, cx].kind == g[cy][cx].kind
    ensures len == HRun(g, y, x)
  {
    len := 0;
    var cx := x;
    while cx < Size && ta[y, cx].kind == Barrier
      invariant x <= cx <= Size && len == cx - x
      invariant HRun(g, y, x) == len + HRun(g, y, cx)
      decreases Size - cx
    {
      len := len + 1;
      cx := cx + 1;
    }
  }

  /** `track_v`: the vertical run at (y, x). */
  method TrackV(ta: array2<Tile>, y: int, x: int, ghost g: Grid) returns (len: int)
    requires ta.Length0 == Size && ta.Length1 == Size && IsGrid(g) && InGrid(y, x)
    requires forall cy, cx :: InGrid(cy, cx) ==> ta[cy, cx].kind == g[cy][cx].kind
    ensures len == VRun(g, y, x)
  {
    len := 0;
    var cy := y;
    while cy < Size && ta[cy, x].kind == Barrier
      invariant y <= cy <= Size && len == cy - y
      invariant VRun(g, y, x) == len + VRun(g, cy, x)
      decreases Size - cy
    {
      len := len + 1;
      cy := cy + 1;
    }
  }

  /** Adds one to the counter of every tile the strip covers. */
  method Mark(ta: array2<Tile>, s: Strip)
    requires ta.Length0 == Size && ta.Length1 == Size
    requires s.w == 1 || s.h == 1
    requires 0 <= s.x && 0 <= s.y && 1 <= s.w && 1 <= s.h && s.x + s.w <= Size && s.y + s.h <= Size
    modifies ta
    ensures forall y, x :: InGrid(y, x) ==>
      ta[y, x] == old(ta[y, x]).(tracked := old(ta[y, x].tracked) + (if Covers(s, y, x) then 1 else 0))
  {
    if s.h == 1 {
      for i := 0 to s.w
        invariant forall y, x :: InGrid(y, x) ==>
          ta[y, x] == old(ta[y, x]).(tracked := old(ta[y, x].tracked) + (if y == s.y && s.x <= x < s.x + i then 1 else 0))
      {
        ta[s.y, s.x + i] := ta[s.y, s.x + i].(tracked := ta[s.y, s.x + i].tracked + 1);
      }
    } else {
      for i := 0 to s.h
        invariant forall y, x :: InGrid(y, x) ==>
          ta[y, x] == old(ta[y, x]).(tracked := old(ta[y, x].tracked) + (if x == s.x && s.y <= y < s.y + i then 1 else 0))
      {
        ta[s.y + i, s.x] := ta[s.y + i, s.x].(tracked := ta[s.y + i, s.x].tracked + 1);
      }
    }
  }

  /** Sets every counter back to zero. */
  method ResetTracked(ta: array2<Tile>)
    requires ta.Length0 == Size && ta.Length1 == Size
    modifies ta
    ensures forall y, x :: InGrid(y, x) ==> ta[y, x] == old(ta[y, x]).(tracked := 0)
  {
    for y := 0 to Size
      invariant forall cy, cx :: InGrid(cy, cx) ==>
        ta[cy, cx] == if cy < y then old(ta[cy, cx]).(tracked := 0) else old(ta[cy, cx])
    {
      for x := 0 to Size
        invariant forall cy, cx :: InGrid(cy, cx) ==>
          ta[cy, cx] == if cy < y || (cy == y && cx < x) then old(ta[cy, cx]).(tracked := 0) else old(ta[cy, cx])
      {
        ta[y, x] := ta[y, x].(tracked := 0);
      }
    }
  }

  /**
   * `optimize_collision_entities`: the strips of the grid as it was on entry;
   * tile kinds are unchanged and every counter is zero afterwards.
   */
  method OptimizeCollisionEntities(ta: array2<Tile>) returns (strips: seq<Strip>)
    requires ta.Length0 == Size && ta.Length1 == Size
    modifies ta
    ensures strips == Strips(old(Contents(ta)))
    ensures forall y, x :: InGrid(y, x) ==> ta[y, x] == old(ta[y, x]).(tracked := 0)
  {
    ghost var g := Contents(ta);
    strips := [];
    for y := 0 to Size
      invariant Scan(g, y, 0, strips) == Strips(g)
      invariant Counted(ta, g, strips)
    {
      for x := 0 to Size
        invariant Scan(g, y, x, strips) == Strips(g)
        invariant Counted(ta, g, strips)
      {
        assert ta[y, x] == g[y][x].(tracked := g[y][x].tracked + CoverCount(strips, y, x));
        if ta[y, x].kind == Barrier && ta[y, x].tracked == 0 {
          var s := EmitAt(ta, y, x, g, strips);
          strips := strips + [s];
        }
      }
    }
    ResetTracked(ta);
  }

  /** Every tile of the array is the snapshot's tile, its counter raised by the strips covering it. */
  ghost predicate Counted(ta: array2<Tile>, g: Grid, strips: seq<Strip>)
    requires ta.Length0 == Size && ta.Length1 == Size && IsGrid(g)
    reads ta
  {
    forall cy, cx :: InGrid(cy, cx) ==>
      ta[cy, cx] == g[cy][cx].(tracked := g[cy][cx].tracked + CoverCount(strips, cy, cx))
  }

  /** The body of the scan at an origin: measure both runs, pick one, mark its tiles. */
  method EmitAt(ta: array2<Tile>, y: int, x: int, ghost g: Grid, ghost strips: seq<Strip>) returns (s: Strip)
    requires ta.Length0 == Size && ta.Length1 == Size && IsGrid(g) && InGrid(y, x)
    requires Counted(ta, g, strips) && ta[y, x].kind == Barrier
    modifies ta
    ensures s == StripAt(g, y, x)
    ensures Counted(ta, g, strips + [s])
  {
    var hlen := TrackH(ta, y, x, g);
    var vlen := TrackV(ta, y, x, g);
    s := if hlen >= vlen then Strip(x, y, hlen, 1) else Strip(x, y, 1, vlen);
    Mark(ta, s);
    forall cy, cx | InGrid(cy, cx)
      ensures ta[cy, cx] == g[cy][cx].(tracked := g[cy][cx].tracked + CoverCount(strips + [s], cy, cx))
    {
      CoverCountAppend(strips, s, cy, cx);
    }
  }

  // ---------------------------------------------------------------------------
  // Creating, editing, saving and reading the map

  /** `initTileArray`: 25 rows of 25 DEFAULT tiles with zero counters. */
  method InitTileArray() returns (ta: array2<Tile>)
    ensures fresh(ta) && ta.Length0 == Size && ta.Length1 == Size
    ensures forall y, x :: InGrid(y, x) ==> ta[y, x] == Tile(Default, 0)
  {
    ta := new Tile[Size, Size]((y, x) => Tile(Default, 0));
  }

  /** Every tile is DEFAULT or BARRIER. */
  ghost predicate WellTyped(g: Grid)
    requires IsGrid(g)
  {
    forall y, x :: InGrid(y, x) ==> g[y][x].kind in {Default, Barrier}
  }

  /** The kind a click gives a tile: DEFAULT and BARRIER swap, anything else stays. */
  function Toggled(kind: int): (k: int)
    ensures kind == Default ==> k == Barrier
    ensures kind == Barrier ==> k == Default
    ensures kind !in {Default, Barrier} ==> k == kind
  {
    if kind == Default then Barrier else if kind == Barrier then Default else kind
  }

  /**
   * The mouse-button handler: pixel (px, py) selects cell (py / 24, px / 24);
   * a column past 24 is ignored. The screen is 600 pixels high, so the row is
   * at most 24.
   */
  method Click(ta: array2<Tile>, px: int, py: int)
    requires ta.Length0 == Size && ta.Length1 == Size
    requires 0 <= px && 0 <= py < Size * TileWidth
    modifies ta
    ensures px / TileWidth > 24 ==> forall y, x :: InGrid(y, x) ==> ta[y, x] == old(ta[y, x])
    ensures px / TileWidth <= 24 ==> forall y, x :: InGrid(y, x) ==>
      ta[y, x] == if (y, x) == (py / TileWidth, px / TileWidth)
        then old(ta[y, x]).(kind := Toggled(old(ta[y, x].kind)))
        else old(ta[y, x])
  {
    var x := px / TileWidth;
    var y := py / TileWidth;
    if x > 24 {
      return;
    }
    var t := ta[y, x];
    if t.kind == Default {
      ta[y, x] := t.(kind := Barrier);
    } else if t.kind == Barrier {
      ta[y, x] := t.(kind := Default);
    }
  }

  /** A click keeps every tile DEFAULT or BARRIER. */
  lemma ToggleKeepsWellTyped(kind: int)
    requires kind in {Default, Barrier}
    ensures Toggled(kind) in {Default, Barrier} && Toggled(kind) != kind
  {
  }

  /** The decimal text `operator<<` writes for an `int`. */
  function Decimal(n: int): (s: string)
    ensures |s| >= 1
  {
    if n < 0 then "-" + Digits(-n) else Digits(n)
  }

  function Digits(n: nat): (s: string)
    ensures |s| >= 1
  {
    if n < 10 then [(n as char) + '0'] else Digits(n / 10) + [((n % 10) as char) + '0']
  }

  /** The 625 tile kinds in row-major order, as written. */
  function KindTokens(g: Grid): (ts: seq<string>)
    requires IsGrid(g)
    ensures |ts| == Cells
  {
    seq(Cells, (p: int) requires 0 <= p < Cells => Decimal(g[p / Size][p % Size].kind))
  }

  function StripTokens(ss: seq<Strip>): (ts: seq<string>)
    ensures |ts| == 4 * |ss|
  {
    if ss == [] then []
    else
      var s := ss[0];
      [Decimal(s.x), Decimal(s.y), Decimal(s.h), Decimal(s.w)] + StripTokens(ss[1..])
  }

  /** The kind tokens run in row-major order: the token after the first `Size * y + x` is tile (y, x)'s. */
  lemma KindTokensNext(g: Grid, y: int, x: int)
    requires IsGrid(g) && InGrid(y, x)
    ensures KindTokens(g)[..Size * y + x + 1] == KindTokens(g)[..Size * y + x] + [Decimal(g[y][x].kind)]
  {
    Position(y, x);
  }

  /** The tokens of a saved map file: header, kinds, strip count, then `x y h w` per strip. */
  function SavedTokens(g: Grid): (ts: seq<string>)
    requires IsGrid(g)
    ensures |ts| == 2 + Cells + 4 * |Strips(g)|
    ensures ts[0] == "MAPDATA" && ts[1..1 + Cells] == KindTokens(g)
  {
    ["MAPDATA"] + KindTokens(g) + [Decimal(|Strips(g)|)] + StripTokens(Strips(g))
  }

  /** The first loop of `saveFile`: the header and every tile's kind in row-major order. */
  method WriteKinds(ta: array2<Tile>) returns (out: seq<string>)
    requires ta.Length0 == Size && ta.Length1 == Size
    ensures out == ["MAPDATA"] + KindTokens(Contents(ta))
  {
    ghost var g := Contents(ta);
    out := ["MAPDATA"];
    for y := 0 to Size
      invariant out == ["MAPDATA"] + KindTokens(g)[..Size * y]
    {
      for x := 0 to Size
        invariant out == ["MAPDATA"] + KindTokens(g)[..Size * y + x]
      {
        KindTokensNext(g, y, x);
        out := out + [Decimal(ta[y, x].kind)];
      }
    }
    assert KindTokens(g)[..Cells] == KindTokens(g);
  }

  /** The last loop of `saveFile`: `x y h w` per strip, in order. */
  method WriteStrips(strips: seq<Strip>) returns (out: seq<string>)
    ensures out == StripTokens(strips)
  {
    out := [];
    for k := 0 to |strips|
      invariant out + StripTokens(strips[k..]) == StripTokens(strips)
    {
      var s := strips[k];
      assert strips[k..] == [s] + strips[k + 1..];
      out := out + [Decimal(s.x), Decimal(s.y), Decimal(s.h), Decimal(s.w)];
    }
    assert strips[|strips|..] == [];
  }

  /** `saveFile`: the tokens written; the strip scan leaves every counter at zero. */
  method SaveFile(ta: array2<Tile>) returns (out: seq<string>)
    requires ta.Length0 == Size && ta.Length1 == Size
    modifies ta
    ensures out == SavedTokens(old(Contents(ta)))
    ensures forall y, x :: InGrid(y, x) ==> ta[y, x] == old(ta[y, x]).(tracked := 0)
  {
    out := WriteKinds(ta);
    var strips := OptimizeCollisionEntities(ta);
    var tail := WriteStrips(strips);
    out := out + [Decimal(|strips|)] + tail;
  }

  datatype MapError = EmptyMap | InvalidData(token: string)

  /**
   * The token `readFile` holds for cell `p`: token `p + 1` of the file, or,
   * once the file is exhausted, the last token it read (a failed `>>` leaves
   * the string as it was).
   */
  function CellToken(toks: seq<string>, p: int): string
    requires |toks| >= 1 && 0 <= p
  {
    if p + 1 < |toks| then toks[p + 1] else toks[|toks| - 1]
  }

  /** The kinds `readFile` stores for cells `p` onwards, or the first token that is neither "0" nor "1". */
  function ReadCells(toks: seq<string>, p: int): (r: Result<seq<int>, MapError>)
    requires |toks| >= 1 && 0 <= p <= Cells
    ensures r.Success? ==> |r.value| == Cells - p
    ensures r.Success? ==> forall k :: 0 <= k < |r.value| ==> r.value[k] in {Default, Barrier}
    decreases Cells - p
  {
    if p == Cells then Success([])
    else
      var t := CellToken(toks, p);
      if t == "0" || t == "1" then
        var rest :- ReadCells(toks, p + 1);
        Success([if t == "0" then Default else Barrier] + rest)
      else Failure(InvalidData(t))
  }

  /** `readFile` on the file's tokens: a missing header is an error; the header's text is not checked. */
  function ReadMap(toks: seq<string>): (r: Result<seq<int>, MapError>)
    ensures r.Success? ==> |r.value| == Cells && forall p :: 0 <= p < Cells ==> r.value[p] in {Default, Barrier}
  {
    if |toks| == 0 then Failure(EmptyMap) else ReadCells(toks, 0)
  }

  lemma {:induction false} ReadCellsSpec(toks: seq<string>, p: int)
    requires |toks| >= 1 && 0 <= p <= Cells
    ensures ReadCells(toks, p).Success? ==> forall k :: p <= k < Cells ==>
      && CellToken(toks, k) in {"0", "1"}
      && ReadCells(toks, p).value[k - p] == (if CellToken(toks, k) == "0" then Default else Barrier)
    ensures ReadCells(toks, p).Failure? <==> exists k :: p <= k < Cells && CellToken(toks, k) !in {"0", "1"}
    decreases Cells - p
  {
    if p < Cells {
      ReadCellsSpec(toks, p + 1);
    }
  }

  /** The kind a "0" or "1" token stands for. */
  function TokenKind(t: string): int
  {
    if t == "0" then Default else Barrier
  }

  /** The kinds in `done` are those of the first `|done|` cell tokens, all of them "0" or "1". */
  ghost predicate ReadSoFar(toks: seq<string>, done: seq<int>)
    requires |toks| >= 1
  {
    forall k :: 0 <= k < |done| ==> CellToken(toks, k) in {"0", "1"} && done[k] == TokenKind(CellToken(toks, k))
  }

  /** The first bad cell token is the one the read reports. */
  lemma {:induction false} ReadCellsFirstBad(toks: seq<string>, p: int, q: int)
    requires |toks| >= 1 && 0 <= p <= q < Cells
    requires forall k :: p <= k < q ==> CellToken(toks, k) in {"0", "1"}
    requires CellToken(toks, q) !in {"0", "1"}
    ensures ReadCells(toks, p) == Failure(InvalidData(CellToken(toks, q)))
    decreases q - p
  {
    if p < q {
      ReadCellsFirstBad(toks, p + 1, q);
    }
  }

  /** With every cell token good, the read yields exactly their kinds. */
  lemma ReadAllGood(toks: seq<string>, done: seq<int>)
    requires |toks| >= 1 && |done| == Cells && ReadSoFar(toks, done)
    ensures ReadMap(toks) == Success(done)
  {
    ReadCellsSpec(toks, 0);
    var r := ReadCells(toks, 0);
    assert r.Success? by {
      forall k | 0 <= k < Cells
        ensures CellToken(toks, k) in {"0", "1"}
      {
        assert k < |done|;
      }
    }
    assert |r.value| == Cells;
    forall k | 0 <= k < Cells
      ensures r.value[k] == done[k]
    {
      assert r.value[k - 0] == TokenKind(CellToken(toks, k));
    }
    assert r.value == done;
  }

  /** Tiles of `t`: the first `|done|` in row-major order carry the kinds read, the rest are as in `g`. */
  ghost predicate Filled(t: Grid, g: Grid, done: seq<int>)
    requires IsGrid(t) && IsGrid(g)
  {
    forall cy, cx :: InGrid(cy, cx) ==>
      t[cy][cx] == if Size * cy + cx < |done| then g[cy][cx].(kind := done[Size * cy + cx]) else g[cy][cx]
  }

  /** Setting the next tile in row-major order extends what is filled by one. */
  lemma FillNext(t: Grid, t': Grid, g: Grid, done: seq<int>, y: int, x: int, k: int)
    requires IsGrid(t) && IsGrid(t') && IsGrid(g) && InGrid(y, x)
    requires Filled(t, g, done) && |done| == Size * y + x
    requires t'[y][x] == t[y][x].(kind := k)
    requires forall cy, cx :: InGrid(cy, cx) && (cy, cx) != (y, x) ==> t'[cy][cx] == t[cy][cx]
    ensures Filled(t', g, done + [k])
  {
    forall cy, cx | InGrid(cy, cx)
      ensures t'[cy][cx] == if Size * cy + cx < |done| + 1 then g[cy][cx].(kind := (done + [k])[Size * cy + cx]) else g[cy][cx]
    {
      if (cy, cx) != (y, x) {
        assert Size * cy + cx != Size * y + x;
      }
    }
  }

  /**
   * `readFile`: writes the kinds row by row; on an error the editor exits, so
   * the grid is not specified then. Counters are never touched.
   */
  method ReadFile(toks: seq<string>, ta: array2<Tile>) returns (err: Option<MapError>)
    requires ta.Length0 == Size && ta.Length1 == Size
    modifies ta
    ensures ReadMap(toks).Failure? ==> err == Some(ReadMap(toks).error)
    ensures ReadMap(toks).Success? ==> err == None && forall y, x :: InGrid(y, x) ==>
      ta[y, x] == old(ta[y, x]).(kind := ReadMap(toks).value[Size * y + x])
  {
    if |toks| == 0 {
      return Some(EmptyMap);
    }
    ghost var g := Contents(ta);
    ghost var done: seq<int> := [];
    for y := 0 to Size
      invariant |done| == Size * y
      invariant ReadSoFar(toks, done)
      invariant Filled(Contents(ta), g, done)
    {
      for x := 0 to Size
        invariant |done| == Size * y + x
        invariant ReadSoFar(toks, done)
        invariant Filled(Contents(ta), g, done)
      {
        var token := CellToken(toks, Size * y + x);
        if token == "0" || token == "1" {
          ghost var t := Contents(ta);
          ta[y, x] := ta[y, x].(kind := TokenKind(token));
          FillNext(t, Contents(ta), g, done, y, x, TokenKind(token));
          done := done + [TokenKind(token)];
        } else {
          ReadCellsFirstBad(toks, 0, Size * y + x);
          return Some(InvalidData(token));
        }
      }
    }
    ReadAllGood(toks, done);
    assert Filled(Contents(ta), g, done);
    return None;
  }

  /** The kinds of a grid in row-major order. */
  function Kinds(g: Grid): (ks: seq<int>)
    requires IsGrid(g)
    ensures |ks| == Cells
  {
    seq(Cells, (p: int) requires 0 <= p < Cells => g[p / Size][p % Size].kind)
  }

  /** Reading a saved map back gives every tile its kind, for a map of DEFAULT and BARRIER tiles. */
  lemma SaveReadRoundTrip(g: Grid)
    requires IsGrid(g) && WellTyped(g)
    ensures ReadMap(SavedTokens(g)) == Success(Kinds(g))
  {
    var ts := SavedTokens(g);
    forall k | 0 <= k < Cells
      ensures CellToken(ts, k) in {"0", "1"} && Kinds(g)[k] == TokenKind(CellToken(ts, k))
    {
      assert ts[k + 1] == ts[1..1 + Cells][k];
      assert g[k / Size][k % Size].kind in {Default, Barrier};
    }
    ReadAllGood(ts, Kinds(g));
  }
}
