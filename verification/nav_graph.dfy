/**
 * The AI navigation graph: one node per open cell of the 25x25 level grid, each linked to
 * its present up/down/left/right neighbours, and two depth-first searches over it: a
 * recursive one that records every node it enters, and one over an explicit stack.
 * The graph is built from a level file's tokens.
 */
module NavGraph {
  import opened Wrappers
  import TileMap

  /** A grid coordinate `(y, x)`, row first, as the node map keys it. */
  type Cell = (int, int)

  /** The "no neighbour" link; the node map never holds this coordinate. */
  const NoLink: Cell := (-1, -1)

  /** A graph node: bit 0 of its flags (visited) and its four links. */
  datatype Node = Node(visited: bool, up: Cell, down: Cell, left: Cell, right: Cell)

  /** The cell one step away in direction `k`: 0 north, 1 south, 2 east, 3 west. */
  function Step(c: Cell, k: int): Cell
    requires 0 <= k < 4
  {
    if k == 0 then (c.0 - 1, c.1)
    else if k == 1 then (c.0 + 1, c.1)
    else if k == 2 then (c.0, c.1 + 1)
    else (c.0, c.1 - 1)
  }

  /** The link of `n` in direction `k` (same numbering as `Step`). */
  function Link(n: Node, k: int): Cell
    requires 0 <= k < 4
  {
    if k == 0 then n.up else if k == 1 then n.down else if k == 2 then n.right else n.left
  }

  /** What a link to `d` holds: `d` when it is a node, the sentinel otherwise. */
  function LinkTo(m: map<Cell, Node>, d: Cell): Cell
  {
    if d in m then d else NoLink
  }

  predicate Adjacent(a: Cell, b: Cell)
  {
    b == Step(a, 0) || b == Step(a, 1) || b == Step(a, 2) || b == Step(a, 3)
  }

  /**
   * The graph invariant: every node's link in each direction names the neighbouring
   * coordinate exactly when that coordinate is a node, and the sentinel otherwise.
   */
  ghost predicate WellLinked(m: map<Cell, Node>)
  {
    && NoLink !in m
    && forall c, k :: c in m && 0 <= k < 4 ==> Link(m[c], k) == LinkTo(m, Step(c, k))
  }

  /** The visited nodes. */
  ghost function Flags(m: map<Cell, Node>): (v: set<Cell>)
    ensures v <= m.Keys
  {
    set c | c in m && m[c].visited
  }

  /** `m'` differs from `m` at most in visited flags. */
  ghost predicate SameLinks(m: map<Cell, Node>, m': map<Cell, Node>)
  {
    && m.Keys == m'.Keys
    && forall c :: c in m ==> m'[c] == m[c].(visited := m'[c].visited)
  }

  lemma SameLinksKeepWellLinked(m: map<Cell, Node>, m': map<Cell, Node>)
    requires WellLinked(m) && SameLinks(m, m')
    ensures WellLinked(m')
  {
    forall c, k | c in m' && 0 <= k < 4
      ensures Link(m'[c], k) == LinkTo(m', Step(c, k))
    {
      assert Link(m'[c], k) == Link(m[c], k);
    }
  }

  /** Setting one node's visited flag. */
  lemma Mark(m: map<Cell, Node>, c: Cell, b: bool)
    requires c in m
    ensures SameLinks(m, m[c := m[c].(visited := b)])
    ensures Flags(m[c := m[c].(visited := b)]) == if b then Flags(m) + {c} else Flags(m) - {c}
  {
  }

  // ---------------------------------------------------------------- insertion

  /** The opposite direction. */
  function Opposite(k: int): (j: int)
    requires 0 <= k < 4
    ensures 0 <= j < 4
  {
    if k == 0 then 1 else if k == 1 then 0 else if k == 2 then 3 else 2
  }

  /** Stepping from `d` in direction `j` lands on `c` exactly when `d` is `c`'s neighbour the other way. */
  lemma StepOpposite(c: Cell, d: Cell, j: int)
    requires 0 <= j < 4
    ensures Step(d, j) == c <==> d == Step(c, Opposite(j))
  {
  }

  /** `n` with its link in direction `k` set to `d`. */
  function WithLink(n: Node, k: int, d: Cell): (r: Node)
    requires 0 <= k < 4
    ensures r.visited == n.visited
    ensures forall j :: 0 <= j < 4 ==> Link(r, j) == if j == k then d else Link(n, j)
  {
    if k == 0 then n.(up := d) else if k == 1 then n.(down := d)
    else if k == 2 then n.(right := d) else n.(left := d)
  }

  /** One neighbour block of `insertNewNode`: when the neighbour of `c` in direction `k` is a node, the two link to each other. */
  function Join(m: map<Cell, Node>, c: Cell, k: int): (r: map<Cell, Node>)
    requires c in m && 0 <= k < 4
    ensures r.Keys == m.Keys
    ensures forall d :: d in m ==> r[d].visited == m[d].visited
    ensures forall d, j :: d in m && 0 <= j < 4 ==>
      Link(r[d], j) ==
        if d == c && j == k && Step(c, k) in m then Step(c, k)
        else if d == Step(c, k) && j == Opposite(k) then c
        else Link(m[d], j)
  {
    var n := Step(c, k);
    if n in m then
      var m1 := m[n := WithLink(m[n], Opposite(k), c)];
      m1[c := WithLink(m1[c], k, n)]
    else m
  }

  const Unlinked: Node := Node(false, NoLink, NoLink, NoLink, NoLink)

  /**
   * The node map after `insertNewNode(c)`: nothing changes when `c` is already a node;
   * otherwise `c` is added unvisited and joined with its neighbours west, east, north, south.
   */
  function Inserted(m: map<Cell, Node>, c: Cell): (r: map<Cell, Node>)
    ensures r.Keys == m.Keys + {c}
    ensures c in m ==> r == m
    ensures forall d :: d in m ==> r[d].visited == m[d].visited
  {
    if c in m then m
    else Join(Join(Join(Join(m[c := Unlinked], c, 3), c, 2), c, 0), c, 1)
  }

  /**
   * A fresh insertion links the new node to exactly its present neighbours, and changes an
   * existing node only in the link that points at the new one.
   */
  lemma InsertedLinks(m: map<Cell, Node>, c: Cell)
    requires c !in m
    ensures forall k :: 0 <= k < 4 ==> Link(Inserted(m, c)[c], k) == LinkTo(m, Step(c, k))
    ensures forall d, k :: d in m && 0 <= k < 4 ==>
      Link(Inserted(m, c)[d], k) == (if Step(d, k) == c then c else Link(m[d], k))
  {
    var r0 := m[c := Unlinked];
    var r1 := Join(r0, c, 3);
    var r2 := Join(r1, c, 2);
    var r3 := Join(r2, c, 0);
    var r4 := Join(r3, c, 1);
    assert Inserted(m, c) == r4;
    forall k | 0 <= k < 4
      ensures Link(r4[c], k) == LinkTo(m, Step(c, k))
    {
      assert Step(c, k) != c && (Step(c, k) in r0 <==> Step(c, k) in m);
    }
    forall d, k | d in m && 0 <= k < 4
      ensures Link(r4[d], k) == (if Step(d, k) == c then c else Link(m[d], k))
    {
      StepOpposite(c, d, k);
      assert d != c;
    }
  }

  /** Insertion keeps every link pointing exactly at the present neighbours. */
  lemma InsertKeepsLinks(m: map<Cell, Node>, c: Cell)
    requires WellLinked(m) && c != NoLink
    ensures WellLinked(Inserted(m, c))
  {
    if c !in m {
      var r := Inserted(m, c);
      InsertedLinks(m, c);
      forall d, k | d in r && 0 <= k < 4
        ensures Link(r[d], k) == LinkTo(r, Step(d, k))
      {
        if d != c && Step(d, k) != c {
          assert Link(r[d], k) == LinkTo(m, Step(d, k));
        }
      }
    }
  }

  /**
   * On a well-linked map, links are symmetric (A.right == B exactly when B.left == A, and
   * A.down == B exactly when B.up == A) and every real link names an adjacent node.
   */
  lemma LinksSymmetric(m: map<Cell, Node>, a: Cell, b: Cell)
    requires WellLinked(m) && a in m && b in m
    ensures m[a].right == b <==> m[b].left == a
    ensures m[a].down == b <==> m[b].up == a
    ensures forall k :: 0 <= k < 4 && Link(m[a], k) != NoLink ==>
      Link(m[a], k) == Step(a, k) && Link(m[a], k) in m
  {
    assert m[a].right == LinkTo(m, Step(a, 2)) && m[b].left == LinkTo(m, Step(b, 3));
    assert m[a].down == LinkTo(m, Step(a, 1)) && m[b].up == LinkTo(m, Step(b, 0));
  }

  // ---------------------------------------------------------------- paths

  /** A walk through nodes, each step to a grid neighbour. */
  ghost predicate IsPath(keys: set<Cell>, p: seq<Cell>)
  {
    && |p| > 0
    && (forall i :: 0 <= i < |p| ==> p[i] in keys)
    && (forall i :: 0 <= i < |p| - 1 ==> Adjacent(p[i], p[i + 1]))
  }

  ghost predicate Reach(keys: set<Cell>, a: Cell, b: Cell)
  {
    exists p :: IsPath(keys, p) && p[0] == a && p[|p| - 1] == b
  }

  ghost function Reachable(keys: set<Cell>, a: Cell): set<Cell>
  {
    set c | c in keys && Reach(keys, a, c)
  }

  lemma ReachSelf(keys: set<Cell>, a: Cell)
    requires a in keys
    ensures Reach(keys, a, a)
  {
    assert IsPath(keys, [a]);
  }

  lemma ReachPrepend(keys: set<Cell>, a: Cell, b: Cell, c: Cell)
    requires a in keys && Adjacent(a, b) && Reach(keys, b, c)
    ensures Reach(keys, a, c)
  {
    var p :| IsPath(keys, p) && p[0] == b && p[|p| - 1] == c;
    assert IsPath(keys, [a] + p);
  }

  lemma ReachAppend(keys: set<Cell>, a: Cell, b: Cell, c: Cell)
    requires Reach(keys, a, b) && c in keys && Adjacent(b, c)
    ensures Reach(keys, a, c)
  {
    var p :| IsPath(keys, p) && p[0] == a && p[|p| - 1] == b;
    assert IsPath(keys, p + [c]);
  }

  /** Every node entered since `v` has all its neighbours in `w`. */
  ghost predicate ClosedOver(keys: set<Cell>, v: set<Cell>, w: set<Cell>)
  {
    forall c, k :: c in w && c !in v && 0 <= k < 4 && Step(c, k) in keys ==> Step(c, k) in w
  }

  /** Closure since `v` up to `w` and since `w` up to `x` is closure since `v` up to `x`. */
  lemma ClosedJoin(keys: set<Cell>, v: set<Cell>, w: set<Cell>, x: set<Cell>)
    requires w <= x && ClosedOver(keys, v, w)
    ensures ClosedOver(keys, w, x) ==> ClosedOver(keys, v, x)
  {
  }

  /** A set closed under adjacency that holds a path's start holds its end. */
  lemma {:induction false} ClosedHoldsPath(keys: set<Cell>, w: set<Cell>, p: seq<Cell>)
    requires ClosedOver(keys, {}, w) && IsPath(keys, p) && p[0] in w
    ensures p[|p| - 1] in w
    decreases |p|
  {
    if |p| > 1 {
      assert Adjacent(p[0], p[1]) && p[1] in keys;
      assert p[1] in w;
      assert IsPath(keys, p[1..]);
      ClosedHoldsPath(keys, w, p[1..]);
    }
  }

  predicate Distinct(s: seq<Cell>)
  {
    forall i, j :: 0 <= i < j < |s| ==> s[i] != s[j]
  }

  lemma DistinctConcat(a: seq<Cell>, b: seq<Cell>)
    requires Distinct(a) && Distinct(b) && forall c :: c in a ==> c !in b
    ensures Distinct(a + b)
  {
    forall i, j | 0 <= i < j < |a + b|
      ensures (a + b)[i] != (a + b)[j]
    {
      if i < |a| && |a| <= j {
        assert (a + b)[i] in a && (a + b)[j] in b;
      }
    }
  }

  // ---------------------------------------------------------------- recursive search

  /** What a search leaves behind: whether it reached `to`, the visited set, what it pushed. */
  datatype Outcome = Outcome(found: bool, visited: set<Cell>, trail: seq<Cell>)

  /**
   * The recursive `searchFor(from, to, vptr)` entered with visited set `visited`: reaching
   * `to` succeeds at once; an already visited node fails; otherwise `from` is pushed and
   * marked and its neighbours are tried north, south, east, west until one succeeds.
   * Nodes pushed on the way to a dead end stay pushed.
   */
  function Explore(keys: set<Cell>, visited: set<Cell>, from: Cell, to: Cell): (o: Outcome)
    requires from in keys && visited <= keys && to !in visited
    ensures visited <= o.visited <= keys && to !in o.visited
    ensures Distinct(o.trail)
    ensures forall c :: c in o.trail <==> c in o.visited - visited || (o.found && c == to)
    ensures o.found ==>
      |o.trail| > 0 && o.trail[0] == from && o.trail[|o.trail| - 1] == to && Reach(keys, from, to)
    ensures !o.found ==> from in o.visited && ClosedOver(keys, visited, o.visited)
    decreases keys - visited, 0
  {
    if from == to then
      ReachSelf(keys, from);
      Outcome(true, visited, [from])
    else if from in visited then Outcome(false, visited, [])
    else
      var o := Branches(keys, visited + {from}, from, to, 0);
      DistinctConcat([from], o.trail);
      Outcome(o.found, o.visited, [from] + o.trail)
  }

  /** The neighbours of `from` tried from direction `k` on, `from` already marked. */
  function Branches(keys: set<Cell>, visited: set<Cell>, from: Cell, to: Cell, k: int): (o: Outcome)
    requires from in visited && visited <= keys && to !in visited && 0 <= k <= 4
    ensures visited <= o.visited <= keys && to !in o.visited
    ensures Distinct(o.trail)
    ensures forall c :: c in o.trail <==> c in o.visited - visited || (o.found && c == to)
    ensures o.found ==> |o.trail| > 0 && o.trail[|o.trail| - 1] == to && Reach(keys, from, to)
    ensures !o.found ==> ClosedOver(keys, visited, o.visited)
    ensures !o.found ==> forall j :: k <= j < 4 && Step(from, j) in keys ==> Step(from, j) in o.visited
    decreases keys - visited, 1, 4 - k
  {
    if k == 4 then Outcome(false, visited, [])
    else if Step(from, k) !in keys then Branches(keys, visited, from, to, k + 1)
    else
      var o := Explore(keys, visited, Step(from, k), to);
      if o.found then
        ReachPrepend(keys, from, Step(from, k), to);
        o
      else
        var o2 := Branches(keys, o.visited, from, to, k + 1);
        DistinctConcat(o.trail, o2.trail);
        ClosedJoin(keys, visited, o.visited, o2.visited);
        Outcome(o2.found, o2.visited, o.trail + o2.trail)
  }

  /**
   * The top-level `searchFor(from, to)`: no result when an endpoint is not a node;
   * otherwise the search from a graph with every flag cleared.
   */
  function Search(keys: set<Cell>, from: Cell, to: Cell): (r: Option<seq<Cell>>)
    ensures r.Some? ==>
      && |r.value| > 0 && r.value[0] == from && r.value[|r.value| - 1] == to
      && Distinct(r.value) && forall c :: c in r.value ==> c in keys
  {
    if from !in keys || to !in keys then None
    else
      var o := Explore(keys, {}, from, to);
      if o.found then Some(o.trail) else None
  }

  /** The recursive search succeeds exactly when `to` can be reached from `from`. */
  lemma SearchFindsReachable(keys: set<Cell>, from: Cell, to: Cell)
    ensures Search(keys, from, to).Some? <==> from in keys && to in keys && Reach(keys, from, to)
  {
    if from in keys && to in keys && Reach(keys, from, to) {
      var o := Explore(keys, {}, from, to);
      if !o.found {
        var p :| IsPath(keys, p) && p[0] == from && p[|p| - 1] == to;
        ClosedHoldsPath(keys, o.visited, p);
        assert false;
      }
    }
  }

  /**
   * What a successful recursive search returns is not a path: it lists every node the
   * search entered, dead ends included, followed by `to`.
   */
  lemma SearchListsVisited(keys: set<Cell>, from: Cell, to: Cell, c: Cell)
    requires from in keys && to in keys && Search(keys, from, to).Some?
    ensures c in Search(keys, from, to).value <==> c in Explore(keys, {}, from, to).visited || c == to
  {
  }

  // ---------------------------------------------------------------- the graph object

  /** The outcome of the explicit-stack search: its vector, or control falling off the end. */
  datatype StackResult = Returned(stack: seq<Cell>) | FellOff

  /** A `Graph`: the node map and the AI spawn points. */
  class Graph {
    var nodes: map<Cell, Node>
    var spawns: seq<Cell>

    ghost predicate Valid()
      reads this
    {
      WellLinked(nodes)
    }

    constructor ()
      ensures nodes == map[] && spawns == [] && Valid()
    {
      nodes := map[];
      spawns := [];
    }

    /** `insertNewNode(y, x)`: a new node linked both ways to its present neighbours. */
    method InsertNewNode(y: int, x: int)
      requires Valid() && (y, x) != NoLink
      modifies this
      ensures nodes == Inserted(old(nodes), (y, x)) && spawns == old(spawns)
      ensures Valid()
    {
      ghost var m := nodes;
      if (y, x) !in nodes {
        nodes := nodes[(y, x) := Node(false, NoLink, NoLink, NoLink, NoLink)];
        JoinNeighbour((y, x), 3);  // left
        JoinNeighbour((y, x), 2);  // right
        JoinNeighbour((y, x), 0);  // up
        JoinNeighbour((y, x), 1);  // down
      }
      InsertKeepsLinks(m, (y, x));
    }

    /** One neighbour block of `insertNewNode`: link `c` and its neighbour in direction `k` both ways, when that neighbour is a node. */
    method JoinNeighbour(c: Cell, k: int)
      requires c in nodes && 0 <= k < 4
      modifies this
      ensures nodes == Join(old(nodes), c, k) && spawns == old(spawns)
    {
      var n := Step(c, k);
      if n in nodes {
        nodes := nodes[n := WithLink(nodes[n], Opposite(k), c)];
        nodes := nodes[c := WithLink(nodes[c], k, n)];
      }
    }

    /** `insertSpawnPoint(y, x)`. */
    method InsertSpawnPoint(y: int, x: int)
      modifies this
      ensures spawns == old(spawns) + [(y, x)] && nodes == old(nodes)
    {
      spawns := spawns + [(y, x)];
    }

    /** Clears every node's visited flag. */
    method ResetFlags()
      requires Valid()
      modifies this
      ensures Valid() && SameLinks(old(nodes), nodes) && spawns == old(spawns)
      ensures Flags(nodes) == {}
    {
      var rest := nodes.Keys;
      while rest != {}
        invariant rest <= nodes.Keys && Flags(nodes) <= rest
        invariant SameLinks(old(nodes), nodes) && spawns == old(spawns)
        decreases rest
      {
        var c :| c in rest;
        Mark(nodes, c, false);
        nodes := nodes[c := nodes[c].(visited := false)];
        rest := rest - {c};
      }
      SameLinksKeepWellLinked(old(nodes), nodes);
    }

    /** The recursive step of `searchFor` (the call with a vector): `trail` is that vector. */
    method SearchFrom(from: Cell, to: Cell, trail: seq<Cell>) returns (found: bool, trail': seq<Cell>)
      requires Valid() && from in nodes && to !in Flags(nodes)
      modifies this
      ensures Valid() && SameLinks(old(nodes), nodes) && spawns == old(spawns)
      ensures var o := Explore(old(nodes).Keys, Flags(old(nodes)), from, to);
        found == o.found && Flags(nodes) == o.visited && trail' == trail + o.trail
      decreases nodes.Keys - Flags(nodes), 0
    {
      if from == to {
        return true, trail + [from];
      }
      if nodes[from].visited {
        return false, trail;
      }
      ghost var keys := nodes.Keys;
      ghost var v0 := Flags(nodes);
      Mark(nodes, from, true);
      nodes := nodes[from := nodes[from].(visited := true)];
      SameLinksKeepWellLinked(old(nodes), nodes);
      found, trail' := TryNeighbours(from, to, 0, trail + [from]);
      ExploreEnters(keys, v0, from, to);
    }

    /**
     * The neighbour blocks of the recursive `searchFor`, from direction `k` on (north, south,
     * east, west): search from each linked neighbour with the same vector, stopping at the
     * first success.
     */
    method TryNeighbours(from: Cell, to: Cell, k: int, trail: seq<Cell>) returns (found: bool, trail': seq<Cell>)
      requires Valid() && from in Flags(nodes) && to !in Flags(nodes) && 0 <= k <= 4
      modifies this
      ensures Valid() && SameLinks(old(nodes), nodes) && spawns == old(spawns)
      ensures var o := Branches(old(nodes).Keys, Flags(old(nodes)), from, to, k);
        found == o.found && Flags(nodes) == o.visited && trail' == trail + o.trail
      decreases nodes.Keys - Flags(nodes), 1, 4 - k
    {
      if k == 4 {
        return false, trail;
      }
      var f := nodes[from];
      assert Link(f, k) == LinkTo(nodes, Step(from, k));
      trail' := trail;
      if Link(f, k) != NoLink {
        found, trail' := SearchFrom(Step(from, k), to, trail);
        if found {
          return;
        }
      }
      ghost var mid := nodes;
      found, trail' := TryNeighbours(from, to, k + 1, trail');
      SameLinksTrans(old(nodes), mid, nodes);
    }

    /** The top-level recursive `searchFor(from, to)` of the editor's graph. */
    method SearchFor(from: Cell, to: Cell) returns (r: Option<seq<Cell>>)
      requires Valid()
      modifies this
      ensures Valid() && SameLinks(old(nodes), nodes) && spawns == old(spawns)
      ensures r == Search(old(nodes).Keys, from, to)
      ensures Flags(nodes) ==
        if from !in old(nodes) || to !in old(nodes) || from == to then Flags(old(nodes))
        else Explore(old(nodes).Keys, {}, from, to).visited
    {
      if from !in nodes || to !in nodes {
        return None;
      }
      if from == to {
        assert Explore(nodes.Keys, {}, from, to) == Outcome(true, {}, [from]);
        return Some([from]);
      }
      ResetFlags();
      assert nodes.Keys == old(nodes).Keys;
      var found, trail := SearchFrom(from, to, []);
      ghost var o := Explore(old(nodes).Keys, {}, from, to);
      assert found == o.found && trail == [] + o.trail == o.trail;
      r := if found then Some(trail) else None;
    }

    /** The expansion step of the explicit-stack search: mark `p` and push its linked neighbours north, south, west, east. */
    method Expand(p: Cell, s: seq<Cell>) returns (s': seq<Cell>)
      requires Valid() && p in nodes
      modifies this
      ensures nodes == old(nodes)[p := old(nodes)[p].(visited := true)] && spawns == old(spawns)
      ensures Valid() && SameLinks(old(nodes), nodes)
      ensures s' == s + Neighbours(old(nodes).Keys, p)
    {
      var gn := nodes[p];
      LinkedNeighbours(nodes, p);
      Mark(nodes, p, true);
      nodes := nodes[p := nodes[p].(visited := true)];
      SameLinksKeepWellLinked(old(nodes), nodes);
      s' := PushLinks(gn, s);
    }

    /**
     * The application's `searchFor(from, to)`: pops the stack until it pops `to`, expanding
     * each unvisited node by pushing its neighbours north, south, west, east. It returns
     * what is left on the stack; when the stack runs dry, control falls off the end.
     */
    method SearchForStack(from: Cell, to: Cell) returns (r: StackResult)
      requires Valid()
      modifies this
      ensures Valid() && SameLinks(old(nodes), nodes) && spawns == old(spawns)
      ensures from !in old(nodes) || to !in old(nodes) ==> r == Returned([]) && nodes == old(nodes)
      ensures from in old(nodes) && to in old(nodes) ==>
        && (r.FellOff? <==> !Reach(old(nodes).Keys, from, to))
        && (r.Returned? ==> forall c :: c in r.stack ==> c in nodes && Reach(nodes.Keys, from, c))
        && Flags(nodes) <= Reachable(nodes.Keys, from)
        && (r.FellOff? ==> Flags(nodes) == Reachable(nodes.Keys, from))
    {
      if from !in nodes {
        return Returned([]);
      }
      if to !in nodes {
        return Returned([]);
      }
      ResetFlags();
      ghost var keys := nodes.Keys;
      ReachSelf(keys, from);
      var s := [from];
      while |s| > 0
        invariant Valid() && SameLinks(old(nodes), nodes) && spawns == old(spawns)
        invariant nodes.Keys == keys && StackInv(keys, from, to, Flags(nodes), s)
        decreases keys - Flags(nodes), |s|
      {
        ghost var s0 := s;
        var p := s[|s| - 1];
        s := s[..|s| - 1];
        assert s0 == s + [p];
        var gn := nodes[p];
        if p == to {
          StackInvPopped(keys, from, to, Flags(nodes), s, p);
          return Returned(s);
        }
        if !gn.visited {
          ghost var before := nodes;
          ghost var s1 := s;
          Mark(nodes, p, true);
          s := Expand(p, s);
          SameLinksTrans(old(nodes), before, nodes);
          assert before.Keys == keys;
          StackInvExpand(keys, from, to, Flags(before), s1, p);
        } else {
          StackInvPopped(keys, from, to, Flags(nodes), s, p);
        }
      }
      StackExhausted(keys, from, to, Flags(nodes));
      return FellOff;
    }
  }

  lemma SameLinksTrans(a: map<Cell, Node>, b: map<Cell, Node>, c: map<Cell, Node>)
    requires SameLinks(a, b) && SameLinks(b, c)
    ensures SameLinks(a, c)
  {
  }

  /** Entering an unvisited `from` other than `to` marks it, pushes it, and tries its neighbours. */
  lemma ExploreEnters(keys: set<Cell>, visited: set<Cell>, from: Cell, to: Cell)
    requires from in keys && visited <= keys && to !in visited && from != to && from !in visited
    ensures Explore(keys, visited, from, to) ==
      var b := Branches(keys, visited + {from}, from, to, 0); Outcome(b.found, b.visited, [from] + b.trail)
  {
  }

  /** What the explicit-stack search pushes when it expands `p`: its neighbours north, south, west, east. */
  ghost function Neighbours(keys: set<Cell>, p: Cell): seq<Cell>
  {
    Present(keys, Step(p, 0)) + Present(keys, Step(p, 1)) + Present(keys, Step(p, 3)) + Present(keys, Step(p, 2))
  }

  /** `[c]` when `c` is a node, nothing otherwise. */
  ghost function Present(keys: set<Cell>, c: Cell): seq<Cell>
  {
    if c in keys then [c] else []
  }

  /** The links of a node that are not the sentinel, in the order the stack search pushes them: north, south, west, east. */
  function Pushed(n: Node): seq<Cell>
  {
    (if n.up != NoLink then [n.up] else []) + (if n.down != NoLink then [n.down] else [])
    + (if n.left != NoLink then [n.left] else []) + (if n.right != NoLink then [n.right] else [])
  }

  /** The links of `p` that are not the sentinel are its neighbours that are nodes. */
  lemma LinkedNeighbours(m: map<Cell, Node>, p: Cell)
    requires WellLinked(m) && p in m
    ensures Neighbours(m.Keys, p) == Pushed(m[p])
  {
    assert Link(m[p], 0) == LinkTo(m, Step(p, 0)) && Link(m[p], 1) == LinkTo(m, Step(p, 1));
    assert Link(m[p], 2) == LinkTo(m, Step(p, 2)) && Link(m[p], 3) == LinkTo(m, Step(p, 3));
  }

  /** The pushes of the stack search's expansion step, one link at a time. */
  method PushLinks(n: Node, s: seq<Cell>) returns (s': seq<Cell>)
    ensures s' == s + Pushed(n)
  {
    s' := s;
    if n.up != NoLink {
      s' := s' + [n.up];
    }
    if n.down != NoLink {
      s' := s' + [n.down];
    }
    assert s' == s + (if n.up != NoLink then [n.up] else []) + (if n.down != NoLink then [n.down] else []);
    if n.left != NoLink {
      s' := s' + [n.left];
    }
    if n.right != NoLink {
      s' := s' + [n.right];
    }
  }

  /** The expansion pushes exactly the neighbours of `p` that are nodes. */
  lemma NeighboursPresent(keys: set<Cell>, p: Cell)
    ensures forall c :: c in Neighbours(keys, p) ==> c in keys && Adjacent(p, c)
    ensures forall k :: 0 <= k < 4 && Step(p, k) in keys ==> Step(p, k) in Neighbours(keys, p)
  {
  }

  /**
   * The explicit-stack search's loop invariant: `to` is never marked; everything marked or
   * stacked is reachable from `from`; `from` is marked or stacked; and every neighbour of a
   * marked node is marked or still stacked.
   */
  ghost predicate StackInv(keys: set<Cell>, from: Cell, to: Cell, v: set<Cell>, s: seq<Cell>)
  {
    && v <= keys && to !in v
    && (forall c :: c in s ==> c in keys && Reach(keys, from, c))
    && (forall c :: c in v ==> Reach(keys, from, c))
    && (from in v || from in s)
    && forall c, k :: c in v && 0 <= k < 4 && Step(c, k) in keys ==> Step(c, k) in v || Step(c, k) in s
  }

  /** Popping a node: when it is marked already the invariant holds without it; it is reachable. */
  lemma StackInvPopped(keys: set<Cell>, from: Cell, to: Cell, v: set<Cell>, s: seq<Cell>, p: Cell)
    requires StackInv(keys, from, to, v, s + [p])
    ensures Reach(keys, from, p) && forall c :: c in s ==> c in keys && Reach(keys, from, c)
    ensures p in v ==> StackInv(keys, from, to, v, s)
  {
    assert p in s + [p];
    forall c | c in s
      ensures c in keys && Reach(keys, from, c)
    {
      assert c in s + [p];
    }
    if p in v {
      forall c, k | c in v && 0 <= k < 4 && Step(c, k) in keys
        ensures Step(c, k) in v || Step(c, k) in s
      {
        assert Step(c, k) in v || Step(c, k) in s + [p];
      }
      if from !in v {
        assert from in s + [p];
      }
    }
  }

  /** Expanding an unmarked node other than `to`: mark it and push its neighbours. */
  lemma StackInvExpand(keys: set<Cell>, from: Cell, to: Cell, v: set<Cell>, s: seq<Cell>, p: Cell)
    requires StackInv(keys, from, to, v, s + [p]) && p !in v && p != to
    ensures StackInv(keys, from, to, v + {p}, s + Neighbours(keys, p))
  {
    StackInvPopped(keys, from, to, v, s, p);
    PushReachable(keys, from, p);
    NeighboursPresent(keys, p);
    var s' := s + Neighbours(keys, p);
    forall c | c in s'
      ensures c in keys && Reach(keys, from, c)
    {
      if c !in s {
        assert c in Neighbours(keys, p);
      }
    }
    forall c, k | c in v + {p} && 0 <= k < 4 && Step(c, k) in keys
      ensures Step(c, k) in v + {p} || Step(c, k) in s'
    {
      if c == p {
        assert Step(c, k) in Neighbours(keys, p);
      } else {
        assert Step(c, k) in v || Step(c, k) in s + [p];
      }
    }
    if from !in v + {p} {
      assert from in s + [p];
    }
  }

  /** An empty stack: `to` is unreachable and the marked nodes are exactly the reachable ones. */
  lemma StackExhausted(keys: set<Cell>, from: Cell, to: Cell, v: set<Cell>)
    requires StackInv(keys, from, to, v, [])
    ensures !Reach(keys, from, to) && v == Reachable(keys, from)
  {
    assert ClosedOver(keys, {}, v);
    if Reach(keys, from, to) {
      var p :| IsPath(keys, p) && p[0] == from && p[|p| - 1] == to;
      ClosedHoldsPath(keys, v, p);
    }
    forall c | c in Reachable(keys, from)
      ensures c in v
    {
      var p :| IsPath(keys, p) && p[0] == from && p[|p| - 1] == c;
      ClosedHoldsPath(keys, v, p);
    }
  }

  /** Every present neighbour of a reachable node is reachable. */
  lemma PushReachable(keys: set<Cell>, from: Cell, p: Cell)
    requires Reach(keys, from, p)
    ensures forall k :: 0 <= k < 4 && Step(p, k) in keys ==> Reach(keys, from, Step(p, k))
  {
    forall k | 0 <= k < 4 && Step(p, k) in keys
      ensures Reach(keys, from, Step(p, k))
    {
      ReachAppend(keys, from, p, Step(p, k));
    }
  }

  // ---------------------------------------------------------------- construction

  /** The token `gen_ai_graph` reads for cell `c` (a read past the end keeps the last token). */
  function CellToken(toks: seq<string>, c: Cell): string
    requires |toks| >= 1 && 0 <= c.0 && 0 <= c.1
  {
    TileMap.CellToken(toks, TileMap.Size * c.0 + c.1)
  }

  predicate OnGrid(c: Cell)
  {
    0 <= c.0 < TileMap.Size && 0 <= c.1 < TileMap.Size
  }

  /** `a` comes before `b` in row-major order. */
  predicate RowMajorBefore(a: Cell, b: Cell)
  {
    a.0 < b.0 || (a.0 == b.0 && a.1 < b.1)
  }

  /** The spawn points of the cells before `(y, x)`: the cells whose token is "2", in row-major order. */
  function SpawnsBefore(toks: seq<string>, y: int, x: int): (r: seq<Cell>)
    requires |toks| >= 1 && 0 <= y <= TileMap.Size && 0 <= x <= TileMap.Size && (y == TileMap.Size ==> x == 0)
    ensures forall i :: 0 <= i < |r| ==>
      OnGrid(r[i]) && RowMajorBefore(r[i], (y, x)) && CellToken(toks, r[i]) == "2"
    ensures forall i, j :: 0 <= i < j < |r| ==> RowMajorBefore(r[i], r[j])
    ensures forall c :: OnGrid(c) && RowMajorBefore(c, (y, x)) && CellToken(toks, c) == "2" ==> c in r
    decreases y, x
  {
    if x == 0 then
      if y == 0 then [] else SpawnsBefore(toks, y - 1, TileMap.Size)
    else
      var pre := SpawnsBefore(toks, y, x - 1);
      if CellToken(toks, (y, x - 1)) == "2" then pre + [(y, x - 1)] else pre
  }

  /** The nodes of the cells before `(y, x)`: exactly those whose token is not "1". */
  ghost predicate OpenBefore(keys: set<Cell>, toks: seq<string>, y: int, x: int)
    requires |toks| >= 1
  {
    forall c :: c in keys <==> OnGrid(c) && RowMajorBefore(c, (y, x)) && CellToken(toks, c) != "1"
  }

  /**
   * `gen_ai_graph`: no graph when the file has no header token (the program exits); otherwise
   * a node for every cell whose token is not "1", linked to its open neighbours, and a spawn
   * point for every "2", in row-major order.
   */
  method GenAiGraph(toks: seq<string>) returns (g: Graph?)
    ensures g == null <==> |toks| == 0
    ensures g != null ==>
      && fresh(g) && g.Valid()
      && (forall c :: c in g.nodes <==> OnGrid(c) && CellToken(toks, c) != "1")
      && g.spawns == SpawnsBefore(toks, TileMap.Size, 0)
  {
    if |toks| == 0 {
      return null;
    }
    g := new Graph();
    for y := 0 to TileMap.Size
      invariant fresh(g) && g.Valid()
      invariant OpenBefore(g.nodes.Keys, toks, y, 0)
      invariant g.spawns == SpawnsBefore(toks, y, 0)
    {
      ReadRow(g, toks, y);
    }
  }

  /** The inner loop of `gen_ai_graph`: the 25 cells of row `y`. */
  method ReadRow(g: Graph, toks: seq<string>, y: int)
    requires |toks| >= 1 && 0 <= y < TileMap.Size
    requires g.Valid() && OpenBefore(g.nodes.Keys, toks, y, 0) && g.spawns == SpawnsBefore(toks, y, 0)
    modifies g
    ensures g.Valid() && OpenBefore(g.nodes.Keys, toks, y + 1, 0) && g.spawns == SpawnsBefore(toks, y + 1, 0)
  {
    for x := 0 to TileMap.Size
      invariant g.Valid()
      invariant OpenBefore(g.nodes.Keys, toks, y, x)
      invariant g.spawns == SpawnsBefore(toks, y, x)
    {
      ReadCell(g, toks, y, x);
    }
    OpenBeforeRow(g.nodes.Keys, toks, y);
  }

  /** The body of `gen_ai_graph`'s loops: read cell `(y, x)`'s token and add its node and spawn point. */
  method ReadCell(g: Graph, toks: seq<string>, y: int, x: int)
    requires |toks| >= 1 && 0 <= y < TileMap.Size && 0 <= x < TileMap.Size
    requires g.Valid() && OpenBefore(g.nodes.Keys, toks, y, x) && g.spawns == SpawnsBefore(toks, y, x)
    modifies g
    ensures g.Valid() && OpenBefore(g.nodes.Keys, toks, y, x + 1) && g.spawns == SpawnsBefore(toks, y, x + 1)
  {
    var token := CellToken(toks, (y, x));
    ghost var keys := g.nodes.Keys;
    if token != "1" {
      g.InsertNewNode(y, x);
      if token == "2" {
        g.InsertSpawnPoint(y, x);
      }
    }
    OpenBeforeNext(keys, g.nodes.Keys, toks, y, x);
  }

  /** One more cell read: it becomes a node exactly when its token is not "1". */
  lemma OpenBeforeNext(keys: set<Cell>, keys': set<Cell>, toks: seq<string>, y: int, x: int)
    requires |toks| >= 1 && 0 <= y < TileMap.Size && 0 <= x < TileMap.Size
    requires OpenBefore(keys, toks, y, x)
    requires keys' == if CellToken(toks, (y, x)) != "1" then keys + {(y, x)} else keys
    ensures OpenBefore(keys', toks, y, x + 1)
  {
    forall c
      ensures c in keys' <==> OnGrid(c) && RowMajorBefore(c, (y, x + 1)) && CellToken(toks, c) != "1"
    {
      if c != (y, x) {
        assert c in keys' <==> c in keys;
      }
    }
  }

  /** The end of a row is the start of the next. */
  lemma OpenBeforeRow(keys: set<Cell>, toks: seq<string>, y: int)
    requires |toks| >= 1 && 0 <= y < TileMap.Size
    requires OpenBefore(keys, toks, y, TileMap.Size)
    ensures OpenBefore(keys, toks, y + 1, 0)
  {
  }

  /** Every spawn point of a built graph is one of its nodes. */
  lemma SpawnsAreNodes(toks: seq<string>, keys: set<Cell>)
    requires |toks| >= 1 && OpenBefore(keys, toks, TileMap.Size, 0)
    ensures forall c :: c in SpawnsBefore(toks, TileMap.Size, 0) ==> c in keys
  {
  }
}
