/**
 * The plain-text model-description language of `ModelParser`, as a
 * specification: the directive state machine one token at a time, imports
 * with their shared guard of file names, export finalisation and the two
 * model-data getters.
 *
 * A workspace is the parser's five maps. Errors are the C++ exception the
 * parser would throw, reduced to what decides how `(imp)` treats it: a
 * `std::runtime_error` with its message, a `std::out_of_range` from a
 * `.at()` lookup, a number-conversion failure from `std::stof`/`std::stoi`,
 * or the plain `std::exception` copy that `(imp)` rethrows for anything that
 * is not a `runtime_error`.
 */
module SimpleModel {
  import opened Wrappers
  import opened Geometry
  import opened Ordering
  import Comments

  datatype Error =
    | RuntimeError(msg: string)
    | OutOfRange
    | BadNumber
    | Sliced

  /**
   * What the parser reads but does not compute: the whitespace-separated
   * tokens of each readable model file, the number conversions, the glm
   * rotation of a point about an axis by an angle in radians, and the
   * generators' sine and cosine.
   */
  datatype Env = Env(
    files: map<string, seq<string>>,
    stof: string -> Option<real>,
    stoi: string -> Option<int>,
    rotate: (Vertex, real, Vertex) -> Vertex,
    polar: Polar)

  datatype Workspace = Workspace(
    vertices: map<string, Vertex>,
    tris: map<string, Triangle>,
    models: map<string, Model>,
    namespaces: map<string, seq<string>>,
    exported: map<string, Model>)

  const EmptyWorkspace: Workspace := Workspace(map[], map[], map[], map[], map[])

  /** The non-default parser states, one per directive keyword family. */
  datatype Directive =
    | NamedVertex | NamedTri | NamedModel | Export | Import | Namespace | ExportRename
    | Translate | Rotate | RotateDeg | Scale | GenCircle | GenCylinder

  /** The parser's position: the token index, the current state (`None` is the default state) and the maps. */
  datatype Config = Config(i: int, st: Option<Directive>, ws: Workspace)

  /** How `(nm)` treats a negative triangle count: as the source does, or rejecting it. */
  datatype Mode = AsWritten | Corrected

  const Keywords: set<string> := {
    "(nv)", "(nt)", "(nm)", "(exm)", "(imp)", "(ns)", "(exrn)", "(tfxlat)",
    "(tfrotx)", "(tfroty)", "(tfrotz)", "(tfrotdx)", "(tfrotdy)", "(tfrotdz)",
    "(tfsc)", "(gcirc)", "(gcyl)" }

  /** The table from directive keyword to parser state. */
  function Keyword(tok: string): (d: Option<Directive>)
    ensures d.Some? <==> tok in Keywords
  {
    if tok == "(nv)" then Some(NamedVertex)
    else if tok == "(nt)" then Some(NamedTri)
    else if tok == "(nm)" then Some(NamedModel)
    else if tok == "(exm)" then Some(Export)
    else if tok == "(imp)" then Some(Import)
    else if tok == "(ns)" then Some(Namespace)
    else if tok == "(exrn)" then Some(ExportRename)
    else if tok == "(tfxlat)" then Some(Translate)
    else if tok == "(tfrotx)" || tok == "(tfroty)" || tok == "(tfrotz)" then Some(Rotate)
    else if tok == "(tfrotdx)" || tok == "(tfrotdy)" || tok == "(tfrotdz)" then Some(RotateDeg)
    else if tok == "(tfsc)" then Some(Scale)
    else if tok == "(gcirc)" then Some(GenCircle)
    else if tok == "(gcyl)" then Some(GenCylinder)
    else None
  }

  // ---------------------------------------------------------------------------
  // Token access

  /** `token_list.at(j)`. */
  function At(toks: seq<string>, j: int): (r: Result<string, Error>)
    ensures r.Success? <==> 0 <= j < |toks|
    ensures r.Success? ==> r.value == toks[j]
    ensures r.Failure? ==> r.error == OutOfRange
  {
    if 0 <= j < |toks| then Success(toks[j]) else Failure(OutOfRange)
  }

  /** `std::stof(token_list.at(j))`: out_of_range past the end, a conversion error for a non-number. */
  function FloatAt(env: Env, toks: seq<string>, j: int): (r: Result<real, Error>)
    ensures r.Success? <==> 0 <= j < |toks| && env.stof(toks[j]).Some?
    ensures r.Success? ==> r.value == env.stof(toks[j]).value
    ensures r.Failure? ==> r.error == if 0 <= j < |toks| then BadNumber else OutOfRange
  {
    var s :- At(toks, j);
    if env.stof(s).Some? then Success(env.stof(s).value) else Failure(BadNumber)
  }

  /** `std::stoi(token_list.at(j))`: out_of_range past the end, a conversion error for a non-number. */
  function IntAt(env: Env, toks: seq<string>, j: int): (r: Result<int, Error>)
    ensures r.Success? <==> 0 <= j < |toks| && env.stoi(toks[j]).Some?
    ensures r.Success? ==> r.value == env.stoi(toks[j]).value
    ensures r.Failure? ==> r.error == if 0 <= j < |toks| then BadNumber else OutOfRange
  {
    var s :- At(toks, j);
    if env.stoi(s).Some? then Success(env.stoi(s).value) else Failure(BadNumber)
  }

  /** `named_vertices.at(token_list.at(j))`: both lookups throw out_of_range. */
  function VertexAt(toks: seq<string>, j: int, ws: Workspace): (r: Result<Vertex, Error>)
    ensures r.Success? <==> 0 <= j < |toks| && toks[j] in ws.vertices
    ensures r.Success? ==> r.value == ws.vertices[toks[j]]
    ensures r.Failure? ==> r.error == OutOfRange
  {
    var s :- At(toks, j);
    if s in ws.vertices then Success(ws.vertices[s]) else Failure(OutOfRange)
  }

  /** The error a read or a step ends with, if it fails. */
  function ErrorOf<T>(r: Result<T, Error>): Option<Error>
  {
    if r.Failure? then Some(r.error) else None
  }

  /** The error of two reads made in order: the first one that throws ends the directive. */
  function Then(first: Option<Error>, second: Option<Error>): Option<Error>
  {
    if first.Some? then first else second
  }

  /** `std::map::insert`: binds `k` only when it is not bound yet. */
  function InsertNew<V>(m: map<string, V>, k: string, v: V): (r: map<string, V>)
    ensures k in r && r.Keys == m.Keys + {k}
    ensures k in m ==> r == m
    ensures k !in m ==> r[k] == v && forall j :: j in m ==> r[j] == m[j]
  {
    if k in m then m else m[k := v]
  }

  // ---------------------------------------------------------------------------
  // The directives

  /** `(nv) name x y z`: a new named vertex. */
  function NamedVertexStep(env: Env, toks: seq<string>, i: int, name: string, ws: Workspace): (r: Result<Config, Error>)
    ensures name in ws.vertices ==> r == Failure(RuntimeError("repeated named vertex in ModelParser"))
    ensures r.Success? ==>
      && name !in ws.vertices && r.value.i == i + 4 && 0 <= i + 1 && i + 3 < |toks|
      && env.stof(toks[i + 1]).Some? && env.stof(toks[i + 2]).Some? && env.stof(toks[i + 3]).Some?
      && r.value.ws == ws.(vertices := ws.vertices[name := Vertex(
           env.stof(toks[i + 1]).value, env.stof(toks[i + 2]).value, env.stof(toks[i + 3]).value)])
    ensures name !in ws.vertices ==>
      ErrorOf(r) == Then(ErrorOf(FloatAt(env, toks, i + 1)), Then(ErrorOf(FloatAt(env, toks, i + 2)), ErrorOf(FloatAt(env, toks, i + 3))))
  {
    if name in ws.vertices then Failure(RuntimeError("repeated named vertex in ModelParser"))
    else
      var x :- FloatAt(env, toks, i + 1);
      var y :- FloatAt(env, toks, i + 2);
      var z :- FloatAt(env, toks, i + 3);
      Success(Config(i + 4, None, ws.(vertices := ws.vertices[name := Vertex(x, y, z)])))
  }

  /** `(nt) name v1 v2 v3`: a new named triangle over three named vertices. */
  function NamedTriStep(toks: seq<string>, i: int, name: string, ws: Workspace): (r: Result<Config, Error>)
    ensures name in ws.tris ==> r == Failure(RuntimeError("repeated named tri in ModelParser"))
    ensures name !in ws.tris && 0 <= i + 1 && i + 3 < |toks| &&
      (toks[i + 1] !in ws.vertices || toks[i + 2] !in ws.vertices || toks[i + 3] !in ws.vertices)
      ==> r == Failure(OutOfRange)
    ensures r.Success? ==>
      && name !in ws.tris && r.value.i == i + 4 && 0 <= i + 1 && i + 3 < |toks|
      && toks[i + 1] in ws.vertices && toks[i + 2] in ws.vertices && toks[i + 3] in ws.vertices
      && r.value.ws == ws.(tris := ws.tris[name := Triangle(
           ws.vertices[toks[i + 1]], ws.vertices[toks[i + 2]], ws.vertices[toks[i + 3]])])
    ensures name !in ws.tris ==>
      (r.Success? <==>
         0 <= i + 1 && i + 3 < |toks| && toks[i + 1] in ws.vertices && toks[i + 2] in ws.vertices && toks[i + 3] in ws.vertices)
    ensures name !in ws.tris && r.Failure? ==> r.error == OutOfRange
  {
    if name in ws.tris then Failure(RuntimeError("repeated named tri in ModelParser"))
    else
      var a :- VertexAt(toks, i + 1, ws);
      var b :- VertexAt(toks, i + 2, ws);
      var c :- VertexAt(toks, i + 3, ws);
      Success(Config(i + 4, None, ws.(tris := ws.tris[name := Triangle(a, b, c)])))
  }

  /** What one `(nm)` reference contributes: a named triangle first, else a named model's triangles. */
  function Contribution(ref: string, ws: Workspace): Result<Model, Error>
  {
    if ref in ws.tris then Success([ws.tris[ref]])
    else if ref in ws.models then Success(ws.models[ref])
    else Failure(RuntimeError("NULL source when creating model"))
  }

  /** The triangles of the first `count` references starting at token `start`, in order. */
  function Gather(toks: seq<string>, start: int, count: int, ws: Workspace): (r: Result<Model, Error>)
    ensures r.Success? && count > 0 ==> 0 <= start && start + count <= |toks|
    decreases if count > 0 then count else 0
  {
    if count <= 0 then Success([])
    else
      var prefix :- Gather(toks, start, count - 1, ws);
      var ref :- At(toks, start + count - 1);
      var more :- Contribution(ref, ws);
      Success(prefix + more)
  }

  /** A reference `(nm)` can resolve: a named triangle or a named model. */
  predicate Resolves(ref: string, ws: Workspace)
  {
    ref in ws.tris || ref in ws.models
  }

  /** How many triangles a resolvable reference contributes. */
  function RefSize(ref: string, ws: Workspace): nat
  {
    if ref in ws.tris then 1 else if ref in ws.models then |ws.models[ref]| else 0
  }

  /** How many triangles the references at tokens `start` to `k - 1` contribute. */
  function SizeUpTo(toks: seq<string>, start: int, k: int, ws: Workspace): nat
    requires 0 <= start <= k <= |toks|
    decreases k - start
  {
    if k == start then 0 else SizeUpTo(toks, start, k - 1, ws) + RefSize(toks[k - 1], ws)
  }

  /**
   * With every reference in range, gathering succeeds exactly when every
   * reference resolves, fails with the NULL-source message otherwise, and on
   * success yields as many triangles as the references contribute.
   */
  lemma {:induction false} GatherOutcome(toks: seq<string>, start: int, n: nat, ws: Workspace)
    requires 0 <= start && start + n <= |toks|
    ensures var r := Gather(toks, start, n, ws);
      && (r.Success? <==> forall k :: start <= k < start + n ==> Resolves(toks[k], ws))
      && (r.Failure? ==> r.error == RuntimeError("NULL source when creating model"))
      && (r.Success? ==> |r.value| == SizeUpTo(toks, start, start + n, ws))
    decreases n
  {
    if n > 0 {
      GatherOutcome(toks, start, n - 1, ws);
      var last := start + n - 1;
      if Gather(toks, start, n - 1, ws).Success? && !Resolves(toks[last], ws) {
        assert !(forall k :: start <= k < start + n ==> Resolves(toks[k], ws));
      }
    }
  }

  /** A slice of `a + b` inside `a` is a slice of `a`; the part after `a` is `b`. */
  lemma SliceOfAppend<T>(a: seq<T>, b: seq<T>, lo: int, hi: int)
    requires 0 <= lo <= hi <= |a| + |b|
    ensures hi <= |a| ==> (a + b)[lo..hi] == a[lo..hi]
    ensures lo == |a| && hi == |a| + |b| ==> (a + b)[lo..hi] == b
  {
  }

  /**
   * On success, the triangles of reference `k` sit right after those of the
   * references before it: a named triangle (looked up before the models)
   * adds itself, a named model all of its triangles.
   */
  lemma {:induction false} GatherSliceAt(toks: seq<string>, start: int, n: nat, ws: Workspace, k: int)
    requires 0 <= start <= k < start + n <= |toks| && Gather(toks, start, n, ws).Success?
    ensures Resolves(toks[k], ws)
    ensures var m := Gather(toks, start, n, ws).value;
      && SizeUpTo(toks, start, k, ws) + RefSize(toks[k], ws) <= |m|
      && m[SizeUpTo(toks, start, k, ws)..SizeUpTo(toks, start, k, ws) + RefSize(toks[k], ws)]
         == if toks[k] in ws.tris then [ws.tris[toks[k]]] else ws.models[toks[k]]
    decreases n
  {
    var last := start + n - 1;
    var p := Gather(toks, start, n - 1, ws);
    assert p.Success?;
    var prefix := p.value;
    var c := Contribution(toks[last], ws);
    assert c.Success?;
    var more := c.value;
    var m := Gather(toks, start, n, ws).value;
    assert m == prefix + more;
    assert |more| == RefSize(toks[last], ws);
    GatherOutcome(toks, start, n - 1, ws);
    assert |prefix| == SizeUpTo(toks, start, last, ws);
    var lo, hi := SizeUpTo(toks, start, k, ws), SizeUpTo(toks, start, k, ws) + RefSize(toks[k], ws);
    if k < last {
      GatherSliceAt(toks, start, n - 1, ws, k);
      SliceOfAppend(prefix, more, lo, hi);
    } else {
      assert k == last && lo == |prefix| && hi == |m|;
      SliceOfAppend(prefix, more, lo, hi);
    }
  }

  /**
   * The `(nm)` promise: the gathered model is the references joined in
   * listed order, or the NULL-source error when one of them names nothing.
   */
  lemma GatherJoinsInOrder(toks: seq<string>, start: int, n: nat, ws: Workspace)
    requires 0 <= start && start + n <= |toks|
    ensures var r := Gather(toks, start, n, ws);
      && (r.Success? <==> forall k :: start <= k < start + n ==> Resolves(toks[k], ws))
      && (r.Failure? ==> r.error == RuntimeError("NULL source when creating model"))
      && (r.Success? ==>
            && |r.value| == SizeUpTo(toks, start, start + n, ws)
            && forall k :: start <= k < start + n ==>
                 && SizeUpTo(toks, start, k, ws) + RefSize(toks[k], ws) <= |r.value|
                 && r.value[SizeUpTo(toks, start, k, ws)..SizeUpTo(toks, start, k, ws) + RefSize(toks[k], ws)]
                    == if toks[k] in ws.tris then [ws.tris[toks[k]]] else ws.models[toks[k]])
  {
    GatherOutcome(toks, start, n, ws);
    if Gather(toks, start, n, ws).Success? {
      forall k | start <= k < start + n
        ensures var m := Gather(toks, start, n, ws).value;
          && SizeUpTo(toks, start, k, ws) + RefSize(toks[k], ws) <= |m|
          && m[SizeUpTo(toks, start, k, ws)..SizeUpTo(toks, start, k, ws) + RefSize(toks[k], ws)]
             == if toks[k] in ws.tris then [ws.tris[toks[k]]] else ws.models[toks[k]]
      {
        GatherSliceAt(toks, start, n, ws, k);
      }
    }
  }

  /** Once gathering fails at a reference, gathering more references fails the same way. */
  lemma {:induction false} GatherStuck(toks: seq<string>, start: int, j: nat, n: int, ws: Workspace)
    requires j < n && Gather(toks, start, j + 1, ws).Failure?
    ensures Gather(toks, start, n, ws) == Gather(toks, start, j + 1, ws)
    decreases n
  {
    if n > j + 1 {
      GatherStuck(toks, start, j, n - 1, ws);
    }
  }

  /**
   * `(nm) name n ref_1 … ref_n`. As written the count is used as read, so a
   * negative count moves the token index backwards; corrected, it is an error.
   */
  function NamedModelStep(env: Env, toks: seq<string>, i: int, name: string, ws: Workspace, mode: Mode): (r: Result<Config, Error>)
    ensures r.Success? ==> r.value.ws == ws.(models := r.value.ws.models)
    ensures r.Success? && name in ws.models ==> r.value.ws == ws
    ensures mode == Corrected && r.Success? ==> r.value.i >= i + 2
    ensures r.Success? && name !in ws.models ==>
      && Gather(toks, i + 2, r.value.i - i - 2, ws).Success?
      && r.value.ws.models == ws.models[name := Gather(toks, i + 2, r.value.i - i - 2, ws).value]
    ensures r.Success? ==> IntAt(env, toks, i + 1).Success? && r.value.i == i + 2 + IntAt(env, toks, i + 1).value
    ensures IntAt(env, toks, i + 1).Failure? ==> r == Failure(IntAt(env, toks, i + 1).error)
    ensures mode == Corrected && IntAt(env, toks, i + 1).Success? && IntAt(env, toks, i + 1).value < 0
      ==> r == Failure(RuntimeError("negative triangle count in ModelParser"))
    ensures IntAt(env, toks, i + 1).Success? && (mode == AsWritten || IntAt(env, toks, i + 1).value >= 0)
      ==> ErrorOf(r) == ErrorOf(Gather(toks, i + 2, IntAt(env, toks, i + 1).value, ws))
  {
    var numt :- IntAt(env, toks, i + 1);
    if mode == Corrected && numt < 0 then Failure(RuntimeError("negative triangle count in ModelParser"))
    else
      var mv :- Gather(toks, i + 2, numt, ws);
      Success(Config(i + 2 + numt, None, ws.(models := InsertNew(ws.models, name, mv))))
  }

  /** `(exm) namespace model`: queues a model for export under a declared namespace. */
  function ExportStep(toks: seq<string>, i: int, ns: string, ws: Workspace): (r: Result<Config, Error>)
    ensures ns !in ws.namespaces ==> r == Failure(RuntimeError("attempting to export to NULL namespace"))
    ensures ns in ws.namespaces && 0 <= i + 1 < |toks| && toks[i + 1] !in ws.models
      ==> r == Failure(RuntimeError("attempt to export non-existent model '" + toks[i + 1] + "'"))
    ensures r.Success? ==>
      && ns in ws.namespaces && 0 <= i + 1 < |toks| && toks[i + 1] in ws.models && r.value.i == i + 2
      && r.value.ws == ws.(namespaces := ws.namespaces[ns := ws.namespaces[ns] + [toks[i + 1]]])
    ensures ns in ws.namespaces ==> (r.Success? <==> 0 <= i + 1 < |toks| && toks[i + 1] in ws.models)
    ensures ns in ws.namespaces && !(0 <= i + 1 < |toks|) ==> r == Failure(OutOfRange)
  {
    if ns !in ws.namespaces then Failure(RuntimeError("attempting to export to NULL namespace"))
    else
      var m :- At(toks, i + 1);
      if m !in ws.models then Failure(RuntimeError("attempt to export non-existent model '" + m + "'"))
      else Success(Config(i + 2, None, ws.(namespaces := ws.namespaces[ns := ws.namespaces[ns] + [m]])))
  }

  /** `(ns) name`: declares an empty namespace. */
  function NamespaceStep(i: int, ns: string, ws: Workspace): (r: Result<Config, Error>)
    ensures ns in ws.namespaces <==> r == Failure(RuntimeError("duplicate namespace in ModelParser"))
    ensures r.Success? ==> r.value == Config(i + 1, None, ws.(namespaces := ws.namespaces[ns := []]))
  {
    if ns in ws.namespaces then Failure(RuntimeError("duplicate namespace in ModelParser"))
    else Success(Config(i + 1, None, ws.(namespaces := ws.namespaces[ns := []])))
  }

  /** `(exrn) namespace model newname`: exports a model at once as `namespace.newname`. */
  function ExportRenameStep(toks: seq<string>, i: int, ns: string, ws: Workspace): (r: Result<Config, Error>)
    ensures ns !in ws.namespaces ==> r == Failure(RuntimeError("attempting to export to NULL namespace"))
    ensures ns in ws.namespaces && 0 <= i + 1 < |toks| && toks[i + 1] !in ws.models
      ==> r == Failure(RuntimeError("attempt to export non-existent model '" + toks[i + 1] + "'"))
    ensures r.Success? ==>
      && ns in ws.namespaces && 0 <= i + 1 && i + 2 < |toks| && toks[i + 1] in ws.models && r.value.i == i + 3
      && r.value.ws == ws.(exported := InsertNew(ws.exported, ns + "." + toks[i + 2], ws.models[toks[i + 1]]))
    ensures ns in ws.namespaces ==> (r.Success? <==> 0 <= i + 1 && i + 2 < |toks| && toks[i + 1] in ws.models)
    ensures ns in ws.namespaces && !(0 <= i + 1 < |toks|) ==> r == Failure(OutOfRange)
    ensures ns in ws.namespaces && 0 <= i + 1 < |toks| && toks[i + 1] in ws.models && i + 2 >= |toks|
      ==> r == Failure(OutOfRange)
  {
    if ns !in ws.namespaces then Failure(RuntimeError("attempting to export to NULL namespace"))
    else
      var m :- At(toks, i + 1);
      if m !in ws.models then Failure(RuntimeError("attempt to export non-existent model '" + m + "'"))
      else
        var newName :- At(toks, i + 2);
        Success(Config(i + 3, None, ws.(exported := InsertNew(ws.exported, ns + "." + newName, ws.models[m]))))
  }

  /** The unit axis a rotation keyword names; any other token leaves the zero vector. */
  function AxisOf(tok: string, x: string, y: string, z: string): Vertex
  {
    if tok == x then Vertex(1.0, 0.0, 0.0)
    else if tok == y then Vertex(0.0, 1.0, 0.0)
    else if tok == z then Vertex(0.0, 0.0, 1.0)
    else Origin
  }

  /** The degrees-to-radians divisor of `(tfrotd?)`. */
  const DegreesPerRadian: real := 57.295779513

  /** The per-vertex function of a transform directive, after its parameters are read. */
  function TransformOf(env: Env, toks: seq<string>, i: int, d: Directive): (r: Result<Vertex -> Vertex, Error>)
    requires d in {Translate, Rotate, RotateDeg, Scale}
    ensures r.Failure? ==> r.error == OutOfRange || r.error == BadNumber
    ensures d == Translate || d == Scale ==>
      (r.Success? <==> FloatAt(env, toks, i + 2).Success? && FloatAt(env, toks, i + 3).Success? && FloatAt(env, toks, i + 4).Success?)
    ensures d == Rotate || d == RotateDeg ==>
      (r.Success? <==> 0 <= i - 1 < |toks| && FloatAt(env, toks, i + 2).Success?)
  {
    match d
      case Translate =>
        var x :- FloatAt(env, toks, i + 2);
        var y :- FloatAt(env, toks, i + 3);
        var z :- FloatAt(env, toks, i + 4);
        Success(Geometry.Translate(Vertex(x, y, z)))
      case Scale =>
        var x :- FloatAt(env, toks, i + 2);
        var y :- FloatAt(env, toks, i + 3);
        var z :- FloatAt(env, toks, i + 4);
        Success(Geometry.Scale(Vertex(x, y, z)))
      case Rotate =>
        var tok :- At(toks, i - 1);
        var axis := AxisOf(tok, "(tfrotx)", "(tfroty)", "(tfrotz)");
        var angle :- FloatAt(env, toks, i + 2);
        Success((v: Vertex) => env.rotate(v, angle, axis))
      case RotateDeg =>
        var tok :- At(toks, i - 1);
        var axis := AxisOf(tok, "(tfrotdx)", "(tfrotdy)", "(tfrotdz)");
        var angle :- FloatAt(env, toks, i + 2);
        Success((v: Vertex) => env.rotate(v, angle / DegreesPerRadian, axis))
  }

  /** `(tfxlat)` adds the three numbers read to each coordinate. */
  lemma TranslateMeaning(env: Env, toks: seq<string>, i: int)
    requires TransformOf(env, toks, i, Translate).Success?
    ensures forall v ::
      TransformOf(env, toks, i, Translate).value(v) == Vertex(v.x + FloatAt(env, toks, i + 2).value, v.y + FloatAt(env, toks, i + 3).value, v.z + FloatAt(env, toks, i + 4).value)
  {
    var t := Vertex(FloatAt(env, toks, i + 2).value, FloatAt(env, toks, i + 3).value, FloatAt(env, toks, i + 4).value);
    assert TransformOf(env, toks, i, Translate) == Success(Geometry.Translate(t));
  }

  /** `(tfsc)` is `Geometry.Scale` by the three numbers read: each coordinate times its number. */
  lemma ScaleMeaning(env: Env, toks: seq<string>, i: int)
    requires TransformOf(env, toks, i, Scale).Success?
    ensures TransformOf(env, toks, i, Scale).value ==
      Geometry.Scale(Vertex(FloatAt(env, toks, i + 2).value, FloatAt(env, toks, i + 3).value, FloatAt(env, toks, i + 4).value))
  {
    var x :| FloatAt(env, toks, i + 2) == Success(x);
    var y :| FloatAt(env, toks, i + 3) == Success(y);
    var z :| FloatAt(env, toks, i + 4) == Success(z);
    assert TransformOf(env, toks, i, Scale) == Success(Geometry.Scale(Vertex(x, y, z)));
  }

  /** `(tfrot?)` turns by the angle read, in radians, about the axis its keyword names. */
  lemma RotateMeaning(env: Env, toks: seq<string>, i: int)
    requires TransformOf(env, toks, i, Rotate).Success?
    ensures 0 <= i - 1 < |toks|
    ensures forall v ::
      TransformOf(env, toks, i, Rotate).value(v) == env.rotate(v, FloatAt(env, toks, i + 2).value, AxisOf(toks[i - 1], "(tfrotx)", "(tfroty)", "(tfrotz)"))
  {
    var axis, angle := AxisOf(toks[i - 1], "(tfrotx)", "(tfroty)", "(tfrotz)"), FloatAt(env, toks, i + 2).value;
    assert TransformOf(env, toks, i, Rotate) == Success((v: Vertex) => env.rotate(v, angle, axis));
  }

  /** `(tfrotd?)` turns by the angle read, converted from degrees, about the axis its keyword names. */
  lemma RotateDegMeaning(env: Env, toks: seq<string>, i: int)
    requires TransformOf(env, toks, i, RotateDeg).Success?
    ensures 0 <= i - 1 < |toks|
    ensures forall v ::
      TransformOf(env, toks, i, RotateDeg).value(v) == env.rotate(v, FloatAt(env, toks, i + 2).value / DegreesPerRadian, AxisOf(toks[i - 1], "(tfrotdx)", "(tfrotdy)", "(tfrotdz)"))
  {
    var axis, angle := AxisOf(toks[i - 1], "(tfrotdx)", "(tfrotdy)", "(tfrotdz)"), FloatAt(env, toks, i + 2).value;
    assert TransformOf(env, toks, i, RotateDeg) == Success((v: Vertex) => env.rotate(v, angle / DegreesPerRadian, axis));
  }

  function TransformMessage(d: Directive): string
  {
    match d
      case Translate => "NULL model for translate transform"
      case Rotate => "NULL model for rotate(radians) transform"
      case RotateDeg => "NULL model for rotate(degrees) transform"
      case _ => "NULL model for scale transform"
  }

  /** How many tokens a transform directive spans, its source name included. */
  function TransformWidth(d: Directive): int
  {
    if d == Rotate || d == RotateDeg then 3 else 5
  }

  /**
   * `(tfxlat|tfsc) src dst x y z`, `(tfrot?|tfrotd?) src dst angle`: binds or
   * rebinds `dst` to the source model with every vertex transformed.
   */
  function TransformStep(env: Env, toks: seq<string>, i: int, src: string, d: Directive, ws: Workspace): (r: Result<Config, Error>)
    requires d in {Translate, Rotate, RotateDeg, Scale}
    ensures src !in ws.models ==> r == Failure(RuntimeError(TransformMessage(d)))
    ensures src in ws.models && TransformOf(env, toks, i, d).Failure? ==> r == Failure(TransformOf(env, toks, i, d).error)
    ensures src in ws.models && TransformOf(env, toks, i, d).Success? ==> (r.Success? <==> 0 <= i + 1 < |toks|)
    ensures r.Failure? && src in ws.models && TransformOf(env, toks, i, d).Success? ==> r.error == OutOfRange
    ensures r.Success? ==>
      && src in ws.models && 0 <= i + 1 < |toks| && r.value.i == i + TransformWidth(d)
      && toks[i + 1] in r.value.ws.models
      && r.value.ws == ws.(models := ws.models[toks[i + 1] := r.value.ws.models[toks[i + 1]]])
      && |r.value.ws.models[toks[i + 1]]| == |ws.models[src]|
    ensures r.Success? ==>
      && TransformOf(env, toks, i, d).Success?
      && r.value.ws.models[toks[i + 1]] == Transformed(ws.models[src], TransformOf(env, toks, i, d).value)
  {
    if src !in ws.models then Failure(RuntimeError(TransformMessage(d)))
    else
      var f :- TransformOf(env, toks, i, d);
      var dst :- At(toks, i + 1);
      Success(Config(i + TransformWidth(d), None, ws.(models := ws.models[dst := Transformed(ws.models[src], f)])))
  }

  /** `(gcirc) name n r`: binds a generated circle unless the name is taken. */
  function CircleStep(env: Env, toks: seq<string>, i: int, name: string, ws: Workspace): (r: Result<Config, Error>)
    ensures r.Success? ==>
      && r.value.i == i + 3 && r.value.ws == ws.(models := r.value.ws.models) && name in r.value.ws.models
      && r.value.ws.models == InsertNew(ws.models, name, r.value.ws.models[name])
    ensures r.Success? ==> IntAt(env, toks, i + 1).Success? && FloatAt(env, toks, i + 2).Success?
    ensures r.Success? && name !in ws.models ==>
      r.value.ws.models[name] == Circle(IntAt(env, toks, i + 1).value, FloatAt(env, toks, i + 2).value, env.polar)
    ensures ErrorOf(r) == Then(ErrorOf(IntAt(env, toks, i + 1)), ErrorOf(FloatAt(env, toks, i + 2)))
  {
    var n :- IntAt(env, toks, i + 1);
    var radius :- FloatAt(env, toks, i + 2);
    Success(Config(i + 3, None, ws.(models := InsertNew(ws.models, name, Circle(n, radius, env.polar)))))
  }

  /** `(gcyl) name n r h`: binds a generated cylinder unless the name is taken. */
  function CylinderStep(env: Env, toks: seq<string>, i: int, name: string, ws: Workspace): (r: Result<Config, Error>)
    ensures r.Success? ==>
      && r.value.i == i + 4 && r.value.ws == ws.(models := r.value.ws.models) && name in r.value.ws.models
      && r.value.ws.models == InsertNew(ws.models, name, r.value.ws.models[name])
    ensures r.Success? ==>
      IntAt(env, toks, i + 1).Success? && FloatAt(env, toks, i + 2).Success? && FloatAt(env, toks, i + 3).Success?
    ensures r.Success? && name !in ws.models ==>
      r.value.ws.models[name] == Cylinder(IntAt(env, toks, i + 1).value, FloatAt(env, toks, i + 2).value,
                                          FloatAt(env, toks, i + 3).value, env.polar)
    ensures ErrorOf(r) == Then(ErrorOf(IntAt(env, toks, i + 1)),
                                Then(ErrorOf(FloatAt(env, toks, i + 2)), ErrorOf(FloatAt(env, toks, i + 3))))
  {
    var n :- IntAt(env, toks, i + 1);
    var radius :- FloatAt(env, toks, i + 2);
    var h :- FloatAt(env, toks, i + 3);
    Success(Config(i + 4, None, ws.(models := InsertNew(ws.models, name, Cylinder(n, radius, h, env.polar)))))
  }

  /** A `(gcirc)` of a new name binds a fan of n triangles around the origin in the plane y = 0. */
  lemma CircleDirectiveShape(env: Env, toks: seq<string>, i: int, name: string, ws: Workspace)
    requires CircleStep(env, toks, i, name, ws).Success? && name !in ws.models
    ensures var n := IntAt(env, toks, i + 1).value;
      var m := CircleStep(env, toks, i, name, ws).value.ws.models[name];
      && |m| == (if n > 0 then n else 0)
      && forall k :: 0 <= k < |m| ==>
           m[k].c == Origin && m[k].a.y == 0.0 && m[k].b.y == 0.0 && m[k].c.y == 0.0
  {
    CircleShape(IntAt(env, toks, i + 1).value, FloatAt(env, toks, i + 2).value, env.polar);
  }

  /**
   * A `(gcyl)` of a new name binds 4n triangles: the bottom cap at y = 0,
   * the top cap at the height read, then the sides.
   */
  lemma CylinderDirectiveShape(env: Env, toks: seq<string>, i: int, name: string, ws: Workspace)
    requires CylinderStep(env, toks, i, name, ws).Success? && name !in ws.models
    ensures var n := IntAt(env, toks, i + 1).value;
      var h := FloatAt(env, toks, i + 3).value;
      var k := if n > 0 then n else 0;
      var m := CylinderStep(env, toks, i, name, ws).value.ws.models[name];
      && |m| == 4 * k
      && (forall j :: 0 <= j < k ==> m[j].a.y == 0.0 && m[j].b.y == 0.0 && m[j].c.y == 0.0)
      && (forall j :: k <= j < 2 * k ==> m[j].a.y == h && m[j].b.y == h && m[j].c.y == h)
  {
    CylinderShape(IntAt(env, toks, i + 1).value, FloatAt(env, toks, i + 2).value,
                  FloatAt(env, toks, i + 3).value, env.polar);
  }

  /** In the default state a token must be a directive keyword. */
  function DefaultStep(i: int, tok: string, ws: Workspace): (r: Result<Config, Error>)
    ensures r.Success? <==> tok in Keywords
    ensures r.Failure? ==> r.error == RuntimeError("unknown token '" + tok + "' encountered")
    ensures r.Success? ==> r.value == Config(i + 1, Keyword(tok), ws)
  {
    match Keyword(tok)
      case None => Failure(RuntimeError("unknown token '" + tok + "' encountered"))
      case Some(d) => Success(Config(i + 1, Some(d), ws))
  }

  /**
   * One iteration of the parse loop at token `c.i`, for every state except
   * `(imp)`, which needs the whole importer. Corrected, every successful step
   * moves forward; every directive returns to the default state.
   */
  function Step(env: Env, toks: seq<string>, c: Config, mode: Mode): (r: Result<Config, Error>)
    requires 0 <= c.i < |toks| && c.st != Some(Import)
    ensures mode == Corrected && r.Success? ==> r.value.i > c.i
    ensures r.Success? && c.st.Some? ==> r.value.st == None
    ensures r.Success? ==> c.ws.models.Keys <= r.value.ws.models.Keys
    ensures r.Success? ==> c.ws.namespaces.Keys <= r.value.ws.namespaces.Keys
  {
    var str := toks[c.i];
    match c.st
      case None => DefaultStep(c.i, str, c.ws)
      case Some(d) =>
        match d
          case NamedVertex => NamedVertexStep(env, toks, c.i, str, c.ws)
          case NamedTri => NamedTriStep(toks, c.i, str, c.ws)
          case NamedModel => NamedModelStep(env, toks, c.i, str, c.ws, mode)
          case Export => ExportStep(toks, c.i, str, c.ws)
          case Namespace => NamespaceStep(c.i, str, c.ws)
          case ExportRename => ExportRenameStep(toks, c.i, str, c.ws)
          case GenCircle => CircleStep(env, toks, c.i, str, c.ws)
          case GenCylinder => CylinderStep(env, toks, c.i, str, c.ws)
          case Translate => TransformStep(env, toks, c.i, str, d, c.ws)
          case Rotate => TransformStep(env, toks, c.i, str, d, c.ws)
          case RotateDeg => TransformStep(env, toks, c.i, str, d, c.ws)
          case Scale => TransformStep(env, toks, c.i, str, d, c.ws)
  }

  /**
   * As written, `(nm) (nm) -3` never finishes: the count -3 sends the token
   * index from 1 back to 0, and two iterations later the loop is back where it
   * was, with the same maps.
   */
  lemma NegativeCountLoops(env: Env, ws: Workspace)
    requires env.stoi("-3") == Some(-3)
    ensures var toks := ["(nm)", "(nm)", "-3"];
      var looped := ws.(models := InsertNew(ws.models, "(nm)", []));
      && Step(env, toks, Config(0, None, ws), AsWritten) == Success(Config(1, Some(NamedModel), ws))
      && Step(env, toks, Config(1, Some(NamedModel), ws), AsWritten) == Success(Config(0, None, looped))
      && Step(env, toks, Config(0, None, looped), AsWritten) == Success(Config(1, Some(NamedModel), looped))
      && Step(env, toks, Config(1, Some(NamedModel), looped), AsWritten) == Success(Config(0, None, looped))
  {
    var toks := ["(nm)", "(nm)", "-3"];
    assert toks[0] == "(nm)" && toks[1] == "(nm)" && toks[2] == "-3";
  }

  /** Corrected, the same input stops with an error instead of looping. */
  lemma NegativeCountRejected(env: Env, ws: Workspace)
    requires env.stoi("-3") == Some(-3)
    ensures Step(env, ["(nm)", "(nm)", "-3"], Config(1, Some(NamedModel), ws), Corrected)
      == Failure(RuntimeError("negative triangle count in ModelParser"))
  {
    var toks := ["(nm)", "(nm)", "-3"];
    assert toks[1] == "(nm)" && toks[2] == "-3";
  }

  // ---------------------------------------------------------------------------
  // Export finalisation

  /** Every model queued for export names a bound model. */
  predicate Resolvable(ws: Workspace)
  {
    forall ns, s :: ns in ws.namespaces && s in ws.namespaces[ns] ==> s in ws.models
  }

  /** A corrected step keeps every queued export resolvable. */
  lemma StepResolvable(env: Env, toks: seq<string>, c: Config)
    requires 0 <= c.i < |toks| && c.st != Some(Import) && Resolvable(c.ws)
    ensures var r := Step(env, toks, c, Corrected); r.Success? ==> Resolvable(r.value.ws)
  {
    var r := Step(env, toks, c, Corrected);
    if r.Success? {
      var ws, ws' := c.ws, r.value.ws;
      match c.st
      case None =>
        assert ws' == ws;
      case Some(d) =>
        if d == Export {
          assert ws'.models == ws.models;
        } else if d == Namespace {
          assert ws'.models == ws.models && ws'.namespaces == ws.namespaces[toks[c.i] := []];
        } else {
          assert ws'.namespaces == ws.namespaces;
        }
    }
  }

  /** The exports of one namespace, in queue order, each added only if its key is new. */
  function ExportList(ns: string, names: seq<string>, models: map<string, Model>, exported: map<string, Model>): (r: Result<map<string, Model>, Error>)
    ensures r.Failure? <==> exists s :: s in names && s !in models
    ensures r.Failure? ==> r.error == OutOfRange
  {
    if names == [] then Success(exported)
    else if names[0] !in models then Failure(OutOfRange)
    else ExportList(ns, names[1..], models, InsertNew(exported, ns + "." + names[0], models[names[0]]))
  }

  /** The exports of the namespaces `nss`, in that order. */
  function ExportAll(nss: seq<string>, namespaces: map<string, seq<string>>, models: map<string, Model>, exported: map<string, Model>): (r: Result<map<string, Model>, Error>)
    requires forall ns :: ns in nss ==> ns in namespaces
    ensures r.Failure? <==> exists ns, s :: ns in nss && s in namespaces[ns] && s !in models
    ensures r.Failure? ==> r.error == OutOfRange
  {
    if nss == [] then Success(exported)
    else
      var e :- ExportList(nss[0], namespaces[nss[0]], models, exported);
      ExportAll(nss[1..], namespaces, models, e)
  }

  /** The export table once the token stream is done: namespaces in ascending order, then each queue in order. */
  ghost function Finalise(ws: Workspace): (r: Result<map<string, Model>, Error>)
    ensures r.Failure? <==> exists ns, s :: ns in ws.namespaces && s in ws.namespaces[ns] && s !in ws.models
    ensures r.Failure? ==> r.error == OutOfRange
  {
    AscendingSpec(ws.namespaces.Keys);
    ExportAll(Ascending(ws.namespaces.Keys), ws.namespaces, ws.models, ws.exported)
  }

  /** A queued pair produced key `k`, bound to the queued model. */
  ghost predicate ExportedFrom(k: string, v: Model, namespaces: map<string, seq<string>>, models: map<string, Model>)
  {
    exists ns, s :: ns in namespaces && s in namespaces[ns] && s in models && k == ns + "." + s && v == models[s]
  }

  /** Export table entries before and after: kept, covering, and nothing invented. */
  ghost predicate Finalised(before: map<string, Model>, after: map<string, Model>, nss: set<string>,
                            namespaces: map<string, seq<string>>, models: map<string, Model>)
    requires nss <= namespaces.Keys
  {
    && (forall k :: k in before ==> k in after && after[k] == before[k])
    && (forall ns, s :: ns in nss && s in namespaces[ns] ==> ns + "." + s in after)
    && (forall k :: k in after && k !in before ==> ExportedFrom(k, after[k], namespaces, models))
  }

  lemma {:induction false} ExportListSpec(ns: string, names: seq<string>, models: map<string, Model>,
                                          exported: map<string, Model>, namespaces: map<string, seq<string>>)
    requires ns in namespaces && forall s :: s in names ==> s in namespaces[ns] && s in models
    ensures var r := ExportList(ns, names, models, exported);
      && r.Success?
      && (forall k :: k in exported ==> k in r.value && r.value[k] == exported[k])
      && (forall s :: s in names ==> ns + "." + s in r.value)
      && (forall k :: k in r.value && k !in exported ==> ExportedFrom(k, r.value[k], namespaces, models))
    decreases |names|
  {
    if names != [] {
      var s := names[0];
      var e := InsertNew(exported, ns + "." + s, models[s]);
      ExportListSpec(ns, names[1..], models, e, namespaces);
      var r := ExportList(ns, names, models, exported);
      forall k | k in r.value && k !in exported
        ensures ExportedFrom(k, r.value[k], namespaces, models)
      {
        if k !in e {
        } else {
          assert k == ns + "." + s && r.value[k] == models[s];
        }
      }
      forall t | t in names
        ensures ns + "." + t in r.value
      {
        if t != s {
          assert t in names[1..];
        }
      }
    }
  }

  lemma {:induction false} ExportAllSpec(nss: seq<string>, namespaces: map<string, seq<string>>,
                                         models: map<string, Model>, exported: map<string, Model>)
    requires forall ns :: ns in nss ==> ns in namespaces
    requires forall ns, s :: ns in nss && s in namespaces[ns] ==> s in models
    ensures var r := ExportAll(nss, namespaces, models, exported);
      && r.Success?
      && Finalised(exported, r.value, (set ns | ns in nss), namespaces, models)
    decreases |nss|
  {
    if nss != [] {
      var ns := nss[0];
      ExportListSpec(ns, namespaces[ns], models, exported, namespaces);
      var e := ExportList(ns, namespaces[ns], models, exported).value;
      ExportAllSpec(nss[1..], namespaces, models, e);
      var r := ExportAll(nss, namespaces, models, exported).value;
      assert r == ExportAll(nss[1..], namespaces, models, e).value;
      forall n, s | n in nss && s in namespaces[n]
        ensures n + "." + s in r
      {
        if n != ns {
          assert n in nss[1..];
        }
      }
    }
  }

  /**
   * With every queued export resolvable, finalisation cannot fail: it keeps the
   * entries `(exrn)` added, adds `namespace.name` for every queued pair, and
   * every entry it adds is a queued model under its namespace-qualified name.
   */
  lemma FinaliseSpec(ws: Workspace)
    requires Resolvable(ws)
    ensures Finalise(ws).Success?
    ensures Finalised(ws.exported, Finalise(ws).value, ws.namespaces.Keys, ws.namespaces, ws.models)
  {
    AscendingSpec(ws.namespaces.Keys);
    var nss := Ascending(ws.namespaces.Keys);
    ExportAllSpec(nss, ws.namespaces, ws.models, ws.exported);
    assert (set ns | ns in nss) == ws.namespaces.Keys;
  }

  // ---------------------------------------------------------------------------
  // Copying an imported workspace's exports

  /** The keys of `keys` copied from `src` in order, stopping at the first one already bound. */
  function CopyKeys(keys: seq<string>, src: map<string, Model>, models: map<string, Model>): map<string, Model>
    requires forall k :: k in keys ==> k in src
  {
    if keys == [] then models
    else if keys[0] in models then models
    else CopyKeys(keys[1..], src, models[keys[0] := src[keys[0]]])
  }

  /** The number of leading keys not already bound in `models`. */
  function Unbound(keys: seq<string>, models: map<string, Model>): (p: nat)
    ensures p <= |keys|
    ensures forall j :: 0 <= j < p ==> keys[j] !in models
    ensures p < |keys| ==> keys[p] in models
  {
    if keys == [] || keys[0] in models then 0 else 1 + Unbound(keys[1..], models)
  }

  /** `m` updated with `src` at every key of `keys`. */
  function Overlay(m: map<string, Model>, keys: set<string>, src: map<string, Model>): (r: map<string, Model>)
    requires keys <= src.Keys
    ensures r.Keys == m.Keys + keys
  {
    map k | k in m.Keys + keys :: if k in keys then src[k] else m[k]
  }

  /** Copying stops at the first bound key: exactly the keys before it are copied, nothing is overwritten. */
  lemma {:induction false} CopyKeysPrefix(keys: seq<string>, src: map<string, Model>, models: map<string, Model>)
    requires forall k :: k in keys ==> k in src
    requires forall a, b :: 0 <= a < b < |keys| ==> keys[a] != keys[b]
    ensures var r := CopyKeys(keys, src, models);
      var p := Unbound(keys, models);
      && (forall k :: k in r <==> k in models || k in keys[..p])
      && (forall k :: k in r ==> r[k] == if k in keys[..p] then src[k] else models[k])
    decreases |keys|
  {
    var p := Unbound(keys, models);
    if keys == [] || keys[0] in models {
      assert keys[..p] == [];
    } else {
      var k0 := keys[0];
      var rest := keys[1..];
      forall a, b | 0 <= a < b < |rest|
        ensures rest[a] != rest[b] && rest[a] != k0
      {
        assert rest[a] == keys[a + 1] && rest[b] == keys[b + 1];
      }
      assert k0 !in rest by {
        forall j | 0 <= j < |rest|
          ensures rest[j] != k0
        {
          assert rest[j] == keys[j + 1];
        }
      }
      UnboundIgnores(rest, models, k0, src[k0]);
      CopyKeysPrefix(rest, src, models[k0 := src[k0]]);
      assert keys[..p] == [k0] + rest[..p - 1];
    }
  }

  /** With no key bound, every key is copied. */
  lemma {:induction false} UnboundAll(keys: seq<string>, models: map<string, Model>)
    requires forall k :: k in keys ==> k !in models
    ensures Unbound(keys, models) == |keys|
    decreases |keys|
  {
    if keys != [] {
      UnboundAll(keys[1..], models);
    }
  }

  /** Binding a key the sequence does not contain does not move its first bound key. */
  lemma {:induction false} UnboundIgnores(keys: seq<string>, models: map<string, Model>, k: string, v: Model)
    requires k !in keys
    ensures Unbound(keys, models[k := v]) == Unbound(keys, models)
    decreases |keys|
  {
    if keys != [] && keys[0] !in models {
      UnboundIgnores(keys[1..], models, k, v);
    }
  }

  /** The ascending walk visits exactly the keys of `s`, each once. */
  lemma AscendingDistinct(s: set<string>)
    ensures forall k :: k in Ascending(s) <==> k in s
    ensures forall a, b :: 0 <= a < b < |Ascending(s)| ==> Ascending(s)[a] != Ascending(s)[b]
  {
    AscendingSpec(s);
    forall a, b | 0 <= a < b < |Ascending(s)|
      ensures Ascending(s)[a] != Ascending(s)[b]
    {
      if Ascending(s)[a] == Ascending(s)[b] {
        BelowIrreflexive(Ascending(s)[a]);
      }
    }
  }

  /**
   * The exports an `(imp)` copies into the importing workspace: the imported
   * export table in ascending key order, stopping at the first key that is
   * already a named model (the `runtime_error` this raises is swallowed, and
   * the copies made before it stay).
   */
  ghost function CopyExports(src: map<string, Model>, models: map<string, Model>): map<string, Model>
  {
    AscendingDistinct(src.Keys);
    CopyKeys(Ascending(src.Keys), src, models)
  }

  /** Copying exports never loses or changes a model the importing workspace already has. */
  lemma CopyExportsKeeps(src: map<string, Model>, models: map<string, Model>)
    ensures forall k :: k in models ==> k in CopyExports(src, models) && CopyExports(src, models)[k] == models[k]
  {
    AscendingDistinct(src.Keys);
    CopyKeysPrefix(Ascending(src.Keys), src, models);
  }

  /** Without a name clash, every export is copied. */
  lemma CopyExportsAll(src: map<string, Model>, models: map<string, Model>)
    requires src.Keys !! models.Keys
    ensures CopyExports(src, models) == models + src
  {
    AscendingDistinct(src.Keys);
    var keys := Ascending(src.Keys);
    var r := CopyKeys(keys, src, models);
    CopyKeysPrefix(keys, src, models);
    var p := Unbound(keys, models);
    UnboundAll(keys, models);
    assert keys[..p] == keys;
    OverlayOfPrefix(r, models, src, keys, src.Keys);
    OverlayDisjoint(models, src);
  }

  /** Overlaying all of a map whose keys are new is map union. */
  lemma OverlayDisjoint(models: map<string, Model>, src: map<string, Model>)
    requires src.Keys !! models.Keys
    ensures Overlay(models, src.Keys, src) == models + src
  {
    var o := Overlay(models, src.Keys, src);
    assert forall k :: k in o ==> o[k] == (models + src)[k];
  }

  /** A map that took `src`'s values at the keys of `pre` and kept `models` elsewhere is their overlay. */
  lemma OverlayOfPrefix(r: map<string, Model>, models: map<string, Model>, src: map<string, Model>,
                        pre: seq<string>, t: set<string>)
    requires t <= src.Keys
    requires forall k :: k in pre <==> k in t
    requires forall k :: k in r <==> k in models || k in pre
    requires forall k :: k in r ==> r[k] == if k in pre then src[k] else models[k]
    ensures r == Overlay(models, t, src)
  {
    var o := Overlay(models, t, src);
    assert forall k :: k in r <==> k in o;
    assert forall k :: k in r ==> r[k] == o[k];
  }

  /** The keys of `s` that sort below `c`. */
  function KeysBelow(s: set<string>, c: string): (r: set<string>)
    ensures r <= s
  {
    set k | k in s && Below(k, c)
  }

  /** The ascending walk over `src` stops at the smallest clashing key. */
  lemma CopyStopsAtLeast(src: map<string, Model>, models: map<string, Model>, c: string)
    requires IsLeast(c, src.Keys * models.Keys)
    ensures var keys := Ascending(src.Keys);
      Unbound(keys, models) < |keys| && keys[Unbound(keys, models)] == c
  {
    AscendingSpec(src.Keys);
    var keys := Ascending(src.Keys);
    var p := Unbound(keys, models);
    var j0 :| 0 <= j0 < |keys| && keys[j0] == c;
    assert p <= j0;
    if p < j0 {
      assert keys[p] in src.Keys * models.Keys;
      assert Below(keys[p], c);
      BelowAsymmetric(keys[p], c);
    }
  }

  /** Before the key `c` in the ascending walk come exactly the keys that sort below `c`. */
  lemma AscendingBefore(s: set<string>, p: nat, c: string)
    requires p < |Ascending(s)| && Ascending(s)[p] == c
    ensures forall x :: x in Ascending(s)[..p] <==> x in s && Below(x, c)
  {
    AscendingSpec(s);
    var keys := Ascending(s);
    forall x
      ensures x in keys[..p] <==> x in s && Below(x, c)
    {
      if x in keys[..p] {
        var j :| 0 <= j < p && keys[j] == x;
      }
      if x in s && Below(x, c) {
        var j :| 0 <= j < |keys| && keys[j] == x;
        if j == p {
          BelowIrreflexive(c);
        } else if j > p {
          BelowAsymmetric(c, x);
        }
      }
    }
  }

  /**
   * With a clash, exactly the exports whose names sort below the smallest
   * clashing name are copied, and the importing workspace's models are kept.
   */
  lemma CopyExportsUpTo(src: map<string, Model>, models: map<string, Model>, c: string)
    requires IsLeast(c, src.Keys * models.Keys)
    ensures CopyExports(src, models) == Overlay(models, KeysBelow(src.Keys, c), src)
  {
    AscendingDistinct(src.Keys);
    var keys := Ascending(src.Keys);
    CopyKeysPrefix(keys, src, models);
    var p := Unbound(keys, models);
    CopyStopsAtLeast(src, models, c);
    AscendingBefore(src.Keys, p, c);
    OverlayOfPrefix(CopyKeys(keys, src, models), models, src, keys[..p], KeysBelow(src.Keys, c));
  }

  // ---------------------------------------------------------------------------
  // Imports and whole files

  /** The outcome of a parse: the workspace or the error, and the shared import guard as the run left it. */
  datatype Outcome = Outcome(result: Result<Workspace, Error>, guard: set<string>)

  /** The token list of a file after comment removal; a file that cannot be read yields no tokens. */
  function Tokens(env: Env, name: string): seq<string>
  {
    if name in env.files then Comments.Strip(env.files[name], false) else []
  }

  /** How `(imp)` takes the imported workspace, or the error that stopped it, into the importing one. */
  ghost function Absorb(child: Result<Workspace, Error>, ws: Workspace): (r: Result<Workspace, Error>)
    ensures child.Failure? && child.error.RuntimeError? ==> r == Success(ws)
    ensures r.Failure? <==> child.Failure? && !child.error.RuntimeError?
    ensures r.Failure? ==> r.error == Sliced
    ensures r.Success? ==>
      && r.value == ws.(models := r.value.models)
      && forall k :: k in ws.models ==> k in r.value.models && r.value.models[k] == ws.models[k]
  {
    match child
      case Failure(e) => if e.RuntimeError? then Success(ws) else Failure(Sliced)
      case Success(cw) =>
        CopyExportsKeeps(cw.exported, ws.models);
        Success(ws.(models := CopyExports(cw.exported, ws.models)))
  }

  /** The parse loop from configuration `c` to the end of the tokens or the first uncaught error. */
  ghost function RunFrom(env: Env, toks: seq<string>, c: Config, guard: set<string>): (o: Outcome)
    requires 0 <= c.i
    ensures guard <= o.guard
    decreases env.files.Keys - guard, 1, |toks| - c.i
  {
    if c.i >= |toks| then Outcome(Success(c.ws), guard)
    else if c.st == Some(Import) then
      var child := ImportFile(env, toks[c.i], guard);
      match Absorb(child.result, c.ws)
        case Failure(e) => Outcome(Failure(e), child.guard)
        case Success(ws) => RunFrom(env, toks, Config(c.i + 1, None, ws), child.guard)
    else
      match Step(env, toks, c, Corrected)
        case Failure(e) => Outcome(Failure(e), guard)
        case Success(next) => RunFrom(env, toks, next, guard)
  }

  /**
   * At an `(imp)` token: a child that fails with a `runtime_error` is
   * swallowed and the run goes on with the workspace unchanged; any other
   * failure ends the run with the sliced exception; a child that succeeds
   * has its exports copied in, as `CopyExports` and `CopyExportsUpTo` say.
   */
  lemma ImportAbsorbed(env: Env, toks: seq<string>, c: Config, guard: set<string>)
    requires 0 <= c.i < |toks| && c.st == Some(Import)
    ensures var child, o := ImportFile(env, toks[c.i], guard), RunFrom(env, toks, c, guard);
      && (child.result.Failure? && child.result.error.RuntimeError? ==>
            o == RunFrom(env, toks, Config(c.i + 1, None, c.ws), child.guard))
      && (child.result.Failure? && !child.result.error.RuntimeError? ==>
            o == Outcome(Failure(Sliced), child.guard))
      && (child.result.Success? ==>
            o == RunFrom(env, toks, Config(c.i + 1, None,
                   c.ws.(models := CopyExports(child.result.value.exported, c.ws.models))), child.guard))
  {
  }

  /** What an imported workspace keeps: only its export table. */
  function ImportedOnly(exported: map<string, Model>): Workspace
  {
    EmptyWorkspace.(exported := exported)
  }

  /**
   * The importing constructor: refuses a name already in the guard, records
   * the name, parses the file, finalises its exports and keeps only those.
   */
  ghost function ImportFile(env: Env, name: string, guard: set<string>): (o: Outcome)
    ensures guard + {name} <= o.guard
    decreases env.files.Keys - guard, 0, 0
  {
    if name in guard then Outcome(Failure(RuntimeError("file already exists in workspace")), guard)
    else if name !in env.files then Outcome(Success(EmptyWorkspace), guard + {name})
    else
      var o := RunFrom(env, Tokens(env, name), Config(0, None, EmptyWorkspace), guard + {name});
      match o.result
        case Failure(e) => o
        case Success(ws) =>
          match Finalise(ws)
            case Failure(e) => Outcome(Failure(e), o.guard)
            case Success(exported) => Outcome(Success(ImportedOnly(exported)), o.guard)
  }

  /**
   * The user-facing constructor: the guard starts with the file's own name,
   * and after finalisation the named models and the export table are kept.
   */
  ghost function OpenFile(env: Env, filename: string): (r: Result<Workspace, Error>)
    ensures var o := RunFrom(env, Tokens(env, filename), Config(0, None, EmptyWorkspace), {filename});
      o.result.Failure? ==> r == Failure(o.result.error)
    ensures var o := RunFrom(env, Tokens(env, filename), Config(0, None, EmptyWorkspace), {filename});
      r.Success? ==>
        && o.result.Success? && Finalise(o.result.value).Success?
        && r.value.models == o.result.value.models && r.value.exported == Finalise(o.result.value).value
        && r.value.vertices == map[] && r.value.tris == map[] && r.value.namespaces == map[]
  {
    var o := RunFrom(env, Tokens(env, filename), Config(0, None, EmptyWorkspace), {filename});
    var ws :- o.result;
    var exported :- Finalise(ws);
    Success(EmptyWorkspace.(models := ws.models, exported := exported))
  }

  /** A parse that starts resolvable and succeeds ends resolvable. */
  lemma {:induction false} RunFromResolvable(env: Env, toks: seq<string>, c: Config, guard: set<string>)
    requires 0 <= c.i && Resolvable(c.ws)
    ensures var o := RunFrom(env, toks, c, guard); o.result.Success? ==> Resolvable(o.result.value)
    decreases env.files.Keys - guard, 1, |toks| - c.i
  {
    if c.i < |toks| {
      if c.st == Some(Import) {
        var child := ImportFile(env, toks[c.i], guard);
        var a := Absorb(child.result, c.ws);
        if a.Success? {
          if child.result.Success? {
            CopyExportsKeeps(child.result.value.exported, c.ws.models);
          }
          RunFromResolvable(env, toks, Config(c.i + 1, None, a.value), child.guard);
        }
      } else {
        StepResolvable(env, toks, c);
        var r := Step(env, toks, c, Corrected);
        if r.Success? {
          RunFromResolvable(env, toks, r.value, guard);
        }
      }
    }
  }

  /** Export finalisation never raises: a file either fails while parsing or finalises. */
  lemma OpenFinalises(env: Env, filename: string)
    ensures var o := RunFrom(env, Tokens(env, filename), Config(0, None, EmptyWorkspace), {filename});
      o.result.Success? ==> OpenFile(env, filename).Success?
  {
    RunFromResolvable(env, Tokens(env, filename), Config(0, None, EmptyWorkspace), {filename});
    var o := RunFrom(env, Tokens(env, filename), Config(0, None, EmptyWorkspace), {filename});
    if o.result.Success? {
      FinaliseSpec(o.result.value);
    }
  }

  /** A file that imports itself, directly or through others, is refused by the guard. */
  lemma ReimportRefused(env: Env, name: string, guard: set<string>)
    requires name in guard
    ensures ImportFile(env, name, guard) == Outcome(Failure(RuntimeError("file already exists in workspace")), guard)
  {
  }

  // ---------------------------------------------------------------------------
  // Model data

  /** A model's vertex stream and vertex count, as both getters return them. */
  function ModelData(m: Model): (r: (seq<real>, int))
    ensures |r.0| == 9 * |m| && r.1 == 3 * |m|
    ensures Regroup(r.0) == m
  {
    RegroupFlatten(m);
    (Flatten(m), |Flatten(m)| / 3)
  }

  /** `getExportedModelData`. */
  function ExportedModelData(ws: Workspace, name: string): (r: Result<(seq<real>, int), Error>)
    ensures name !in ws.exported <==> r == Failure(RuntimeError("unable to find exported model in SimpleModel"))
    ensures r.Success? ==> r.value == ModelData(ws.exported[name])
  {
    if name !in ws.exported then Failure(RuntimeError("unable to find exported model in SimpleModel"))
    else Success(ModelData(ws.exported[name]))
  }

  /** `getModelData`. */
  function NamedModelData(ws: Workspace, name: string): (r: Result<(seq<real>, int), Error>)
    ensures name !in ws.models <==> r == Failure(RuntimeError("unable to find named model in SimpleModel"))
    ensures r.Success? ==> r.value == ModelData(ws.models[name])
  {
    if name !in ws.models then Failure(RuntimeError("unable to find named model in SimpleModel"))
    else Success(ModelData(ws.models[name]))
  }
}
