/**
 * `ModelParser` as the object the source builds: five maps updated in place
 * by the parse loop, a shared guard of imported file names, the two
 * constructors and the two model-data getters. Every method is proved
 * against the specification in `SimpleModel`.
 */
module ModelParsing {
  import opened Wrappers
  import opened Geometry
  import opened Ordering
  import opened SimpleModel
  import Comments

  /** The `imported_files` map every parser of one load shares; only its keys matter here. */
  class ImportGuard {
    var names: set<string>

    constructor (first: set<string>)
      ensures names == first
    {
      names := first;
    }
  }

  /** A directive method's result agrees with the directive's specification. */
  predicate Agrees(r: Result<int, Error>, s: Result<Config, Error>)
  {
    && (s.Success? ==> r == Success(s.value.i))
    && (s.Failure? ==> r == Failure(s.error))
  }

  class ModelParser {
    var namedVertices: map<string, Vertex>
    var namedTris: map<string, Triangle>
    var namedModels: map<string, Model>
    var namespaces: map<string, seq<string>>
    var exportedModels: map<string, Model>

    /** The parser's five maps as a value. */
    function Snapshot(): Workspace
      reads this
    {
      Workspace(namedVertices, namedTris, namedModels, namespaces, exportedModels)
    }

    constructor Empty()
      ensures Snapshot() == EmptyWorkspace
    {
      namedVertices := map[];
      namedTris := map[];
      namedModels := map[];
      namespaces := map[];
      exportedModels := map[];
    }

    // -------------------------------------------------------------------------
    // The directives, one method each

    method NamedVertex(env: Env, toks: seq<string>, i: int, name: string) returns (r: Result<int, Error>)
      modifies this
      ensures var s := NamedVertexStep(env, toks, i, name, old(Snapshot()));
        Agrees(r, s) && (s.Success? ==> Snapshot() == s.value.ws)
    {
      if name in namedVertices {
        return Failure(RuntimeError("repeated named vertex in ModelParser"));
      }
      var x :- FloatAt(env, toks, i + 1);
      var y :- FloatAt(env, toks, i + 2);
      var z :- FloatAt(env, toks, i + 3);
      namedVertices := namedVertices[name := Vertex(x, y, z)];
      return Success(i + 4);
    }

    method NamedTri(toks: seq<string>, i: int, name: string) returns (r: Result<int, Error>)
      modifies this
      ensures var s := NamedTriStep(toks, i, name, old(Snapshot()));
        Agrees(r, s) && (s.Success? ==> Snapshot() == s.value.ws)
    {
      if name in namedTris {
        return Failure(RuntimeError("repeated named tri in ModelParser"));
      }
      var a :- VertexAt(toks, i + 1, Snapshot());
      var b :- VertexAt(toks, i + 2, Snapshot());
      var c :- VertexAt(toks, i + 3, Snapshot());
      namedTris := namedTris[name := Triangle(a, b, c)];
      return Success(i + 4);
    }

    /** The reference loop of `(nm)`: each reference appends a named triangle, or else a named model's triangles. */
    method GatherRefs(toks: seq<string>, start: int, count: int) returns (r: Result<Model, Error>)
      ensures r == Gather(toks, start, count, Snapshot())
    {
      var mv: Model := [];
      var j := 0;
      while j < count
        invariant 0 <= j <= (if count > 0 then count else 0)
        invariant Gather(toks, start, j, Snapshot()) == Success(mv)
      {
        if !(0 <= start + j < |toks|) {
          GatherStuck(toks, start, j, count, Snapshot());
          return Failure(OutOfRange);
        }
        var ref := toks[start + j];
        if ref in namedTris {
          mv := mv + [namedTris[ref]];
        } else if ref in namedModels {
          var m := namedModels[ref];
          ghost var prefix := mv;
          for t := 0 to |m|
            invariant mv == prefix + m[..t]
          {
            mv := mv + [m[t]];
          }
          assert m[..|m|] == m;
        } else {
          GatherStuck(toks, start, j, count, Snapshot());
          return Failure(RuntimeError("NULL source when creating model"));
        }
        j := j + 1;
      }
      return Success(mv);
    }

    method NamedModel(env: Env, toks: seq<string>, i: int, name: string) returns (r: Result<int, Error>)
      modifies this
      ensures var s := NamedModelStep(env, toks, i, name, old(Snapshot()), Corrected);
        Agrees(r, s) && (s.Success? ==> Snapshot() == s.value.ws)
    {
      var numt :- IntAt(env, toks, i + 1);
      if numt < 0 {
        return Failure(RuntimeError("negative triangle count in ModelParser"));
      }
      var mv :- GatherRefs(toks, i + 2, numt);
      if name !in namedModels {
        namedModels := namedModels[name := mv];
      }
      return Success(i + 2 + numt);
    }

    method Export(toks: seq<string>, i: int, ns: string) returns (r: Result<int, Error>)
      modifies this
      ensures var s := ExportStep(toks, i, ns, old(Snapshot()));
        Agrees(r, s) && (s.Success? ==> Snapshot() == s.value.ws)
    {
      if ns !in namespaces {
        return Failure(RuntimeError("attempting to export to NULL namespace"));
      }
      var m :- At(toks, i + 1);
      if m !in namedModels {
        return Failure(RuntimeError("attempt to export non-existent model '" + m + "'"));
      }
      namespaces := namespaces[ns := namespaces[ns] + [m]];
      return Success(i + 2);
    }

    method Namespace(i: int, ns: string) returns (r: Result<int, Error>)
      modifies this
      ensures var s := NamespaceStep(i, ns, old(Snapshot()));
        Agrees(r, s) && (s.Success? ==> Snapshot() == s.value.ws)
    {
      if ns in namespaces {
        return Failure(RuntimeError("duplicate namespace in ModelParser"));
      }
      namespaces := namespaces[ns := []];
      return Success(i + 1);
    }

    method ExportRename(toks: seq<string>, i: int, ns: string) returns (r: Result<int, Error>)
      modifies this
      ensures var s := ExportRenameStep(toks, i, ns, old(Snapshot()));
        Agrees(r, s) && (s.Success? ==> Snapshot() == s.value.ws)
    {
      if ns !in namespaces {
        return Failure(RuntimeError("attempting to export to NULL namespace"));
      }
      var m :- At(toks, i + 1);
      if m !in namedModels {
        return Failure(RuntimeError("attempt to export non-existent model '" + m + "'"));
      }
      var newName :- At(toks, i + 2);
      var key := ns + "." + newName;
      if key !in exportedModels {
        exportedModels := exportedModels[key := namedModels[m]];
      }
      return Success(i + 3);
    }

    method Transform(env: Env, toks: seq<string>, i: int, src: string, d: Directive) returns (r: Result<int, Error>)
      requires d in {Translate, Rotate, RotateDeg, Scale}
      modifies this
      ensures var s := TransformStep(env, toks, i, src, d, old(Snapshot()));
        Agrees(r, s) && (s.Success? ==> Snapshot() == s.value.ws)
    {
      if src !in namedModels {
        return Failure(RuntimeError(TransformMessage(d)));
      }
      var f :- TransformOf(env, toks, i, d);
      var dst :- At(toks, i + 1);
      var m := TransformModel(namedModels[src], f);
      namedModels := namedModels[dst := m];
      return Success(i + TransformWidth(d));
    }

    method GenCircle(env: Env, toks: seq<string>, i: int, name: string) returns (r: Result<int, Error>)
      modifies this
      ensures var s := CircleStep(env, toks, i, name, old(Snapshot()));
        Agrees(r, s) && (s.Success? ==> Snapshot() == s.value.ws)
    {
      var n :- IntAt(env, toks, i + 1);
      var radius :- FloatAt(env, toks, i + 2);
      var m := GenerateCircle(n, radius, env.polar);
      if name !in namedModels {
        namedModels := namedModels[name := m];
      }
      return Success(i + 3);
    }

    method GenCylinder(env: Env, toks: seq<string>, i: int, name: string) returns (r: Result<int, Error>)
      modifies this
      ensures var s := CylinderStep(env, toks, i, name, old(Snapshot()));
        Agrees(r, s) && (s.Success? ==> Snapshot() == s.value.ws)
    {
      var n :- IntAt(env, toks, i + 1);
      var radius :- FloatAt(env, toks, i + 2);
      var h :- FloatAt(env, toks, i + 3);
      var m := GenerateCylinder(n, radius, h, env.polar);
      if name !in namedModels {
        namedModels := namedModels[name := m];
      }
      return Success(i + 4);
    }

    /** One iteration of the parse loop in any state but `(imp)`: the switch on the current state. */
    method StepAt(env: Env, toks: seq<string>, i: int, st: Option<Directive>) returns (r: Result<(int, Option<Directive>), Error>)
      requires 0 <= i < |toks| && st != Some(Import)
      modifies this
      ensures var s := Step(env, toks, Config(i, st, old(Snapshot())), Corrected);
        && (s.Success? ==> r == Success((s.value.i, s.value.st)) && Snapshot() == s.value.ws)
        && (s.Failure? ==> r == Failure(s.error))
    {
      var str := toks[i];
      if st.None? {
        var d := Keyword(str);
        if d.None? {
          return Failure(RuntimeError("unknown token '" + str + "' encountered"));
        }
        return Success((i + 1, d));
      }
      var next: Result<int, Error>;
      match st.value {
        case NamedVertex => next := NamedVertex(env, toks, i, str);
        case NamedTri => next := NamedTri(toks, i, str);
        case NamedModel => next := NamedModel(env, toks, i, str);
        case Export => next := Export(toks, i, str);
        case Namespace => next := Namespace(i, str);
        case ExportRename => next := ExportRename(toks, i, str);
        case Translate => next := Transform(env, toks, i, str, Translate);
        case Rotate => next := Transform(env, toks, i, str, Rotate);
        case RotateDeg => next := Transform(env, toks, i, str, RotateDeg);
        case Scale => next := Transform(env, toks, i, str, Scale);
        case GenCircle => next := GenCircle(env, toks, i, str);
        case GenCylinder => next := GenCylinder(env, toks, i, str);
      }
      match next {
        case Success(j) => r := Success((j, None));
        case Failure(e) => r := Failure(e);
      }
    }

    // -------------------------------------------------------------------------
    // Imports, finalisation and the constructors

    /** The `(imp)` copy loop: exports in ascending key order until one is already a named model. */
    method AddImportedExports(src: map<string, Model>)
      modifies this
      ensures Snapshot() == old(Snapshot()).(models := CopyExports(src, old(namedModels)))
    {
      var remaining := src.Keys;
      AscendingDistinct(remaining);
      while remaining != {}
        invariant remaining <= src.Keys
        invariant forall k :: k in Ascending(remaining) ==> k in src
        invariant Snapshot() == old(Snapshot()).(models := namedModels)
        invariant CopyKeys(Ascending(remaining), src, namedModels) == CopyExports(src, old(namedModels))
        decreases remaining
      {
        LeastExists(remaining);
        var k :| IsLeast(k, remaining);
        AscendingFirst(remaining, k);
        if k in namedModels {
          return;
        }
        namedModels := namedModels[k := src[k]];
        remaining := remaining - {k};
        AscendingDistinct(remaining);
      }
    }

    /** Export finalisation: each namespace in ascending order, each queued model in order, existing keys kept. */
    method FinaliseExports() returns (err: Option<Error>)
      modifies this
      ensures var f := Finalise(old(Snapshot()));
        && (f.Success? ==> err == None && Snapshot() == old(Snapshot()).(exported := f.value))
        && (f.Failure? ==> err == Some(f.error))
    {
      var remaining := namespaces.Keys;
      AscendingDistinct(remaining);
      while remaining != {}
        invariant remaining <= namespaces.Keys
        invariant forall ns :: ns in Ascending(remaining) ==> ns in namespaces
        invariant Snapshot() == old(Snapshot()).(exported := exportedModels)
        invariant ExportAll(Ascending(remaining), namespaces, namedModels, exportedModels) == Finalise(old(Snapshot()))
        decreases remaining
      {
        LeastExists(remaining);
        var ns :| IsLeast(ns, remaining);
        AscendingFirst(remaining, ns);
        var names := namespaces[ns];
        ghost var before := exportedModels;
        var j := 0;
        while j < |names|
          invariant 0 <= j <= |names|
          invariant Snapshot() == old(Snapshot()).(exported := exportedModels)
          invariant ExportList(ns, names[j..], namedModels, exportedModels) == ExportList(ns, names, namedModels, before)
        {
          var s := names[j];
          assert names[j..][1..] == names[j + 1..];
          if s !in namedModels {
            return Some(OutOfRange);
          }
          var key := ns + "." + s;
          if key !in exportedModels {
            exportedModels := exportedModels[key := namedModels[s]];
          }
          j := j + 1;
        }
        assert names[j..] == [];
        remaining := remaining - {ns};
        AscendingDistinct(remaining);
      }
      return None;
    }

    /**
     * The `(imp)` case of the parse loop: the imported file's exports are
     * copied in, a `runtime_error` from it is swallowed, and any other
     * failure ends the parse with the sliced exception. On `None` the run
     * goes on at the next token in the default state.
     */
    method ImportAt(env: Env, toks: seq<string>, i: int, guard: ImportGuard) returns (err: Option<Error>)
      requires 0 <= i < |toks|
      modifies this, guard
      ensures old(guard.names) <= guard.names
      ensures var o := RunFrom(env, toks, Config(i, Some(Import), old(Snapshot())), old(guard.names));
        && (err.None? ==> o == RunFrom(env, toks, Config(i + 1, None, Snapshot()), guard.names))
        && (err.Some? ==> err == Some(Sliced) && o == Outcome(Failure(Sliced), guard.names))
      decreases env.files.Keys - guard.names, 1, 0
    {
      ghost var g := guard.names;
      ghost var ws := Snapshot();
      var child := CreateImported(env, toks[i], guard);
      match child {
        case Failure(e) =>
          if !e.RuntimeError? {
            return Some(Sliced);
          }
        case Success(mp) =>
          AddImportedExports(mp.exportedModels);
      }
      assert Absorb(ImportFile(env, toks[i], g).result, ws) == Success(Snapshot());
      return None;
    }

    /** The tokenizer and the parse loop over one file, with imports. */
    method Parse(env: Env, filename: string, guard: ImportGuard) returns (err: Option<Error>)
      modifies this, guard
      ensures old(guard.names) <= guard.names
      ensures var o := RunFrom(env, Tokens(env, filename), Config(0, None, old(Snapshot())), old(guard.names));
        && guard.names == o.guard
        && (o.result.Success? ==> err == None && Snapshot() == o.result.value)
        && (o.result.Failure? ==> err == Some(o.result.error))
      decreases env.files.Keys - guard.names, 1
    {
      var raw := if filename in env.files then env.files[filename] else [];
      var toks := Comments.StripComments(raw);
      assert toks == Tokens(env, filename);
      ghost var goal := RunFrom(env, toks, Config(0, None, Snapshot()), guard.names);
      var i := 0;
      var st: Option<Directive> := None;
      while i < |toks|
        invariant 0 <= i
        invariant old(guard.names) <= guard.names
        invariant RunFrom(env, toks, Config(i, st, Snapshot()), guard.names) == goal
        decreases env.files.Keys - guard.names, |toks| - i
      {
        if st == Some(Import) {
          var e := ImportAt(env, toks, i, guard);
          if e.Some? {
            return e;
          }
          i := i + 1;
          st := None;
        } else {
          ghost var ws := Snapshot();
          var r := StepAt(env, toks, i, st);
          match r {
            case Failure(e) =>
              return Some(e);
            case Success(next) =>
              assert Step(env, toks, Config(i, st, ws), Corrected) == Success(Config(next.0, next.1, Snapshot()));
              i := next.0;
              st := next.1;
          }
        }
      }
      return None;
    }

    /**
     * The importing constructor: refused when the name is already in the
     * guard; otherwise the name is recorded, the file parsed and finalised,
     * and everything but the export table cleared. A file that cannot be
     * opened reads as no tokens, so its parse is skipped.
     */
    static method CreateImported(env: Env, filename: string, guard: ImportGuard) returns (r: Result<ModelParser, Error>)
      modifies guard
      ensures var o := ImportFile(env, filename, old(guard.names));
        && guard.names == o.guard
        && (r.Success? ==> fresh(r.value) && o.result == Success(r.value.Snapshot()))
        && (r.Failure? ==> o.result == Failure(r.error))
      decreases env.files.Keys - guard.names, 0
    {
      if filename in guard.names {
        return Failure(RuntimeError("file already exists in workspace"));
      }
      guard.names := guard.names + {filename};
      var mp := new ModelParser.Empty();
      if filename in env.files {
        var err := mp.Parse(env, filename, guard);
        if err.Some? {
          return Failure(err.value);
        }
        err := mp.FinaliseExports();
        if err.Some? {
          return Failure(err.value);
        }
      }
      mp.namedVertices := map[];
      mp.namedTris := map[];
      mp.namespaces := map[];
      mp.namedModels := map[];
      return Success(mp);
    }

    /**
     * The user-facing constructor: the guard starts with the file's own name;
     * after the parse and export finalisation, vertices, triangles and
     * namespaces are cleared and the named models are kept.
     */
    static method Create(env: Env, filename: string) returns (r: Result<ModelParser, Error>)
      ensures var spec := OpenFile(env, filename);
        && (r.Success? ==> fresh(r.value) && spec == Success(r.value.Snapshot()))
        && (r.Failure? ==> spec == Failure(r.error))
    {
      var guard := new ImportGuard({filename});
      var mp := new ModelParser.Empty();
      var err := mp.Parse(env, filename, guard);
      if err.Some? {
        return Failure(err.value);
      }
      err := mp.FinaliseExports();
      if err.Some? {
        return Failure(err.value);
      }
      mp.namedVertices := map[];
      mp.namedTris := map[];
      mp.namespaces := map[];
      return Success(mp);
    }

    // -------------------------------------------------------------------------
    // Model data

    method GetExportedModelData(name: string) returns (r: Result<(seq<real>, int), Error>)
      ensures r == ExportedModelData(Snapshot(), name)
    {
      if name !in exportedModels {
        return Failure(RuntimeError("unable to find exported model in SimpleModel"));
      }
      var fs := FlattenModel(exportedModels[name]);
      return Success((fs, |fs| / 3));
    }

    method GetModelData(name: string) returns (r: Result<(seq<real>, int), Error>)
      ensures r == NamedModelData(Snapshot(), name)
    {
      if name !in namedModels {
        return Failure(RuntimeError("unable to find named model in SimpleModel"));
      }
      var fs := FlattenModel(namedModels[name]);
      return Success((fs, |fs| / 3));
    }
  }
}
