# level-editor, modelled in Dafny

This project models the core of the level editor: the tools that build 25 x 25 tile levels and the models and textures those levels use. Each module below stands for one part of the program:

- **`Comments`**: the `<** … **>` comment filter. The model loader and the texture loader both apply it to a whitespace token stream.
- **`SimpleModel` and `ModelParsing`**: the model-description language (`SimpleModel.h`).
  - It has named vertices, triangles and models, namespaces and exports, imports of other model files, four transforms, and circle and cylinder generators.
  - `SimpleModel` gives the semantics as pure functions: one step function per directive, and the run of a whole file, including nested imports.
  - `ModelParsing.ModelParser` is the parser object. Its five maps are updated in place, and each of its methods is proved against the matching step function.
- **`Ordering`**: the order a `std::map<std::string, …>` iterates in, which is strict lexicographic order on strings. Exports are finalised, and imported models copied, in that order.
- **`Geometry`**: the triangle and float-buffer conventions the loaders share:
  - flattening a model into floats, and regrouping floats into triangles;
  - flat-shading normals (`calculateNormals`);
  - per-vertex transforms;
  - the circle and cylinder generators.
- **`IndexedModels`**: `IndexedModel`. It de-duplicates a model's vertices in first-occurrence order and keeps one offset per input vertex. It also models `less_than_vec3`.
- **`TileMap`**: the level editor of `main.cpp`:
  - the tile array and the toggling click;
  - the decomposition of barrier tiles into 1-wide collision strips (`optimize_collision_entities`);
  - the map file writer and reader.
- **`NavGraph`**: the AI navigation graph of `main.h` and `application/main.h`:
  - node insertion with symmetric neighbour links;
  - spawn points;
  - the recursive depth-first search that records its trail;
  - the explicit-stack search;
  - building the graph from a level file.
- **`PaintTool`**: the 64 x 64 paint tool:
  - the 17-colour palette;
  - the recursive 4-connected flood fill;
  - the image writer and reader;
  - the mouse handlers.
- **`Textures`**: `Texture`'s two custom loaders (the commented text format and the paint-tool format) and their dispatch.
- **`AxisGrid`**: the XZ grid with its three coloured axes (`loadXYGrid`).
- **`StlImport`**: the binary STL reader: an 80-byte header, a little-endian facet count, and 50-byte facet records. An encoder is included, for the round trip.
- **`Variants`**: `Variant_t`, a tagged union, and its getters.

Floating-point values are `real`. File contents reach the model as token lists or byte sequences. `std::stof`/`std::stoi` and the IEEE-754 float encoding are parameters (`Env`, `num`, `decode`/`encode`).

Where the source keeps mutable state, the model is imperative Dafny:

- the tile array and the paint surface are `array2`;
- `ModelParser`, `Graph`, `Editor`, `Texture` and `IndexedModel` are classes.

Each loop is proved against a specification function, and the properties are stated about those functions.

A few helpers have no row of their own:
- `SimpleModel.Contribution` gives the triangles one `(nm)` reference adds; `GatherOutcome` and `GatherSliceAt` state what it does.
- `SimpleModel.ErrorOf` and `SimpleModel.Then` name the error that ends a directive: the first of its reads that throws.
- `TileMap.Decimal` and `TileMap.Digits` give the decimal text that `<<` writes for an `int` in the map file.

## Model

| member | source | states |
|---|---|---|
| Comments.StripComments | application/lib/SimpleModel.h:355-376 | the loop keeps exactly the tokens outside `<** … **>` comments: its result is the comment-free token list |
| Comments.StripAppend | application/lib/Texture.h:41-60 | filtering a concatenation is filtering each part, the second part starting in whatever comment state the first ended in |
| Comments.CommentBodyDropped | application/lib/SimpleModel.h:365-368 | inside a comment, every token up to the closing `**>` is dropped and the filter stays in the comment |
| Comments.DropsComment | application/lib/SimpleModel.h:365-373 | a whole `<** body **>` comment is removed from between two token runs, and nothing else is |
| Comments.KeepsPlainTokens | application/lib/Texture.h:54-58 | a stream with no `<**` passes through unchanged |
| Comments.NoOpenKept | application/lib/SimpleModel.h:370-373 | no `<**` token ever survives the filter |
| Comments.KeptFromInput | application/lib/SimpleModel.h:360-374 | the filter only drops tokens: every kept token is from the input, and the output is no longer than the input |
| Ordering.BelowIrreflexive | application/lib/SimpleModel.h:110-117 | map key order: no key precedes itself |
| Ordering.BelowTransitive | application/lib/SimpleModel.h:110-117 | map key order is transitive |
| Ordering.BelowTotal | application/lib/SimpleModel.h:110-117 | any two distinct keys are ordered one way or the other |
| Ordering.BelowAsymmetric | application/lib/SimpleModel.h:110-117 | two keys are never ordered both ways |
| Ordering.LeastExists | application/lib/SimpleModel.h:110-117 | every non-empty key set has a least key, where a map's iteration starts |
| Ordering.LeastUnique | application/lib/SimpleModel.h:110-117 | that least key is unique |
| Ordering.Least | application/lib/SimpleModel.h:110-117 | names the least key of a non-empty set |
| Ordering.AscendingSpec | application/lib/SimpleModel.h:110-111 | a map's iteration sequence lists each key exactly once, in strictly increasing order |
| Ordering.AscendingFirst | application/lib/SimpleModel.h:527 | iteration starts with the least key and goes on over the remaining keys |
| Geometry.Flatten | application/lib/SimpleModel.h:284-305 | a model flattens to nine floats per triangle |
| Geometry.Regroup | application/lib/SimpleModel.h:284-305 | nine floats make one triangle |
| Geometry.RegroupFlatten | application/lib/SimpleModel.h:284-305 | regrouping the flattened floats gives back the model |
| Geometry.FlattenRegroup | application/lib/SimpleModel.h:284-305 | flattening regrouped floats gives back the floats |
| Geometry.FlattenAt | application/lib/SimpleModel.h:291-298 | triangle k occupies floats 9k to 9k+9, vertices a, b, c in order |
| Geometry.FlattenModel | application/lib/SimpleModel.h:284-305 | the copy loop produces exactly the flattened model |
| Geometry.NormalTriple | application/lib/SimpleModel.h:177-195 | one triangle yields nine normal floats: its face normal repeated for each vertex |
| Geometry.NormalFloats | application/lib/SimpleModel.h:167-200 | the normal buffer is as long as the vertex buffer |
| Geometry.CalculateNormals | application/lib/SimpleModel.h:167-200 | the loop over triangles produces the normal buffer the specification gives |
| Geometry.NormalsAt | application/lib/SimpleModel.h:173-197 | floats 9k to 9k+9 of the normals are the face normal of the triangle read from floats 9k to 9k+9 |
| Geometry.NormalsOfModel | application/lib/SimpleModel.h:167-200 | the normals of a flattened model at triangle k are the face normal of triangle k |
| Geometry.Transformed | application/lib/SimpleModel.h:583-709 | a transform keeps the triangle count |
| Geometry.TransformModel | application/lib/SimpleModel.h:597-604 | the loop applies the transform to every vertex of every triangle and keeps the triangle count |
| Geometry.Circle | application/lib/SimpleModel.h:307-333 | a circle of n segments has n triangles, and none when n is not positive |
| Geometry.CircleShape | application/lib/SimpleModel.h:319-329 | every circle triangle is a fan triangle around the origin in the y = 0 plane |
| Geometry.Lift | application/lib/SimpleModel.h:737-744 | the lifted copy has the same triangle count, with every vertex at height h |
| Geometry.Sides | application/lib/SimpleModel.h:756-769 | each side segment contributes two triangles |
| Geometry.CylinderShape | application/lib/SimpleModel.h:729-790 | a cylinder has 4n triangles: the bottom circle at y = 0, the lifted top at y = h, then the 2n side triangles |
| Geometry.RimPoints | application/lib/SimpleModel.h:311-315 | the rim loop computes n rim points, each the polar point of segment i at any height |
| Geometry.GenerateCircle | application/lib/SimpleModel.h:307-333 | the generator's loop builds exactly the circle |
| Geometry.LiftModel | application/lib/SimpleModel.h:737-744 | the loop builds exactly the lifted copy |
| Geometry.SideTriangles | application/lib/SimpleModel.h:746-769 | the loop builds exactly the side triangles, and none for a non-positive segment count |
| Geometry.GenerateCylinder | application/lib/SimpleModel.h:729-790 | the generator builds exactly the cylinder |
| Geometry.Cylinder | application/lib/SimpleModel.h:729-790 | the `(gcyl)` model has four triangles per rim point, and none when the count is not positive |
| Geometry.Coordinates | application/lib/IndexedModel.h:100-102 | a vertex contributes its x, y and z, in that order |
| Geometry.Vertices | application/lib/IndexedModel.h:85-91 | a float buffer reads as one vertex per three floats |
| Geometry.VerticesAt | application/lib/IndexedModel.h:86-91 | vertex k is floats 3k, 3k+1 and 3k+2 |
| Geometry.Coords | application/lib/IndexedModel.h:100-102 | a vertex list writes three floats per vertex |
| Geometry.CoordsOfVertices | application/lib/IndexedModel.h:85-105 | writing back the vertices read from a buffer gives back the buffer |
| SimpleModel.Keyword | application/lib/SimpleModel.h:409-418 | a token is a directive keyword exactly when it is one of the seventeen keywords |
| SimpleModel.At | application/lib/SimpleModel.h:429-431 | `tl.at(j)` returns token j when j is in range and raises out_of_range otherwise |
| SimpleModel.FloatAt | application/lib/SimpleModel.h:429-431 | `std::stof(tl.at(j))` reads the token's number when the token is there and converts, and otherwise raises out_of_range past the end or a conversion error |
| SimpleModel.IntAt | application/lib/SimpleModel.h:466 | `std::stoi(tl.at(j))` reads the token's integer when the token is there and converts, and otherwise raises out_of_range past the end or a conversion error |
| SimpleModel.VertexAt | application/lib/SimpleModel.h:450-452 | `named_vertices.at(tl.at(j))` finds the named vertex when the token is there and bound, and raises out_of_range otherwise |
| SimpleModel.InsertNew | application/lib/SimpleModel.h:491 | `std::map::insert` adds a new key with its value and leaves an existing key's value alone |
| SimpleModel.NamedVertexStep | application/lib/SimpleModel.h:420-439 | `(nv)` refuses a repeated name; for a new name it succeeds exactly when the three `stof` reads do, and otherwise fails with the first read's error (out_of_range past the end, a conversion error for a non-number); on success it binds the name to the three floats and advances four tokens |
| SimpleModel.NamedTriStep | application/lib/SimpleModel.h:441-459 | `(nt)` refuses a repeated name; for a new name it succeeds exactly when the three tokens are there and name bound vertices, otherwise it raises out_of_range; on success it binds the triangle of the three named vertices and advances four tokens |
| SimpleModel.Gather | application/lib/SimpleModel.h:469-489 | collecting count triangle or model references succeeds only within the token list |
| SimpleModel.GatherOutcome | application/lib/SimpleModel.h:469-489 | with every reference in range, collecting succeeds exactly when each reference names a triangle or a model, fails with "NULL source when creating model" otherwise, and yields the sum of the references' triangle counts |
| SimpleModel.GatherSliceAt | application/lib/SimpleModel.h:472-486 | the triangles of each reference follow those of the references before it: a named triangle, looked up before the models, adds itself; a named model adds all of its triangles |
| SimpleModel.GatherJoinsInOrder | application/lib/SimpleModel.h:464-493 | the `(nm)` model is its references joined in listed order, or the NULL-source error when one names nothing |
| SimpleModel.GatherStuck | application/lib/SimpleModel.h:469-489 | once a reference fails, collecting more references fails with the same error |
| SimpleModel.NamedModelStep | application/lib/SimpleModel.h:461-496 | `(nm)` fails with the `stoi` error when the count does not read; in the corrected reading a negative count is an error; otherwise it succeeds exactly when gathering that many references does, failing with the gathering error, and on success it advances past the count and the references, changes only the model map, leaves an existing name untouched and binds a new name to the gathered triangles |
| SimpleModel.ExportStep | application/lib/SimpleModel.h:498-512 | `(exm)` needs a current namespace; then it succeeds exactly when the model token is there and names a model, raising out_of_range for a missing token and the "non-existent model" message for an unknown one, and appends the model name to that namespace |
| SimpleModel.NamespaceStep | application/lib/SimpleModel.h:550-558 | `(ns)` refuses a duplicate namespace and otherwise opens it empty |
| SimpleModel.ExportRenameStep | application/lib/SimpleModel.h:560-581 | `(exrn)` needs a namespace; then it succeeds exactly when the model and new-name tokens are there and the model exists, raising out_of_range for a missing token and the "non-existent model" message for an unknown model, and exports that model under `namespace.newname` without overwriting |
| SimpleModel.TransformStep | application/lib/SimpleModel.h:583-709 | each transform directive raises its own message for a missing source model; otherwise it fails with the parameter error, or `out_of_range` when the destination name is missing, and succeeds exactly when both are there, storing under the new name the source model with the directive's per-vertex function applied to every vertex, with the same triangle count |
| SimpleModel.TransformOf | application/lib/SimpleModel.h:583-709 | a transform's parameters parse exactly when the number tokens (and, for a rotation, the keyword before it) are there; a failure is `out_of_range` or a number-conversion error |
| SimpleModel.TranslateMeaning | application/lib/SimpleModel.h:583-612 | `(tfxlat)` moves every point by the three numbers read, coordinate by coordinate |
| SimpleModel.ScaleMeaning | application/lib/SimpleModel.h:680-709 | `(tfsc)` is a scale by the three numbers read |
| SimpleModel.RotateMeaning | application/lib/SimpleModel.h:614-645 | `(tfrot?)` rotates every point by the angle read, in radians, about the axis its keyword names |
| SimpleModel.RotateDegMeaning | application/lib/SimpleModel.h:647-678 | `(tfrotd?)` rotates every point by the angle read, converted from degrees to radians, about the axis its keyword names |
| SimpleModel.CircleStep | application/lib/SimpleModel.h:711-727 | `(gcirc)` succeeds exactly when its count and radius read, failing with the first read's error; on success it binds a new name to `Circle` of them, never rebinding an existing name, and advances three tokens |
| SimpleModel.CircleDirectiveShape | application/lib/SimpleModel.h:711-727 | a `(gcirc)` model has n fan triangles with the third vertex at the origin, all in the plane y = 0 |
| SimpleModel.CylinderStep | application/lib/SimpleModel.h:729-790 | `(gcyl)` succeeds exactly when its count, radius and height read, failing with the first read's error; on success it binds a new name to `Cylinder` of them, never rebinding an existing name, and advances four tokens |
| SimpleModel.CylinderDirectiveShape | application/lib/SimpleModel.h:729-790 | a `(gcyl)` model has 4n triangles: the bottom cap at y = 0, then the top cap at the height read |
| SimpleModel.DefaultStep | application/lib/SimpleModel.h:409-418 | in the default state a keyword selects its directive; any other token raises "unknown token" |
| SimpleModel.Step | application/lib/SimpleModel.h:381-796 | one parse step returns to the default state after a directive, never removes a model or namespace, and in the corrected reading always advances |
| SimpleModel.NegativeCountLoops | application/lib/SimpleModel.h:464-493 | as written, `(nm) (nm) -3` returns to token 0 with the same state: the parse never ends |
| SimpleModel.NegativeCountRejected | application/lib/SimpleModel.h:464-469 | the corrected `(nm)` rejects a negative triangle count |
| SimpleModel.StepResolvable | application/lib/SimpleModel.h:498-581 | every step keeps every namespace entry naming an existing model |
| SimpleModel.ExportList | application/lib/SimpleModel.h:110-117 | exporting a namespace fails with out_of_range exactly when one of its names is not a model |
| SimpleModel.ExportListSpec | application/lib/SimpleModel.h:111-116 | exporting a resolvable namespace keeps earlier exports and adds `ns.name` for each listed model, bound to that model |
| SimpleModel.ExportAllSpec | application/lib/SimpleModel.h:139-146 | finalising a list of resolvable namespaces exports every namespaced model and nothing else |
| SimpleModel.FinaliseSpec | application/lib/SimpleModel.h:110-117 | finalising a resolvable workspace succeeds and exports exactly its namespaced models |
| SimpleModel.Finalise | application/lib/SimpleModel.h:110-117 | finalising fails, with `out_of_range`, exactly when some namespace queues a name that is not a model |
| SimpleModel.Unbound | application/lib/SimpleModel.h:527-541 | the copy of imported exports stops at the first key already bound |
| SimpleModel.Overlay | application/lib/SimpleModel.h:527-541 | the merged model map holds the old keys and the copied keys |
| SimpleModel.CopyKeysPrefix | application/lib/SimpleModel.h:527-541 | copying walks the keys, inserts each into the model map until the first one already bound, then stops; existing models are unchanged |
| SimpleModel.AscendingDistinct | application/lib/SimpleModel.h:527 | the export map's keys are walked once each |
| SimpleModel.CopyExportsKeeps | application/lib/SimpleModel.h:527-541 | importing never overwrites an existing model |
| SimpleModel.CopyExportsAll | application/lib/SimpleModel.h:527-541 | with no name clash, every imported export is added |
| SimpleModel.KeysBelow | application/lib/SimpleModel.h:527-541 | the keys before a clash are a subset of the imported keys |
| SimpleModel.CopyStopsAtLeast | application/lib/SimpleModel.h:527-541 | the copy stops at the least key that clashes |
| SimpleModel.CopyExportsUpTo | application/lib/SimpleModel.h:527-541 | importing adds exactly the imported exports that come before the least clashing key |
| SimpleModel.RunFrom | application/lib/SimpleModel.h:378-797 | running the parse never forgets an imported file name |
| SimpleModel.ImportFile | application/lib/SimpleModel.h:127-152 | importing a file records its name in the shared guard |
| SimpleModel.RunFromResolvable | application/lib/SimpleModel.h:378-797 | a successful run leaves every namespace entry naming an existing model |
| SimpleModel.OpenFinalises | application/lib/SimpleModel.h:104-125 | a file whose parse succeeds can always be finalised |
| SimpleModel.OpenFile | application/lib/SimpleModel.h:104-125 | the user-facing constructor fails with the parse's error, or keeps the named models and the finalised export table and clears vertices, triangles and namespaces |
| SimpleModel.Absorb | application/lib/SimpleModel.h:514-548 | `(imp)` swallows a `runtime_error` from the imported file and leaves the workspace as it was, rethrows any other exception as the sliced `std::exception`, and on success copies exports in without overwriting a model or touching another map |
| SimpleModel.ImportAbsorbed | application/lib/SimpleModel.h:514-548 | at an `(imp)` token the run goes on one token later with the workspace unchanged after a `runtime_error`, stops with the sliced exception after any other error, and otherwise goes on with the imported exports copied in |
| SimpleModel.ReimportRefused | application/lib/SimpleModel.h:130-133 | importing a file already in the guard raises "file already exists in workspace" |
| SimpleModel.ModelData | application/lib/SimpleModel.h:284-305 | a model's data is nine floats and three vertices per triangle, and regroups to the model |
| SimpleModel.ExportedModelData | application/lib/SimpleModel.h:202-223 | fails with its message exactly for an unknown export, and otherwise returns that model's data |
| SimpleModel.NamedModelData | application/lib/SimpleModel.h:284-305 | fails with its message exactly for an unknown model, and otherwise returns that model's data |
| ModelParsing.ImportGuard.constructor | application/lib/SimpleModel.h:105-106 | the guard starts with the names given |
| ModelParsing.ModelParser.Empty | application/lib/SimpleModel.h:49-53 | a new parser's five maps are empty |
| ModelParsing.ModelParser.NamedVertex | application/lib/SimpleModel.h:420-439 | updates the vertex map and returns the next index or error as `NamedVertexStep` says |
| ModelParsing.ModelParser.NamedTri | application/lib/SimpleModel.h:441-459 | updates the triangle map as `NamedTriStep` says |
| ModelParsing.ModelParser.GatherRefs | application/lib/SimpleModel.h:469-489 | the reference loop collects exactly `Gather`'s triangles or error |
| ModelParsing.ModelParser.NamedModel | application/lib/SimpleModel.h:461-496 | updates the model map as the corrected `NamedModelStep` says |
| ModelParsing.ModelParser.Export | application/lib/SimpleModel.h:498-512 | updates the namespaces as `ExportStep` says |
| ModelParsing.ModelParser.Namespace | application/lib/SimpleModel.h:550-558 | opens the namespace as `NamespaceStep` says |
| ModelParsing.ModelParser.ExportRename | application/lib/SimpleModel.h:560-581 | updates the exports as `ExportRenameStep` says |
| ModelParsing.ModelParser.Transform | application/lib/SimpleModel.h:583-709 | updates the model map as `TransformStep` says |
| ModelParsing.ModelParser.GenCircle | application/lib/SimpleModel.h:711-727 | updates the model map as `CircleStep` says |
| ModelParsing.ModelParser.GenCylinder | application/lib/SimpleModel.h:729-790 | updates the model map as `CylinderStep` says |
| ModelParsing.ModelParser.StepAt | application/lib/SimpleModel.h:408-794 | one turn of the parse loop's switch agrees with `Step`: the same next index and state, or the same error |
| ModelParsing.ModelParser.ImportAt | application/lib/SimpleModel.h:514-548 | the `(imp)` case: the run goes on at the next token in the default state with the imported exports copied in or a swallowed runtime_error, as `RunFrom` says, or the parse ends with the sliced exception |
| ModelParsing.ModelParser.AddImportedExports | application/lib/SimpleModel.h:527-541 | the import copy loop leaves the model map as `CopyExports` says and changes nothing else |
| ModelParsing.ModelParser.FinaliseExports | application/lib/SimpleModel.h:110-117 | the namespace loop leaves the exports as `Finalise` says, or returns its error |
| ModelParsing.ModelParser.Parse | application/lib/SimpleModel.h:335-799 | tokenising and the parse loop, nested imports included, leave the parser and the guard as `RunFrom` says, or return its error |
| ModelParsing.ModelParser.CreateImported | application/lib/SimpleModel.h:127-152 | the importing constructor refuses a known file and otherwise parses, finalises and clears all but the exports, as `ImportFile` says |
| ModelParsing.ModelParser.Create | application/lib/SimpleModel.h:104-125 | the public constructor parses, finalises and clears vertices, triangles and namespaces, as `OpenFile` says |
| ModelParsing.ModelParser.GetExportedModelData | application/lib/SimpleModel.h:202-223 | returns `ExportedModelData` of the parser's maps |
| ModelParsing.ModelParser.GetModelData | application/lib/SimpleModel.h:284-305 | returns `NamedModelData` of the parser's maps |
| IndexedModels.LessThanIsLexicographic | application/lib/IndexedModel.h:26-31 | `less_than_vec3` is lexicographic order on (x, y, z) |
| IndexedModels.LessThanIsStrictTotal | application/lib/IndexedModel.h:26-31 | `less_than_vec3` is a strict total order whose equivalence is vertex equality, so the point map keys vertices exactly |
| IndexedModels.Unique | application/lib/IndexedModel.h:85-118 | the distinct vertices: the same vertices as the input, each once |
| IndexedModels.FirstIndex | application/lib/IndexedModel.h:85-118 | locates a vertex's first occurrence |
| IndexedModels.UniqueInFirstOccurrenceOrder | application/lib/IndexedModel.h:93-106 | distinct vertices are listed in order of their first occurrence |
| IndexedModels.UniqueExtend | application/lib/IndexedModel.h:93-117 | a repeated vertex adds nothing to the unique list; a new one is appended |
| IndexedModels.IndexIn | application/lib/IndexedModel.h:107-117 | a vertex has exactly one position in the unique list |
| IndexedModels.Expand | application/lib/IndexedModel.h:85-118 | expanding offsets against the vertex data gives three floats per offset |
| IndexedModels.ExpandIndexes | application/lib/IndexedModel.h:58-120 | the stored offsets are in range and expand back to the model's floats |
| IndexedModels.RepeatsShareOffsets | application/lib/IndexedModel.h:107-117 | two equal vertices get the same offset, the position of that vertex among the distinct ones |
| IndexedModels.Dedup | application/lib/IndexedModel.h:85-118 | the loop state holds one offset per vertex |
| IndexedModels.DedupSpec | application/lib/IndexedModel.h:85-118 | after the loop, the point map indexes the distinct vertices, the offsets point at each vertex, the counter is the distinct count, and the data is their coordinates |
| IndexedModels.Deduplicate | application/lib/IndexedModel.h:85-118 | the loop builds data with three floats per distinct vertex and an offset per input vertex that points at its coordinates |
| IndexedModels.IndexedModel.FromData | application/lib/IndexedModel.h:58-120 | the object's data and offsets index the given floats and expand back to them |
| IndexedModels.Load | application/lib/IndexedModel.h:58-61 | fails with the lookup error for an unknown export, and otherwise indexes that export's flattened floats |
| TileMap.Position | main.cpp:227-230 | cell (y, x) is index 25y+x, and that index gives back its row and column |
| TileMap.Contents | main.cpp:146-220 | the tile array seen as a grid |
| TileMap.HRun | main.cpp:152-163 | the horizontal run from a tile is all barrier, stays in the row and is at least 1 on a barrier |
| TileMap.VRun | main.cpp:165-176 | the vertical run likewise, down the column |
| TileMap.StripAt | main.cpp:181-210 | the strip emitted at a barrier starts there, covers it and covers only barrier tiles |
| TileMap.CoverCount | main.cpp:190-207 | a positive cover count means some strip covers the tile |
| TileMap.StripsAreRuns | main.cpp:178-212 | every strip is well formed, and covers only barrier tiles inside the grid |
| TileMap.ScanEmits | main.cpp:178-212 | the row-major scan keeps the strips already emitted and appends only the strip at a grid tile |
| TileMap.Strips | main.cpp:178-212 | every strip of the grid is the strip at its own origin, which lies in the grid |
| TileMap.StripsCoverBarriers | main.cpp:178-212 | starting from no tracked tiles, every barrier tile is covered by some strip |
| TileMap.StripsInScanOrder | main.cpp:178-212 | strips come out in strictly increasing row-major order of their origins |
| TileMap.StripCountBound | main.cpp:178-212 | there are never more strips than barrier tiles |
| TileMap.TrackH | main.cpp:152-163 | the tracking loop returns the horizontal run length |
| TileMap.TrackV | main.cpp:165-176 | the tracking loop returns the vertical run length |
| TileMap.Mark | main.cpp:190-207 | marking adds one to the tracked count of exactly the tiles the strip covers |
| TileMap.ResetTracked | main.cpp:214-217 | every tracked count is reset to zero and the kinds are kept |
| TileMap.OptimizeCollisionEntities | main.cpp:146-220 | returns the strips of the grid as it was on entry, and leaves every kind unchanged and every tracked count zero |
| TileMap.EmitAt | main.cpp:181-210 | emits the strip at a barrier and records it in the tracked counts |
| TileMap.InitTileArray | main.cpp:274-284 | a fresh 25 x 25 array of default, untracked tiles |
| TileMap.Toggled | main.cpp:115-131 | a click turns default into barrier and barrier into default, and leaves other kinds |
| TileMap.Click | main.cpp:115-131 | a click in the map area toggles exactly the tile under the pointer; a click right of column 24 changes nothing |
| TileMap.ToggleKeepsWellTyped | main.cpp:115-131 | toggling a default or barrier tile yields the other kind |
| TileMap.KindTokens | main.cpp:225-232 | one token per tile |
| TileMap.SavedTokens | main.cpp:222-242 | a map file is `MAPDATA`, the 625 kinds in row-major order, the strip count, then x, y, h, w of each strip |
| TileMap.WriteKinds | main.cpp:225-232 | the kind-writing loop produces `MAPDATA` and the kinds |
| TileMap.WriteStrips | main.cpp:237-239 | the strip-writing loop writes x, y, h, w of each strip, in that order |
| TileMap.SaveFile | main.cpp:222-242 | writes the file the specification gives for the grid on entry; kinds are kept and tracked counts left at zero |
| TileMap.ReadCells | main.cpp:244-272 | successfully read cells are each default or barrier |
| TileMap.ReadMap | main.cpp:244-272 | a successful read gives 625 kinds, each default or barrier |
| TileMap.ReadCellsSpec | main.cpp:253-270 | reading succeeds exactly when every token is "0" or "1", and maps "0" to default and "1" to barrier |
| TileMap.ReadCellsFirstBad | main.cpp:264-267 | the reported invalid token is the first one in row-major order |
| TileMap.ReadAllGood | main.cpp:253-270 | kinds read one by one are what `ReadMap` returns |
| TileMap.ReadFile | main.cpp:244-272 | on a bad token, reports it; otherwise sets each tile's kind to the kind read and keeps its tracked count |
| TileMap.Kinds | main.cpp:225-232 | the 625 kinds of a grid |
| TileMap.SaveReadRoundTrip | main.cpp:222-272 | reading a saved map gives back every tile's kind |
| PaintTool.LutDistinct | paint-tool/main.cpp:71-89 | the palette has 17 entries, all different |
| PaintTool.Snap | paint-tool/main.cpp:219-242 | the surface seen as a value |
| PaintTool.HoldingSpec | paint-tool/main.cpp:219-242 | the cells holding a colour are exactly the in-grid cells of that colour |
| PaintTool.PartialStart | paint-tool/main.cpp:231-232 | after recolouring the start cell, the fill has made its first step |
| PaintTool.PartialShrinks | paint-tool/main.cpp:231-239 | every recursive call is on a surface with fewer cells of the old colour, so the recursion ends |
| PaintTool.PartialStep | paint-tool/main.cpp:236-239 | filling from the next neighbour advances the fill by one direction |
| PaintTool.PartialDone | paint-tool/main.cpp:231-241 | after the four neighbours the fill is complete |
| PaintTool.FilledNothing | paint-tool/main.cpp:221-231 | off the grid, on another colour, or with the new colour equal to the old, the fill changes nothing |
| PaintTool.FillArea | paint-tool/main.cpp:219-242 | the recursive fill recolours the region as `Filled` describes |
| PaintTool.Filled | paint-tool/main.cpp:219-242 | after a fill, every changed cell held the old colour and now holds the new one |
| PaintTool.FilledAlongPath | paint-tool/main.cpp:219-242 | every cell joined to the start through cells of the old colour gets the new colour |
| PaintTool.FillIsExact | paint-tool/main.cpp:219-242 | a cell changes exactly when it is 4-connected to the start through the old colour, and then takes the new colour |
| PaintTool.LutIndex | paint-tool/main.cpp:284-288 | the palette search returns the first matching index, or none if no entry matches |
| PaintTool.LookUp | paint-tool/main.cpp:284-288 | the search loop returns what `LutIndex` returns |
| PaintTool.Pixels | paint-tool/main.cpp:325-332 | the writer visits 64 x 64 pixels |
| PaintTool.PixelsAt | paint-tool/main.cpp:325-327 | pixel 64y+x is the surface at (y, x) |
| PaintTool.PixelsInPalette | paint-tool/main.cpp:327-328 | on a surface of palette indices every pixel is a palette index |
| PaintTool.Encode | paint-tool/main.cpp:325-332 | each pixel is written as three numbers |
| PaintTool.EncodeAt | paint-tool/main.cpp:327-329 | numbers 3k to 3k+3 are the red, green and blue of pixel k's palette colour |
| PaintTool.SaveFile | paint-tool/main.cpp:325-332 | the writer's loop writes the encoded pixels of the surface |
| PaintTool.ReadNext | paint-tool/main.cpp:278-290 | after cell (y, x) the reader has read every cell before it in row-major order |
| PaintTool.ReadFile | paint-tool/main.cpp:244-293 | fails without a header; otherwise each cell takes the palette index its triple matches, or keeps its colour when no entry matches |
| PaintTool.SaveReadRoundTrip | paint-tool/main.cpp:244-335 | reading a saved surface gives back every cell's colour |
| PaintTool.Editor.constructor | paint-tool/main.cpp:34-95 | a new editor has an all-black surface, colour 0, not drawing and no last position |
| PaintTool.Editor.MouseMotion | paint-tool/main.cpp:113-121 | while drawing, motion inside the canvas paints the cell under the pointer and nothing else |
| PaintTool.Editor.MouseButtonDown | paint-tool/main.cpp:124-153 | a left press paints the cell and starts drawing; a right press flood-fills from it; a press on the colour bar picks the colour; only a left press on the canvas changes the drawing state and last position, and any other press changes neither the surface nor the colour |
| PaintTool.Editor.MouseButtonUp | paint-tool/main.cpp:156-165 | releasing stops drawing and changes nothing else |
| NavGraph.Flags | main.h:11-37 | the visited nodes are nodes of the graph |
| NavGraph.Mark | main.h:23-30 | setting or clearing a node's visited bit changes no link and adds or removes just that node from the visited set |
| NavGraph.Opposite | main.h:52-78 | each direction has an opposite direction |
| NavGraph.StepOpposite | main.h:52-78 | a step in one direction is undone by a step in the opposite one |
| NavGraph.WithLink | main.h:46-85 | setting one link keeps the other three and the visited bit |
| NavGraph.Join | main.h:53-81 | joining a node to a present neighbour links both ways and changes no other link |
| NavGraph.Inserted | main.h:46-85 | insertion adds the cell, leaves an existing cell untouched and keeps every visited bit |
| NavGraph.InsertedLinks | main.h:46-85 | the new node links to each present neighbour, and each neighbour links back to it |
| NavGraph.InsertKeepsLinks | main.h:46-85 | insertion keeps every link pointing at the adjacent node in its direction |
| NavGraph.LinksSymmetric | main.h:46-85 | in a built graph, right and left links mirror each other, down and up links likewise, and every link leads to the adjacent node |
| NavGraph.ReachSelf | main.h:110-150 | every node reaches itself |
| NavGraph.ReachPrepend | main.h:110-150 | a path can be extended at its start by an adjacent node |
| NavGraph.ReachAppend | main.h:110-150 | a path can be extended at its end by an adjacent node |
| NavGraph.ClosedJoin | main.h:110-150 | two closed explorations chain into one |
| NavGraph.ClosedHoldsPath | main.h:110-150 | a node set closed under adjacency holds the end of every path from it |
| NavGraph.DistinctConcat | main.h:110-150 | trails of disjoint explorations join without repeats |
| NavGraph.Explore | main.h:110-150 | the recursive search from a node: a found trail runs from it to the target without repeats; otherwise every reachable node was visited |
| NavGraph.Branches | main.h:124-149 | trying the four neighbours in order finds the target when some unvisited branch reaches it, and otherwise leaves every neighbour visited |
| NavGraph.Search | main.h:87-108 | a found route starts at the source, ends at the target, repeats no node and uses only nodes |
| NavGraph.SearchFindsReachable | main.h:87-151 | a route is found exactly when both ends are nodes and the target is reachable |
| NavGraph.SearchListsVisited | main.h:87-151 | the returned trail is exactly the nodes the search entered, plus the target |
| NavGraph.Graph.constructor | main.h:39-42 | a new graph has no nodes and no spawn points |
| NavGraph.Graph.InsertNewNode | main.h:46-85 | the node map becomes `Inserted` of the old one and the links stay well formed |
| NavGraph.Graph.JoinNeighbour | main.h:53-81 | one direction of the insertion: the node map becomes `Join` of the old one |
| NavGraph.Graph.InsertSpawnPoint | main.h:153-155 | appends the spawn point and changes no node |
| NavGraph.Graph.ResetFlags | main.h:102-104 | clears every visited bit and changes no link |
| NavGraph.Graph.SearchFrom | main.h:110-150 | the recursive search sets exactly the visited bits and extends the trail as `Explore` says |
| NavGraph.Graph.TryNeighbours | main.h:124-149 | the four branch calls behave as `Branches` says |
| NavGraph.Graph.SearchFor | main.h:87-108 | returns `Search`'s result, keeps the links, and leaves the visited bits the search set |
| NavGraph.Graph.Expand | application/main.h:114-128 | visiting a node sets its bit and pushes its present neighbours north, south, west, east |
| NavGraph.Graph.SearchForStack | application/main.h:87-131 | with both ends present, the stack search falls off the end exactly when the target is unreachable; what it returns is the stack of reachable nodes |
| NavGraph.LinkedNeighbours | application/main.h:117-127 | the links a node pushes are its present neighbours in push order |
| NavGraph.PushLinks | application/main.h:117-127 | the four conditional pushes append the non-empty links in order |
| NavGraph.NeighboursPresent | application/main.h:117-127 | pushed nodes are present and adjacent, and every present neighbour is pushed |
| NavGraph.StackInvPopped | application/main.h:105-112 | every stacked node is reachable, and popping a visited node keeps the loop invariant |
| NavGraph.StackInvExpand | application/main.h:114-128 | expanding an unvisited node that is not the target keeps the loop invariant |
| NavGraph.StackExhausted | application/main.h:104-131 | when the stack empties, the target is unreachable and the visited nodes are exactly the reachable ones |
| NavGraph.PushReachable | application/main.h:117-127 | every neighbour pushed from a reachable node is reachable |
| NavGraph.SpawnsBefore | main.h:159-190 | the spawn list holds exactly the "2" cells before a position, in row-major order |
| NavGraph.GenAiGraph | main.h:159-190 | an empty file yields no graph; otherwise nodes are exactly the cells not "1", links are well formed, and the spawn points are the "2" cells in row-major order |
| NavGraph.ReadRow | main.h:171-187 | one row of the build loop keeps the nodes and spawns equal to the cells read so far |
| NavGraph.ReadCell | main.h:172-186 | one cell of the build loop adds a node unless the cell is "1", and a spawn point when it is "2" |
| NavGraph.OpenBeforeNext | main.h:174-185 | the nodes after a cell are the open cells up to it |
| NavGraph.OpenBeforeRow | main.h:171-187 | a finished row carries over to the next |
| NavGraph.SpawnsAreNodes | main.h:159-190 | every spawn point is a node |
| Textures.Byte | application/lib/Texture.h:90-92 | storing into an unsigned char keeps a value modulo 256 |
| Textures.TextBytes | application/lib/Texture.h:85-93 | rows x columns pixels give three bytes each |
| Textures.TextBytesAt | application/lib/Texture.h:87-93 | byte k comes from the number after the header at position k, reduced to a byte |
| Textures.LoadTextOutcome | application/lib/Texture.h:64-94 | the loader fails exactly when ROWS or COLUMNS is missing, naming the first one missing; otherwise the image is columns x rows with three bytes per pixel |
| Textures.LoadText | application/lib/Texture.h:64-94 | the text loader fails only with the ROWS or COLUMNS message, and otherwise yields bytes |
| Textures.TextRoundTrip | application/lib/Texture.h:64-94 | a file written as the header and the pixel bytes loads back as that image |
| Textures.PlainFile | application/lib/Texture.h:41-62 | a file without comments passes the comment filter unchanged |
| Textures.ShownBytes | application/lib/Texture.h:85-93 | written bytes read back as themselves |
| Textures.IntPrefix | application/lib/Texture.h:146 | the loader reads numbers until the first token that is not one |
| Textures.PaintBytesStep | application/lib/Texture.h:146-151 | one turn reads a triple; a missing green or blue keeps the previous value |
| Textures.PaintBytesLength | application/lib/Texture.h:145-151 | the paint loader stores three bytes per started triple |
| Textures.PaintBytesValues | application/lib/Texture.h:145-151 | each number read is stored, as a byte, at its position |
| Textures.PaintBytesShape | application/lib/Texture.h:145-151 | the two facts above together |
| Textures.PaintToolSaveLoads | application/lib/Texture.h:125-179 | the paint tool's saved pixel numbers load back unchanged |
| Textures.Texture.FromData | application/lib/Texture.h:201-211 | the texture takes the given data, height and width |
| Textures.Texture.LoadCustomTextureType | application/lib/Texture.h:32-123 | on a missing keyword, reports it and changes nothing; otherwise uploads the loaded image and sets width to columns and height to rows |
| Textures.Texture.LoadCustomPaintToolType | application/lib/Texture.h:125-179 | an empty file exits with status 1; otherwise uploads the 64 x 64 image of the bytes read |
| Textures.LoadPaintTool | application/lib/Texture.h:125-152 | an empty file exits with status 1; otherwise the image is 64 x 64 with three bytes per started triple, each number read stored as a byte at its position |
| Textures.ReadPaintData | application/lib/Texture.h:145-151 | the read loop produces the paint bytes |
| Textures.ReadTriple | application/lib/Texture.h:146-147 | one triple read: a missing green or blue keeps its previous value |
| Textures.Open | application/lib/Texture.h:183-199 | dispatches on the file type, and raises "Unsupported filetype" for any other type |
| AxisGrid.XLines | application/lib/tool/AxisGrid.h:45-58 | for each x, two lines from z = zLen to z = -zLen at x and at -x, in the y = 0 plane |
| AxisGrid.ZLines | application/lib/tool/AxisGrid.h:60-73 | for each z, two lines from x = xLen to x = -xLen at z and at -z |
| AxisGrid.Grid | application/lib/tool/AxisGrid.h:14-102 | six axis vertices, then four per inner x line and four per inner z line |
| AxisGrid.Colours | application/lib/tool/AxisGrid.h:75-89 | the axes are red, green and blue, and every grid line is (0, 0, 0) |
| AxisGrid.GridSize | application/lib/tool/AxisGrid.h:94 | the vertex count is 6 + 4(xLen - 1) + 4(zLen - 1) |
| AxisGrid.GridLinesLieFlat | application/lib/tool/AxisGrid.h:45-73 | every grid line lies in the y = 0 plane |
| AxisGrid.GridLinesSpan | application/lib/tool/AxisGrid.h:45-73 | each x line spans z from zLen to -zLen at a fixed non-zero x, and each z line spans x likewise |
| AxisGrid.OnlyYAxisUsesYLen | application/lib/tool/AxisGrid.h:23-41 | the y length affects only the y axis |
| AxisGrid.LoadXYGrid | application/lib/tool/AxisGrid.h:14-102 | returns the grid's coordinates and colours with the vertex count |
| AxisGrid.VertexBuffer | application/lib/tool/AxisGrid.h:23-73 | the vertex loops write the grid's coordinates |
| AxisGrid.ColourBuffer | application/lib/tool/AxisGrid.h:75-89 | the colour loop writes the colours |
| StlImport.FacetCount | application/lib/tool/StlImport.h:111 | the facet count is an unsigned 32-bit number |
| StlImport.FacetFloats | application/lib/tool/StlImport.h:123-129 | each facet gives nine floats |
| StlImport.StlFloats | application/lib/tool/StlImport.h:123-129 | n facets give 9n floats |
| StlImport.ReadStlModel | application/lib/tool/StlImport.h:97-133 | reads a complete file into the floats of its facets' vertices, skipping each normal and attribute word; fails on a truncated file |
| StlImport.LoadBinaryStlModel | application/lib/tool/StlImport.h:77-95 | the model data is the floats, with three vertices per facet |
| StlImport.LoadBinaryStlModelWithNormals | application/lib/tool/StlImport.h:21-75 | also returns the flat normals, as long as the vertex data |
| StlImport.CountBytes | application/lib/tool/StlImport.h:111 | the count is four bytes |
| StlImport.EncodeFloats | application/lib/tool/StlImport.h:123-129 | four bytes per float |
| StlImport.EncodeFacet | application/lib/tool/StlImport.h:123-129 | a facet record is 50 bytes |
| StlImport.EncodeFacets | application/lib/tool/StlImport.h:123-129 | 50 bytes per facet |
| StlImport.EncodeStl | application/lib/tool/StlImport.h:97-133 | a file is 84 bytes plus 50 per facet |
| StlImport.EncodeFloatsAt | application/lib/tool/StlImport.h:123-129 | word j is the encoding of float j |
| StlImport.EncodeFacetsAt | application/lib/tool/StlImport.h:123-129 | record i is facet i |
| StlImport.CountRoundTrip | application/lib/tool/StlImport.h:103-111 | the count written after the header reads back |
| StlImport.RecordOf | application/lib/tool/StlImport.h:123-129 | in a written file, record i is facet i's encoding |
| StlImport.FacetRoundTrip | application/lib/tool/StlImport.h:123-129 | reading facet i of a written file gives its nine vertex floats, when each of them survives the 32-bit float encoding |
| StlImport.StlRoundTrip | application/lib/tool/StlImport.h:97-133 | a written model whose coordinates are all 32-bit floats is complete and reads back as the flattened model |
| StlImport.ReadPrefix | application/lib/tool/StlImport.h:123-129 | for such a model, the first n facets read back as the first n triangles |
| Variants.FlagOf | application/lib/VariantType.h:30-34 | each kind has one of the five tags |
| Variants.FromUint | application/lib/VariantType.h:62-65 | the unsigned constructor stores the value under the uint tag |
| Variants.FromInt | application/lib/VariantType.h:67-70 | the int constructor stores the value under the int tag |
| Variants.FromString | application/lib/VariantType.h:72-75 | the string constructor stores the value under the str tag |
| Variants.FromVec3 | application/lib/VariantType.h:77-80 | the vec3 constructor stores the value under the vf3 tag |
| Variants.FromMat4 | application/lib/VariantType.h:82-85 | the mat4 constructor stores the value under the mf4 tag |
| Variants.FlagName | application/lib/VariantType.h:50-60 | names exactly the five tags, and raises "unknown inner type" for any other |
| Variants.FlagNameOfKind | application/lib/VariantType.h:50-60 | each kind's tag is named by its getter's type name, and distinct tags have distinct names |
| Variants.GetAsWritten | application/lib/VariantType.h:87-120 | as written, every getter fails: with no return value on a uint variant, otherwise with the mismatch message |
| Variants.GetterRejectsOwnType | application/lib/VariantType.h:87-99 | as written, `getInt` on an int variant reports that 'int' does not match 'int', and `getUint` on a uint variant returns nothing |
| Variants.Get | application/lib/VariantType.h:87-120 | corrected: a getter succeeds exactly on its own kind and returns the stored value, and otherwise raises the mismatch message |
| Variants.GetReturnsStored | application/lib/VariantType.h:62-120 | each constructor's value is read back by the getter of its kind |
| Variants.GetAgreesOffTheFaultyCases | application/lib/VariantType.h:87-120 | the corrected and written getters agree on every call outside the two faulty groups |

## Left out

- Rendering and windowing are not modelled, because they produce no state the model can state anything about. This covers:
  - OpenGL and SDL calls, buffer uploads and shaders;
  - `render`, cameras (`Camera.h`, `FloatCam.h`) and `Mesh.h`;
  - initialisation, event loops and `event_core.h`.
- `ModelParser::setFileLocation` and the global `model_loc` prefix are not modelled: files are named directly.
- The parser's destructor, `new`/`delete` of imported parsers and the dangling pointers they leave are not modelled.
- NavGraph.Graph.SearchFor: `searchFor` in main.h returns the address of a local vector (main.h:106-108), which dangles once the call returns; the model returns the trail as a value.
- SimpleModel.RunFrom, ModelParsing.ModelParser.Parse: whole-file runs (and so `Create` and `CreateImported`) use the corrected `(nm)`, which fails with "negative triangle count in ModelParser" on a negative count. The source raises no such message: its loop (SimpleModel.h:381) either cycles, reads the count token in the default state and raises "unknown token", or calls `token_list.at` with a negative index and throws `std::out_of_range`, which `(imp)` rethrows instead of swallowing. The single-step behaviour as written is `NegativeCountLoops`.
- `loadExportedModelIntoRuntime`, `loadForeignModelIntoRuntime`, `loadModelList`, `tessellate` (whose body is empty) and `operator<<` are not modelled. They only print or hand data to the renderer.
- Floating-point arithmetic is modelled as exact `real` arithmetic. Rounding, NaN and -0.0 (which also affects `less_than_vec3` keys) are not modelled.
- The transforms themselves (glm's translate, rotate and scale matrices) are an abstract per-vertex function. `sin`/`cos` in the generators are the `Polar` parameter.
- `std::stof`/`std::stoi` and the stream number parsing are parameters (`Env.stof`, `Env.stoi`, `num`). Only whether a token parses, and to what, is modelled.
- File reading is a token list or a byte sequence. An unreadable model file reads as no tokens, as the silent `ifstream` does.
- Textures.Texture.LoadCustomTextureType: the `/tmp/texture-file.txt` rewrite is modelled as the filtered token list. The stream's sticky fail state after a non-numeric token is not modelled; each field is read independently. Pixel tokens missing at the end of the file read as 0, where the source stores the values of uninitialised variables.
- Textures.Texture.LoadCustomPaintToolType: width and height stay as they were, because the loader does not set them. A non-numeric green or blue keeps the previous value rather than the stream's failure value. The first pixel's green and blue, which the source reads into uninitialised variables, start at 0.
- Integer widths are not modelled, except where the model says so: the facet count is a 32-bit value, a texture byte is reduced modulo 256, and Variant integers are 32-bit. A rows x columns overflow and the unsigned `current_index` wrap-around in `IndexedModel` are not modelled.
- StlImport.ReadStlModel: a truncated file yields `None`, whereas the source goes on reading stale buffers. The byte order is little-endian, as on the hosts the tool runs on. The two attribute bytes are skipped and not checked.
- NavGraph: only bit 0 (visited) of a node's flags is modelled. The `main.h` and `application/main.h` graph structures are one class. The recursive search of `main.h` and the stack search of `application/main.h` are two methods of it.
- NavGraph.Graph.InsertNewNode requires the cell to differ from (-1, -1), the "no link" marker; the level grid never produces that cell.
- NavGraph.Graph.SearchForStack: when the target is unreachable, control leaves `searchFor` without a return statement; the model returns an explicit `FellOff` outcome. The returned stack is stated only to hold reachable nodes, and not to be a path.
- TileMap.Click requires the pointer to be inside the 600-pixel-high window, as SDL reports it.
- TileMap.ReadFile: on an invalid token the source prints and exits, so the grid is left unspecified after an error.
- PaintTool.ReadFile: for cells past the end of a short file, the source compares uninitialised integers. In the model those cells keep their colour.
- Variants: a variant is a value and the getters return values, so the references they return, and aliasing through them, are not modelled.
- Several methods are loops split out of one source function, so that each is proved on its own:
  - TileMap.WriteKinds and TileMap.WriteStrips, from `saveFile`;
  - TileMap.EmitAt, from `optimize_collision_entities`;
  - NavGraph.ReadRow and NavGraph.ReadCell, from `gen_ai_graph`;
  - NavGraph.PushLinks, from `searchFor`;
  - Textures.ReadPaintData and Textures.ReadTriple, from the paint loader;
  - AxisGrid.VertexBuffer and AxisGrid.ColourBuffer, from `loadXYGrid`.
- `LevelImport.h`, `FullInit.h`, `Initialization.h`, `Shader.h` and `PlaceableEntity.h` are not part of this model.

## Findings

| source | as written | input that shows it | evidently intended | confidence | as-written member | corrected member |
|---|---|---|---|---|---|---|
| application/lib/SimpleModel.h:464-493 | `(nm)` reads its triangle count with `stoi` and then advances by `i += numt`. A negative count moves the parser backwards. | the tokens `(nm) (nm) -3`: the parser returns to token 0 with the same state and never ends | reject a negative count | not executed | SimpleModel.NegativeCountLoops | SimpleModel.NegativeCountRejected |
| application/lib/VariantType.h:87-120 | every getter tests `flag != FLAG_uint`. On a matching flag it falls off the end without a return. | `getInt` on an int variant raises "requested type 'int' does not match actual type 'int'"; `getUint` on a uint variant returns no value | each getter tests its own flag and returns its member | not executed | Variants.GetterRejectsOwnType | Variants.GetReturnsStored |
