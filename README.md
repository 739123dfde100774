# SimpleJSON exporter core, modelled in Dafny

This project models the scene-to-document pipeline of `SimpleJSONWriter`, the
Maya plug-in that writes a scene of triangulated meshes as one JSON document
(`exporter/plug-ins/SimpleJSON.py`). The Maya scene is replaced by plain
datatypes (`Scene`). A mesh has a name and a sequence of faces. Each face is a
sequence of corners, and each corner holds a vertex index, a normal index and
a UV index. A mesh also has its points, normals, parallel `us`/`vs` arrays,
its connected shading engines and its parent transform.

Modules, one per component of the writer:

- `Options`: the ten component keys and `_parseOptions`.
- `Strings`: `key in s` and `s.rfind(c)`.
- `Rounding`: `round(x, 8)` with Python 2's ties-away-from-zero rule, over exact reals.
- `Flatten`: `_getFaces`, `_getVertices`, `_getNormals`, `_getNormalIndices`, `_getUVIndices` and `_getUVs`.
- `Grouping`: the material-run grouping of `_getGroups`.
- `MaterialIndex`: the `DbgName` name-to-index map and the shading-engine search of `_getMaterialIndex`.
- `Export`: the pipeline as values. It covers the triangulation filter, the dedupe key, geometry and instance records, and the fold of `_exportMeshes` with its lemmas. A geometry record is a map from `FieldKey` (one constructor per JSON key, `position` to `groups`) to its array. The fold takes the outcome of each mesh's geometry export as a sequence, `GeometriesOf`, so its lemmas hold for any outcome of that export.
- `Writer`: the class `SimpleJSONWriter`. Its methods update `options`, `materials`, `geometries`, `instances` and the lazily built `_materialIndices` in place. Each method is specified against the `Export` functions.

Behaviour kept exactly as the code has it:

- The instance `name` is always the full mesh name (`SimpleJSON.py:110`).
  The suffix after the last `_` is computed at line 105 but never used.
- `_getGroups` on a mesh with no faces raises `IndexError` at `matIds[0]`
  (line 161). This ends the whole export and no document is produced. The
  model returns `Failure(IndexError)`, and `Write` returns it.
- Under dedupe, a mesh whose name has no underscore is exported under its
  full name and replaces any geometry stored there. For example, `rock`
  placed after `rock_01` replaces the `rock` geometry. For this reason
  `ExportsFirstOccurrence` assumes that no later underscore-free mesh is
  named exactly the key.
- The `_materialIndices` cache is built on the first lookup and never reset.
  `Write` is specified with the cache the writer held before the call.

## Model

| member | source | states |
|---|---|---|
| Options.ParseOptions | exporter/plug-ins/SimpleJSON.py:94-97 | the dict has exactly the ten component keys, and each is true iff the key occurs as a substring of the option string |
| Strings.Contains | exporter/plug-ins/SimpleJSON.py:97 | `key in s` is true iff `key` occurs in `s` at some position |
| Strings.RFind | exporter/plug-ins/SimpleJSON.py:102 | gives -1 iff the character is absent, otherwise an index holding it with no occurrence after it |
| Rounding.Steps | exporter/plug-ins/SimpleJSON.py:145 | the chosen number of 10^-8 steps is within half a step of the value |
| Rounding.Round | exporter/plug-ins/SimpleJSON.py:144-148 | the rounded value is a multiple of 10^-8 within half a step of the input |
| Rounding.RoundOdd | exporter/plug-ins/SimpleJSON.py:145 | rounding is symmetric about zero |
| Rounding.RoundOnGrid | exporter/plug-ins/SimpleJSON.py:145 | a value already on the 10^-8 grid is unchanged |
| Rounding.RoundIdempotent | exporter/plug-ins/SimpleJSON.py:145 | rounding twice equals rounding once |
| Rounding.RoundTieAwayFromZero | exporter/plug-ins/SimpleJSON.py:145 | an exact tie goes up to the next step (away from zero) |
| Rounding.RoundPos | exporter/plug-ins/SimpleJSON.py:144-145 | a position becomes exactly three rounded numbers x, y, z |
| Rounding.RoundQuat | exporter/plug-ins/SimpleJSON.py:147-148 | a rotation becomes exactly four rounded numbers x, y, z, w |
| Flatten.CornerIndicesLayout | exporter/plug-ins/SimpleJSON.py:212-224 | corner indices have 3 entries per face, and entry 3f+i is the index of face f's corner i |
| Flatten.AllVerticesOfTriangles | exporter/plug-ins/SimpleJSON.py:196-200 | on triangles, concatenating every face's vertex list equals taking corners 0..2 of each face |
| Flatten.GetFaces | exporter/plug-ins/SimpleJSON.py:196-200 | gives the concatenation of the faces' vertex lists; on a triangulated mesh this is 3F entries with entry 3f+i = face f's vertex i |
| Flatten.GetCornerIndices | exporter/plug-ins/SimpleJSON.py:212-224 | the two-level loop over faces and `range(3)` gives 3F entries, with entry 3f+i = the chosen index of face f's corner i |
| Flatten.GetNormalIndices | exporter/plug-ins/SimpleJSON.py:212-217 | 3F entries; entry 3f+i is face f's i-th normal index |
| Flatten.GetUVIndices | exporter/plug-ins/SimpleJSON.py:219-224 | 3F entries; entry 3f+i is face f's i-th UV index |
| Flatten.FlatRoundedLayout | exporter/plug-ins/SimpleJSON.py:202-210 | flattened vectors have 3 entries per vector, and entry 3p+c is coordinate c of vector p, rounded |
| Flatten.GetVertices | exporter/plug-ins/SimpleJSON.py:202-204 | the points give 3 rounded coordinates each, in x, y, z order |
| Flatten.GetNormals | exporter/plug-ins/SimpleJSON.py:206-210 | the normals give 3 rounded coordinates each, in x, y, z order |
| Flatten.InterleaveLayout | exporter/plug-ins/SimpleJSON.py:226-232 | interleaving gives 2·\|us\| entries with entry 2i = us[i] and entry 2i+1 = vs[i] |
| Flatten.GetUVs | exporter/plug-ins/SimpleJSON.py:226-232 | 2·\|us\| entries, with uvs[2i] = us[i] and uvs[2i+1] = vs[i] |
| Grouping.Runs | exporter/plug-ins/SimpleJSON.py:165-181 | the reference runs of a non-empty id sequence are never empty |
| Grouping.ExpandExtend | exporter/plug-ins/SimpleJSON.py:167-168 | growing the last group by one face appends one copy of its material to the expansion |
| Grouping.ExtendLastRun | exporter/plug-ins/SimpleJSON.py:167-168 | a face with the running material extends the last group by 3, and the result is still a run partition |
| Grouping.OpenNewRun | exporter/plug-ins/SimpleJSON.py:168-175 | a face with a different material closes the run and opens a group {3F, 3, id}, and the result is still a run partition |
| Grouping.RunsArePartition | exporter/plug-ins/SimpleJSON.py:150-182 | groups start at 0 and are contiguous up to 3F; starts and counts are multiples of 3 and counts are positive; neighbouring groups differ in material; expanding the groups gives back the per-face ids |
| Grouping.RunsUniform | exporter/plug-ins/SimpleJSON.py:156-162 | when all ids are equal, the runs are the single group {0, 3F, id}, so the fast path agrees with the general scan |
| Grouping.RunsScanStep | exporter/plug-ins/SimpleJSON.py:167-175 | one iteration keeps the scan state: a different id closes the open run and opens one at the current face, an equal id extends the open run |
| Grouping.ScanDone | exporter/plug-ins/SimpleJSON.py:176-181 | after the last face, appending the open run gives exactly the reference runs |
| Grouping.ScanRuns | exporter/plug-ins/SimpleJSON.py:164-181 | the `lastId`/`start` scan produces exactly the reference runs |
| Grouping.GroupRuns | exporter/plug-ins/SimpleJSON.py:153-182 | fails (IndexError) iff there are no faces; otherwise yields the runs, a partition of [0, 3F) that reproduces the ids |
| MaterialIndex.IndexMap | exporter/plug-ins/SimpleJSON.py:185-186 | the keys are exactly the materials' `DbgName`s; each maps to the index of a material with that name, and for duplicate names the last index wins |
| MaterialIndex.IndexMapStep | exporter/plug-ins/SimpleJSON.py:186 | adding the last material's (name, index) pair extends the map of the prefix to the map of the whole |
| MaterialIndex.FirstKnownSpec | exporter/plug-ins/SimpleJSON.py:191-193 | a connected material is found iff one of the names is in the map, and what is found is one of the map's indices |
| MaterialIndex.EngineLookupSpec | exporter/plug-ins/SimpleJSON.py:189-194 | the lookup is not -1 iff some engine holding the face or the mesh has a connected material the map knows; a result other than -1 is one of the map's indices |
| MaterialIndex.MaterialIndexOfRange | exporter/plug-ins/SimpleJSON.py:184-194 | -1 whenever materials are off; otherwise -1 or the export-order index of a material in the name map |
| MaterialIndex.LookupMaterialIndex | exporter/plug-ins/SimpleJSON.py:189-194 | the nested engine and material loops with early return compute the first-match lookup |
| Export.TriangulatedMeshes | exporter/plug-ins/SimpleJSON.py:83-92 | keeps the triangulated meshes in order, and warns with the name of every other mesh |
| Export.TriangulatedMembers | exporter/plug-ins/SimpleJSON.py:83-90 | a mesh is kept iff it is a candidate with only 3-vertex faces; kept and warned meshes together number the candidates |
| Export.TriangulatedAppend | exporter/plug-ins/SimpleJSON.py:84-89 | the filter preserves order: filtering a concatenation concatenates the filtered parts |
| Export.GeometryOf | exporter/plug-ins/SimpleJSON.py:115-129 | raises iff `groups` is on and the mesh has no faces; otherwise the record has position/positionIndices iff vertices, normal/normalIndices iff normals, uv/uvIndices iff uvs, groups iff groups, and no other key; its groups partition the mesh by material run |
| Export.GeometryWithoutGroups | exporter/plug-ins/SimpleJSON.py:117-127 | unfolding helper: with groups off, the record is exactly the gated position, normal and UV arrays |
| Export.GeometryWithGroups | exporter/plug-ins/SimpleJSON.py:128-129 | unfolding helper: with groups on and at least one face, the record adds the runs of the faces' material ids |
| Export.BaseGeometryEntries | exporter/plug-ins/SimpleJSON.py:119-127 | unfolding helper: each enabled pair holds exactly the arrays of its getters: vertices and face vertex lists, rounded normals and normal indices, interleaved UVs and UV indices |
| Export.BaseGeometryLayout | exporter/plug-ins/SimpleJSON.py:119-127 | the record without `groups` has the flat layouts of every enabled array |
| Export.GeometryLayout | exporter/plug-ins/SimpleJSON.py:119-129 | each enabled array of every record built has its flat layout: 3 rounded coordinates per point or normal, 3 indices per face with entry 3f+i from face f's corner i, interleaved UVs |
| Export.GeometryKey | exporter/plug-ins/SimpleJSON.py:101-104 | with dedupe and an underscore, the key is the text before the last underscore; otherwise it is the full name |
| Export.ExportStepSpec | exporter/plug-ins/SimpleJSON.py:101-113 | one mesh raises iff its geometry is exported (no dedupe hit) and that export raises; otherwise it appends one instance {id: key, name: full mesh name}, a dedupe key already present leaves geometries unchanged, and any other mesh stores its geometry under its key, replacing what was there |
| Export.ExportsSnoc | exporter/plug-ins/SimpleJSON.py:100-113 | after a successful prefix, one more mesh is exactly one more step of the loop |
| Export.ExportsLastInstance | exporter/plug-ins/SimpleJSON.py:110-113 | a successful export ends by appending the last mesh's instance to those of the prefix |
| Export.ExportsLastGeometry | exporter/plug-ins/SimpleJSON.py:103-112 | a successful export ends with the last mesh's dedupe skip or its geometry stored under its key |
| Export.ExportsFailureStays | exporter/plug-ins/SimpleJSON.py:99-113 | an exception while exporting one mesh ends the whole export |
| Export.InstanceRecordsLayout | exporter/plug-ins/SimpleJSON.py:110-113 | the instance records number the meshes, and record i has the geometry key of mesh i as id and its full name as name |
| Export.ExportsInstanceRecords | exporter/plug-ins/SimpleJSON.py:99-113 | the instances appended by a successful export are exactly the instance records of the meshes |
| Export.ExportsInstances | exporter/plug-ins/SimpleJSON.py:106-113 | each exported mesh appends exactly one instance, in mesh order; its id is the mesh's geometry key and its name is the full mesh name |
| Export.ExportsKeys | exporter/plug-ins/SimpleJSON.py:103-118 | the geometry keys afterwards are the earlier keys plus the geometry key of every mesh |
| Export.ExportsReferences | exporter/plug-ins/SimpleJSON.py:106-113 | every instance id names a geometry of the document |
| Export.ExportsFirstOccurrence | exporter/plug-ins/SimpleJSON.py:103-110 | under dedupe, the geometry stored for a key is the export outcome of the first mesh with that key; later meshes with the key leave it unchanged, unless a later mesh without an underscore is named exactly the key |
| Export.ExportsLastWins | exporter/plug-ins/SimpleJSON.py:111-113 | without dedupe, the geometry stored under a name is the export outcome of the last mesh with that name |
| Export.ExportsSucceed | exporter/plug-ins/SimpleJSON.py:99-113 | when no mesh's geometry export raises, the whole loop raises nothing |
| Export.SharedBaseName | exporter/plug-ins/SimpleJSON.py:101-110 | meshes sharing one base name (`rock_a`, `rock_b`, `rock_c`) under dedupe give the single geometry `rock`, the first mesh's, and one instance per mesh with id `rock` and its full name |
| Export.DocumentSucceeds | exporter/plug-ins/SimpleJSON.py:128-129 | with groups off, or when every triangulated candidate has a face, the document is produced |
| Export.ExportsFromEmpty | exporter/plug-ins/SimpleJSON.py:99-113 | from empty accumulators there is one instance per mesh, named after it, and each refers to a stored geometry |
| Export.DocumentInstances | exporter/plug-ins/SimpleJSON.py:83-113 | a non-triangulated mesh contributes nothing; there is one instance per triangulated candidate, in order, each referring to a geometry of the document |
| Writer.SimpleJSONWriter.constructor | exporter/plug-ins/SimpleJSON.py:26-31 | a fresh writer has empty accumulators and no material-index cache |
| Writer.SimpleJSONWriter.GetMaterialIndex | exporter/plug-ins/SimpleJSON.py:184-194 | builds the name-to-index cache from the materials if it is absent, and then resolves the face against it (-1 when materials are off) |
| Writer.SimpleJSONWriter.GetGroups | exporter/plug-ins/SimpleJSON.py:150-182 | fails iff the mesh has no faces; otherwise gives the runs of the faces' material ids, which partition [0, 3F); the lookup map is unchanged |
| Writer.SimpleJSONWriter.FillGeometry | exporter/plug-ins/SimpleJSON.py:117-127 | fills the position, normal and UV pairs exactly as their flags say |
| Writer.SimpleJSONWriter.ExportGeometry | exporter/plug-ins/SimpleJSON.py:115-129 | stores the record under the key; if groups raises, the stored record has no `groups`; nothing else changes |
| Writer.SimpleJSONWriter.ExportMeshInstance | exporter/plug-ins/SimpleJSON.py:131-142 | appends exactly one instance record to `instances` |
| Writer.SimpleJSONWriter.ExportMesh | exporter/plug-ins/SimpleJSON.py:101-113 | one iteration of the loop: the accumulators become exactly one step of the specification fold, or the geometry export raised |
| Writer.SimpleJSONWriter.ExportMeshes | exporter/plug-ins/SimpleJSON.py:99-113 | geometries and instances become those of the filter-then-fold specification, or the call reports the exception |
| Writer.SimpleJSONWriter.ExportMaterials | exporter/plug-ins/SimpleJSON.py:234-236 | appends the material records in scene order |
| Writer.SimpleJSONWriter.Write | exporter/plug-ins/SimpleJSON.py:33-56 | the options are parsed; materials are the lambert records iff materials are on, otherwise empty; the result is the assembled document with fixed metadata, or the exception; the material-index cache left behind is the one the export used |

## Left out

- Maya and pymel scene queries (`mesh.faces`, `getPoints`, `getNormals`, `getUVs`, `listConnections`, `sets(isMember=...)`, `getTranslation`/`getRotation`/`getScale`): these are foreign calls, so their results are fields of the `Scene` datatypes. Shading membership is a set of face indices plus a whole-mesh flag.
- Scene traversal and access-mode selection (`_getMeshes` and the first half of `_allMeshes`): these belong to the host scene graph, so the candidate meshes are a parameter.
- Floating point: coordinates are exact reals. `round` is modelled on the exact value and ignores the binary representation of doubles.
- Material export (`_exportMaterial`, `_exportBumpMap`, `_exportDiffuseMap`, `_exportSpecularMap`, `_exportFile`): these read Maya shader attributes and call a filesystem basename. Each lambert arrives as a ready record, and only its `DbgName` is modelled.
- JSON serialisation, the pretty/compact choice and the file write (lines 58-62): these are library calls and I/O, so `Write` returns the document instead.
- `print` messages: only the skip warnings of the triangulation filter are modelled (as a list of names).
- Plugin registration and the translator shell (lines 287-323): host lifecycle code.
- The `demo/` viewer: WebGL setup, network loading and a render loop.
- Writer.SimpleJSONWriter.ExportGeometry: the empty dict that the source stores before filling is not modelled as a separate state. The stored dict is the one being filled, so the model stores the filled record; the result is the same.
- Options.Flag: a missing key reads as false where Python would raise `KeyError`. This cannot happen, because parsing always yields all ten keys.
- Flatten.GetUVs: requires `|vs| >= |us|`, because `vs[i]` must exist; the host returns parallel arrays.
