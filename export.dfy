/**
 * The scene-to-document pipeline of the writer as values: the triangulation
 * filter, dedupe key resolution, geometry and instance records, and the fold
 * of `_exportMeshes` over the exported meshes. The writer class states its
 * in-place updates in terms of these functions.
 */
module Export {
  import opened Wrappers
  import opened Scene
  import opened Strings
  import opened Rounding
  import opened Options
  import opened Flatten
  import opened Grouping
  import opened MaterialIndex

  /** A value of a geometry record: a float array, an index array or the group records. */
  datatype Field = FloatArray(floats: seq<real>) | IndexArray(ints: seq<int>) | GroupList(groups: seq<Group>)

  /** The keys of a geometry record. */
  datatype FieldKey = PositionKey | PositionIndicesKey | NormalKey | NormalIndicesKey | UvKey | UvIndicesKey | GroupsKey
  {
    /** The key as written in the JSON document. */
    function Name(): string
    {
      match this
      case PositionKey => "position"
      case PositionIndicesKey => "positionIndices"
      case NormalKey => "normal"
      case NormalIndicesKey => "normalIndices"
      case UvKey => "uv"
      case UvIndicesKey => "uvIndices"
      case GroupsKey => "groups"
    }
  }

  /** A geometry record: a dict from the keys `position`, `positionIndices`, ... to their arrays. */
  type Geometry = map<FieldKey, Field>

  /** An instance record of `_exportMeshInstance`. */
  datatype Instance = Instance(id: string, name: string, position: seq<real>, scale: seq<real>, quaternion: seq<real>)

  datatype Metadata = Metadata(exporter: string, version: real)

  /** The `output` dict `write` serialises. */
  datatype Document = Document(metadata: Metadata, materials: seq<Material>, instances: seq<Instance>, geometries: map<string, Geometry>)

  /** The two accumulators `_exportMeshes` updates: `geometries` and `instances`. */
  datatype Exported = Exported(geometries: map<string, Geometry>, instances: seq<Instance>)

  /** What the geometry export reads without raising: triangles only, and a `vs[i]` for every `us[i]`. */
  predicate Exportable(m: Mesh)
  {
    IsTriangulated(m) && |m.us| <= |m.vs|
  }

  // ----- Triangulation filter (`_allMeshes`) -----

  /** The meshes that pass the triangulation check, in their original order. */
  function Triangulated(meshes: seq<Mesh>): seq<Mesh>
  {
    if meshes == [] then []
    else
      var rest := Triangulated(meshes[..|meshes| - 1]);
      if IsTriangulated(meshes[|meshes| - 1]) then rest + [meshes[|meshes| - 1]] else rest
  }

  /** The names reported in a skip warning, in order. */
  function SkippedNames(meshes: seq<Mesh>): seq<string>
  {
    if meshes == [] then []
    else
      var rest := SkippedNames(meshes[..|meshes| - 1]);
      if IsTriangulated(meshes[|meshes| - 1]) then rest else rest + [meshes[|meshes| - 1].name]
  }

  /** The filter keeps exactly the triangulated meshes, and each mesh is either kept or warned about. */
  lemma {:induction false} TriangulatedMembers(meshes: seq<Mesh>)
    ensures forall m :: m in Triangulated(meshes) <==> m in meshes && IsTriangulated(m)
    ensures |Triangulated(meshes)| + |SkippedNames(meshes)| == |meshes|
  {
    if meshes != [] {
      var n := |meshes| - 1;
      TriangulatedMembers(meshes[..n]);
      assert meshes == meshes[..n] + [meshes[n]];
    }
  }

  /** The filter preserves order: filtering a concatenation concatenates the filtered parts. */
  lemma {:induction false} TriangulatedAppend(a: seq<Mesh>, b: seq<Mesh>)
    ensures Triangulated(a + b) == Triangulated(a) + Triangulated(b)
  {
    if b != [] {
      var n := |b| - 1;
      assert (a + b)[..|a + b| - 1] == a + b[..n];
      TriangulatedAppend(a, b[..n]);
    } else {
      assert a + b == a;
    }
  }

  /** The filter loop of `_allMeshes`: keeps triangulated meshes and warns about the others. */
  method TriangulatedMeshes(meshes: seq<Mesh>) returns (triMeshes: seq<Mesh>, warnings: seq<string>)
    ensures triMeshes == Triangulated(meshes)
    ensures warnings == SkippedNames(meshes)
    ensures forall i :: 0 <= i < |triMeshes| ==> IsTriangulated(triMeshes[i])
  {
    triMeshes, warnings := [], [];
    for j := 0 to |meshes|
      invariant triMeshes == Triangulated(meshes[..j])
      invariant warnings == SkippedNames(meshes[..j])
      invariant forall i :: 0 <= i < |triMeshes| ==> IsTriangulated(triMeshes[i])
    {
      var mesh := meshes[j];
      assert meshes[..j + 1][..j] == meshes[..j];
      var invalid := exists f | 0 <= f < |mesh.faces| :: mesh.faces[f].PolygonVertexCount() != 3;
      if invalid {
        warnings := warnings + [mesh.name];
      } else {
        triMeshes := triMeshes + [mesh];
      }
    }
    assert meshes[..|meshes|] == meshes;
  }

  // ----- Geometry records (`_exportGeometry`) -----

  /** `_getMaterialIndex` of every face, in face order. */
  function MaterialIds(options: map<string, bool>, indices: map<string, int>, mesh: Mesh): (ids: seq<int>)
    ensures |ids| == |mesh.faces|
  {
    seq(|mesh.faces|, f requires 0 <= f < |mesh.faces| => MaterialIndexOf(Flag(options, "materials"), indices, mesh, f))
  }

  /** The record as filled before `groups`: positions, normals and UVs, each pair behind its flag. */
  function BaseGeometry(options: map<string, bool>, mesh: Mesh): Geometry
    requires Exportable(mesh)
  {
    var withPositions :=
      if Flag(options, "vertices") then
        map[PositionKey := FloatArray(GetVertices(mesh)), PositionIndicesKey := IndexArray(AllVertices(mesh.faces))]
      else map[];
    var withNormals :=
      if Flag(options, "normals") then
        withPositions[NormalKey := FloatArray(FlatRounded(mesh.normals))][NormalIndicesKey := IndexArray(CornerIndices(mesh.faces, Normal))]
      else withPositions;
    if Flag(options, "uvs") then
      withNormals[UvKey := FloatArray(Interleave(mesh.us, mesh.vs))][UvIndicesKey := IndexArray(CornerIndices(mesh.faces, UV))]
    else withNormals
  }

  /** The keys a geometry record has under the given flags. */
  predicate GatedKey(options: map<string, bool>, key: FieldKey)
  {
    ((key == PositionKey || key == PositionIndicesKey) && Flag(options, "vertices")) ||
    ((key == NormalKey || key == NormalIndicesKey) && Flag(options, "normals")) ||
    ((key == UvKey || key == UvIndicesKey) && Flag(options, "uvs")) ||
    (key == GroupsKey && Flag(options, "groups"))
  }

  /**
   * The record `_exportGeometry` builds. Each pair of keys is present exactly
   * when its flag is set, and nothing else is; `groups` raises `IndexError` on
   * a mesh without faces.
   */
  function GeometryOf(options: map<string, bool>, indices: map<string, int>, mesh: Mesh): (r: Result<Geometry>)
    requires Exportable(mesh)
    ensures r.Failure? <==> Flag(options, "groups") && |mesh.faces| == 0
    ensures r.Success? ==> forall key :: key in r.value <==> GatedKey(options, key)
    ensures r.Success? && Flag(options, "groups") ==>
      GroupsKey in r.value && r.value[GroupsKey].GroupList? && IsRunPartition(r.value[GroupsKey].groups, MaterialIds(options, indices, mesh))
  {
    var base := BaseGeometry(options, mesh);
    if !Flag(options, "groups") then Success(base)
    else if |mesh.faces| == 0 then Failure(IndexError)
    else
      var ids := MaterialIds(options, indices, mesh);
      RunsArePartition(ids);
      Success(base[GroupsKey := GroupList(Runs(ids))])
  }

  /** Without `groups`, the record is the positions, normals and UVs alone. */
  lemma GeometryWithoutGroups(options: map<string, bool>, indices: map<string, int>, mesh: Mesh)
    requires Exportable(mesh) && !Flag(options, "groups")
    ensures GeometryOf(options, indices, mesh) == Success(BaseGeometry(options, mesh))
  {
  }

  /** With `groups` and at least one face, `groups` holds the runs of the faces' material ids. */
  lemma GeometryWithGroups(options: map<string, bool>, indices: map<string, int>, mesh: Mesh)
    requires Exportable(mesh) && Flag(options, "groups") && |mesh.faces| > 0
    ensures GeometryOf(options, indices, mesh)
         == Success(BaseGeometry(options, mesh)[GroupsKey := GroupList(Runs(MaterialIds(options, indices, mesh)))])
  {
  }

  /** The arrays of the base record, pair by pair. */
  lemma BaseGeometryEntries(options: map<string, bool>, mesh: Mesh)
    requires Exportable(mesh)
    ensures var g := BaseGeometry(options, mesh);
      (Flag(options, "vertices") ==>
        g[PositionKey] == FloatArray(GetVertices(mesh)) && g[PositionIndicesKey] == IndexArray(AllVertices(mesh.faces))) &&
      (Flag(options, "normals") ==>
        g[NormalKey] == FloatArray(FlatRounded(mesh.normals)) && g[NormalIndicesKey] == IndexArray(CornerIndices(mesh.faces, Normal))) &&
      (Flag(options, "uvs") ==>
        g[UvKey] == FloatArray(Interleave(mesh.us, mesh.vs)) && g[UvIndicesKey] == IndexArray(CornerIndices(mesh.faces, UV)))
  {
  }

  /** The flat layouts of a geometry record's arrays, as consumers index into them. */
  ghost predicate LaidOut(options: map<string, bool>, g: Geometry, mesh: Mesh)
    requires Exportable(mesh)
  {
    (Flag(options, "vertices") ==>
      PositionKey in g && g[PositionKey] == FloatArray(GetVertices(mesh)) && PerCoordinate(g[PositionKey].floats, mesh.points) &&
      PositionIndicesKey in g && g[PositionIndicesKey].IndexArray? && PerCorner(g[PositionIndicesKey].ints, mesh.faces, Position)) &&
    (Flag(options, "normals") ==>
      NormalKey in g && g[NormalKey].FloatArray? && PerCoordinate(g[NormalKey].floats, mesh.normals) &&
      NormalIndicesKey in g && g[NormalIndicesKey].IndexArray? && PerCorner(g[NormalIndicesKey].ints, mesh.faces, Normal)) &&
    (Flag(options, "uvs") ==>
      UvKey in g && g[UvKey].FloatArray? && PerUV(g[UvKey].floats, mesh.us, mesh.vs) &&
      UvIndicesKey in g && g[UvIndicesKey].IndexArray? && PerCorner(g[UvIndicesKey].ints, mesh.faces, UV))
  }

  lemma BaseGeometryLayout(options: map<string, bool>, mesh: Mesh)
    requires Exportable(mesh)
    ensures LaidOut(options, BaseGeometry(options, mesh), mesh)
  {
    BaseGeometryEntries(options, mesh);
    if Flag(options, "vertices") {
      AllVerticesOfTriangles(mesh.faces);
      CornerIndicesLayout(mesh.faces, Position);
    }
    if Flag(options, "normals") {
      CornerIndicesLayout(mesh.faces, Normal);
      FlatRoundedLayout(mesh.normals);
    }
    if Flag(options, "uvs") {
      CornerIndicesLayout(mesh.faces, UV);
      InterleaveLayout(mesh.us, mesh.vs);
    }
  }

  /** The arrays of every record `_exportGeometry` builds have the flat layouts. */
  lemma GeometryLayout(options: map<string, bool>, indices: map<string, int>, mesh: Mesh)
    requires Exportable(mesh) && GeometryOf(options, indices, mesh).Success?
    ensures LaidOut(options, GeometryOf(options, indices, mesh).value, mesh)
  {
    var base := BaseGeometry(options, mesh);
    BaseGeometryLayout(options, mesh);
    if Flag(options, "groups") {
      GeometryWithGroups(options, indices, mesh);
      var g := base[GroupsKey := GroupList(Runs(MaterialIds(options, indices, mesh)))];
      assert forall k :: k in base && k != GroupsKey ==> k in g && g[k] == base[k];
    } else {
      GeometryWithoutGroups(options, indices, mesh);
    }
  }

  // ----- Instances and dedupe (`_exportMeshes`, `_exportMeshInstance`) -----

  /** The record `_exportMeshInstance` appends: rounded world translation and rotation, unrounded scale. */
  function InstanceOf(mesh: Mesh, geometryName: string, instanceName: string): Instance
  {
    var t := mesh.parent;
    Instance(geometryName, instanceName, RoundPos(t.translation), [t.scale.x, t.scale.y, t.scale.z], RoundQuat(t.rotation))
  }

  /**
   * The geometry key of a mesh: with dedupe on and an underscore in the name,
   * the text before the last underscore; otherwise the whole name.
   */
  function GeometryKey(name: string, dedupe: bool): (key: string)
    ensures !dedupe || '_' !in name ==> key == name
    ensures dedupe && '_' in name ==>
      |key| < |name| && name[..|key|] == key && name[|key|] == '_' && '_' !in name[|key| + 1..]
  {
    var underIdx := RFind(name, '_');
    if dedupe && underIdx != -1 then name[..underIdx] else name
  }

  /**
   * One iteration of `_exportMeshes`. `geom` is what `_exportGeometry` builds
   * for `mesh`, or the exception it raises; it is consulted only when the
   * geometry is exported.
   */
  function ExportStep(options: map<string, bool>, s: Exported, mesh: Mesh, geom: Result<Geometry>): Result<Exported>
  {
    var name := mesh.name;
    var underIdx := RFind(name, '_');
    if Flag(options, "dedupe") && underIdx != -1 then
      var key := name[..underIdx];
      var instances := s.instances + [InstanceOf(mesh, key, name)];
      if key !in s.geometries then
        match geom
        case Success(g) => Success(Exported(s.geometries[key := g], instances))
        case Failure(e) => Failure(e)
      else
        Success(Exported(s.geometries, instances))
    else
      match geom
      case Success(g) => Success(Exported(s.geometries[name := g], s.instances + [InstanceOf(mesh, name, name)]))
      case Failure(e) => Failure(e)
  }

  /**
   * One mesh raises exactly when its geometry is exported and the export
   * raises. Otherwise it appends one instance named after the full mesh name
   * and keyed by its geometry key; a mesh whose dedupe key is already present
   * leaves the geometries unchanged, and any other mesh stores its geometry
   * under its key, replacing what was there.
   */
  lemma ExportStepSpec(options: map<string, bool>, s: Exported, mesh: Mesh, geom: Result<Geometry>)
    ensures var dedupe := Flag(options, "dedupe");
      var key := GeometryKey(mesh.name, dedupe);
      var skipped := dedupe && '_' in mesh.name && key in s.geometries;
      (ExportStep(options, s, mesh, geom).Failure? <==> !skipped && geom.Failure?) &&
      (ExportStep(options, s, mesh, geom).Success? ==>
        var r := ExportStep(options, s, mesh, geom).value;
        r.instances == s.instances + [InstanceOf(mesh, key, mesh.name)] &&
        if skipped then r.geometries == s.geometries
        else geom.Success? && r.geometries == s.geometries[key := geom.value])
  {
  }

  /**
   * `_exportMeshes` over `meshes`, starting from `init`, where `geoms[i]` is
   * the outcome of exporting the geometry of `meshes[i]`; the first exception
   * ends the export.
   */
  function Exports(options: map<string, bool>, geoms: seq<Result<Geometry>>, init: Exported, meshes: seq<Mesh>): Result<Exported>
    requires |geoms| == |meshes|
  {
    if meshes == [] then Success(init)
    else
      var n := |meshes| - 1;
      match Exports(options, geoms[..n], init, meshes[..n])
      case Failure(e) => Failure(e)
      case Success(s) => ExportStep(options, s, meshes[n], geoms[n])
  }

  /** A successful export of `meshes` is a successful export of all but the last, then one step. */
  lemma ExportsUnfold(options: map<string, bool>, geoms: seq<Result<Geometry>>, init: Exported, meshes: seq<Mesh>)
    requires |geoms| == |meshes| > 0 && Exports(options, geoms, init, meshes).Success?
    ensures var n := |meshes| - 1;
      Exports(options, geoms[..n], init, meshes[..n]).Success? &&
      ExportStep(options, Exports(options, geoms[..n], init, meshes[..n]).value, meshes[n], geoms[n])
        == Exports(options, geoms, init, meshes)
  {
  }

  /** Exporting one more mesh after a successful prefix is one more step. */
  lemma ExportsSnoc(options: map<string, bool>, geoms: seq<Result<Geometry>>, init: Exported, meshes: seq<Mesh>, i: nat)
    requires |geoms| == |meshes| && i < |meshes|
    requires Exports(options, geoms[..i], init, meshes[..i]).Success?
    ensures Exports(options, geoms[..i + 1], init, meshes[..i + 1]) ==
      ExportStep(options, Exports(options, geoms[..i], init, meshes[..i]).value, meshes[i], geoms[i])
  {
    assert meshes[..i + 1][..i] == meshes[..i];
    assert geoms[..i + 1][..i] == geoms[..i];
  }

  /** An exception while exporting a prefix of the meshes ends the whole export. */
  lemma {:induction false} ExportsFailureStays(options: map<string, bool>, geoms: seq<Result<Geometry>>, init: Exported, meshes: seq<Mesh>, n: nat)
    requires |geoms| == |meshes| && n <= |meshes|
    requires Exports(options, geoms[..n], init, meshes[..n]).Failure?
    ensures Exports(options, geoms, init, meshes).Failure?
  {
    if n < |meshes| {
      var m := |meshes| - 1;
      assert meshes[..m][..n] == meshes[..n];
      assert geoms[..m][..n] == geoms[..n];
      ExportsFailureStays(options, geoms[..m], init, meshes[..m], n);
    } else {
      assert meshes[..n] == meshes;
      assert geoms[..n] == geoms;
    }
  }

  /** The keys a run of `_exportMeshes` leaves: the initial ones plus the geometry key of every mesh. */
  ghost function KeysAfter(init: Exported, meshes: seq<Mesh>, dedupe: bool): set<string>
  {
    init.geometries.Keys + set i | 0 <= i < |meshes| :: GeometryKey(meshes[i].name, dedupe)
  }

  lemma KeysAfterHas(init: Exported, meshes: seq<Mesh>, dedupe: bool, j: nat)
    requires j < |meshes|
    ensures GeometryKey(meshes[j].name, dedupe) in KeysAfter(init, meshes, dedupe)
  {
  }

  lemma KeysAfterStep(init: Exported, meshes: seq<Mesh>, dedupe: bool)
    requires |meshes| > 0
    ensures KeysAfter(init, meshes, dedupe)
         == KeysAfter(init, meshes[..|meshes| - 1], dedupe) + {GeometryKey(meshes[|meshes| - 1].name, dedupe)}
  {
    var n := |meshes| - 1;
    var pre := meshes[..n];
    forall x | x in KeysAfter(init, meshes, dedupe)
      ensures x in KeysAfter(init, pre, dedupe) + {GeometryKey(meshes[n].name, dedupe)}
    {
      if x !in init.geometries.Keys && x != GeometryKey(meshes[n].name, dedupe) {
        var i :| 0 <= i < |meshes| && GeometryKey(meshes[i].name, dedupe) == x;
        assert pre[i] == meshes[i];
      }
    }
    forall x | x in KeysAfter(init, pre, dedupe) ensures x in KeysAfter(init, meshes, dedupe) {
      if x !in init.geometries.Keys {
        var i :| 0 <= i < |pre| && GeometryKey(pre[i].name, dedupe) == x;
        assert pre[i] == meshes[i];
      }
    }
  }

  /** A successful export of `meshes` ends by appending the last mesh's instance to those of the prefix. */
  lemma ExportsLastInstance(options: map<string, bool>, geoms: seq<Result<Geometry>>, init: Exported, meshes: seq<Mesh>)
    requires |geoms| == |meshes| > 0 && Exports(options, geoms, init, meshes).Success?
    ensures var n := |meshes| - 1;
      Exports(options, geoms[..n], init, meshes[..n]).Success? &&
      Exports(options, geoms, init, meshes).value.instances
        == Exports(options, geoms[..n], init, meshes[..n]).value.instances
           + [InstanceOf(meshes[n], GeometryKey(meshes[n].name, Flag(options, "dedupe")), meshes[n].name)]
  {
    var n := |meshes| - 1;
    ExportsUnfold(options, geoms, init, meshes);
    ExportStepSpec(options, Exports(options, geoms[..n], init, meshes[..n]).value, meshes[n], geoms[n]);
  }

  /** A successful export of `meshes` ends with the last mesh's geometry step applied to the geometries of the prefix. */
  lemma ExportsLastGeometry(options: map<string, bool>, geoms: seq<Result<Geometry>>, init: Exported, meshes: seq<Mesh>)
    requires |geoms| == |meshes| > 0 && Exports(options, geoms, init, meshes).Success?
    ensures var n := |meshes| - 1;
      var dedupe := Flag(options, "dedupe");
      var key := GeometryKey(meshes[n].name, dedupe);
      Exports(options, geoms[..n], init, meshes[..n]).Success? &&
      var s := Exports(options, geoms[..n], init, meshes[..n]).value;
      var r := Exports(options, geoms, init, meshes).value;
      if dedupe && '_' in meshes[n].name && key in s.geometries then r.geometries == s.geometries
      else geoms[n].Success? && r.geometries == s.geometries[key := geoms[n].value]
  {
    var n := |meshes| - 1;
    ExportsUnfold(options, geoms, init, meshes);
    ExportStepSpec(options, Exports(options, geoms[..n], init, meshes[..n]).value, meshes[n], geoms[n]);
  }

  /** The instance records of `meshes`, one per mesh in order: geometry key as `id`, full name as `name`. */
  function InstanceRecords(meshes: seq<Mesh>, dedupe: bool): (r: seq<Instance>)
  {
    if meshes == [] then []
    else
      var last := meshes[|meshes| - 1];
      InstanceRecords(meshes[..|meshes| - 1], dedupe) + [InstanceOf(last, GeometryKey(last.name, dedupe), last.name)]
  }

  lemma {:induction false} InstanceRecordsLayout(meshes: seq<Mesh>, dedupe: bool)
    ensures var r := InstanceRecords(meshes, dedupe);
      |r| == |meshes| &&
      forall i :: 0 <= i < |meshes| ==> r[i] == InstanceOf(meshes[i], GeometryKey(meshes[i].name, dedupe), meshes[i].name)
  {
    if meshes != [] {
      var n := |meshes| - 1;
      var pre := meshes[..n];
      InstanceRecordsLayout(pre, dedupe);
      var r := InstanceRecords(meshes, dedupe);
      forall i | 0 <= i < n
        ensures r[i] == InstanceOf(meshes[i], GeometryKey(meshes[i].name, dedupe), meshes[i].name)
      {
        assert pre[i] == meshes[i];
      }
    }
  }

  /** `_exportMeshes` appends exactly the instance records of the meshes. */
  lemma {:induction false} ExportsInstanceRecords(options: map<string, bool>, geoms: seq<Result<Geometry>>, init: Exported, meshes: seq<Mesh>)
    requires |geoms| == |meshes|
    requires Exports(options, geoms, init, meshes).Success?
    ensures Exports(options, geoms, init, meshes).value.instances
      == init.instances + InstanceRecords(meshes, Flag(options, "dedupe"))
  {
    if meshes != [] {
      var n := |meshes| - 1;
      ExportsLastInstance(options, geoms, init, meshes);
      ExportsInstanceRecords(options, geoms[..n], init, meshes[..n]);
    }
  }

  /** Each mesh appends exactly one instance, in mesh order, whose `id` is its geometry key and whose `name` is the full mesh name. */
  lemma ExportsInstances(options: map<string, bool>, geoms: seq<Result<Geometry>>, init: Exported, meshes: seq<Mesh>)
    requires |geoms| == |meshes|
    requires Exports(options, geoms, init, meshes).Success?
    ensures var r := Exports(options, geoms, init, meshes).value;
      |r.instances| == |init.instances| + |meshes| &&
      r.instances[..|init.instances|] == init.instances &&
      forall i :: 0 <= i < |meshes| ==>
        r.instances[|init.instances| + i] ==
          InstanceOf(meshes[i], GeometryKey(meshes[i].name, Flag(options, "dedupe")), meshes[i].name)
  {
    var dedupe := Flag(options, "dedupe");
    ExportsInstanceRecords(options, geoms, init, meshes);
    InstanceRecordsLayout(meshes, dedupe);
    var r := Exports(options, geoms, init, meshes).value;
    assert r.instances[..|init.instances|] == init.instances;
  }

  /** The geometry keys after `_exportMeshes` are the initial ones plus every mesh's geometry key. */
  lemma {:induction false} ExportsKeys(options: map<string, bool>, geoms: seq<Result<Geometry>>, init: Exported, meshes: seq<Mesh>)
    requires |geoms| == |meshes|
    requires Exports(options, geoms, init, meshes).Success?
    ensures Exports(options, geoms, init, meshes).value.geometries.Keys == KeysAfter(init, meshes, Flag(options, "dedupe"))
  {
    var dedupe := Flag(options, "dedupe");
    if meshes != [] {
      var n := |meshes| - 1;
      ExportsLastGeometry(options, geoms, init, meshes);
      ExportsKeys(options, geoms[..n], init, meshes[..n]);
      KeysAfterStep(init, meshes, dedupe);
    } else {
      assert KeysAfter(init, meshes, dedupe) == init.geometries.Keys;
    }
  }

  /** Every instance refers to a geometry of the document: instance ids are geometry keys. */
  lemma ExportsReferences(options: map<string, bool>, geoms: seq<Result<Geometry>>, init: Exported, meshes: seq<Mesh>)
    requires |geoms| == |meshes|
    requires forall i :: 0 <= i < |init.instances| ==> init.instances[i].id in init.geometries
    requires Exports(options, geoms, init, meshes).Success?
    ensures var r := Exports(options, geoms, init, meshes).value;
      forall i :: 0 <= i < |r.instances| ==> r.instances[i].id in r.geometries
  {
    ExportsInstances(options, geoms, init, meshes);
    ExportsKeys(options, geoms, init, meshes);
    var r := Exports(options, geoms, init, meshes).value;
    ReferencesOf(r, init, meshes, Flag(options, "dedupe"));
  }

  /** The counting argument behind `ExportsReferences`, stated on the accumulators alone. */
  lemma ReferencesOf(r: Exported, init: Exported, meshes: seq<Mesh>, dedupe: bool)
    requires forall i :: 0 <= i < |init.instances| ==> init.instances[i].id in init.geometries
    requires |r.instances| == |init.instances| + |meshes| && r.instances[..|init.instances|] == init.instances
    requires forall i :: 0 <= i < |meshes| ==> r.instances[|init.instances| + i].id == GeometryKey(meshes[i].name, dedupe)
    requires r.geometries.Keys == KeysAfter(init, meshes, dedupe)
    ensures forall i :: 0 <= i < |r.instances| ==> r.instances[i].id in r.geometries
  {
    forall i | 0 <= i < |r.instances| ensures r.instances[i].id in r.geometries {
      if i < |init.instances| {
        assert r.instances[..|init.instances|][i] == init.instances[i];
      } else {
        var j := i - |init.instances|;
        KeysAfterHas(init, meshes, dedupe, j);
        assert r.instances[|init.instances| + j].id == GeometryKey(meshes[j].name, dedupe);
      }
    }
  }

  /**
   * Under dedupe, the geometry stored for a key is the one of the first mesh
   * with that key: later meshes with the key leave it unchanged. The one
   * exception is a later mesh without an underscore named exactly the key,
   * which is exported under its full name and replaces the entry.
   */
  lemma {:induction false} ExportsFirstOccurrence(options: map<string, bool>, geoms: seq<Result<Geometry>>, init: Exported, meshes: seq<Mesh>, i: nat)
    requires |geoms| == |meshes|
    requires Flag(options, "dedupe")
    requires Exports(options, geoms, init, meshes).Success?
    requires i < |meshes|
    requires forall j :: i < j < |meshes| && '_' !in meshes[j].name ==> meshes[j].name != GeometryKey(meshes[i].name, true)
    requires GeometryKey(meshes[i].name, true) !in init.geometries
    requires forall j :: 0 <= j < i ==> GeometryKey(meshes[j].name, true) != GeometryKey(meshes[i].name, true)
    ensures var key := GeometryKey(meshes[i].name, true);
      var r := Exports(options, geoms, init, meshes).value;
      geoms[i].Success? && key in r.geometries && r.geometries[key] == geoms[i].value
  {
    var n := |meshes| - 1;
    var key := GeometryKey(meshes[i].name, true);
    ExportsLastGeometry(options, geoms, init, meshes);
    if i == n {
      ExportsKeys(options, geoms[..n], init, meshes[..n]);
      assert key !in Exports(options, geoms[..n], init, meshes[..n]).value.geometries;
    } else {
      forall j | 0 <= j < i ensures GeometryKey(meshes[..n][j].name, true) != GeometryKey(meshes[..n][i].name, true) {
        assert meshes[..n][j] == meshes[j];
      }
      forall j | i < j < n && '_' !in meshes[..n][j].name ensures meshes[..n][j].name != GeometryKey(meshes[..n][i].name, true) {
        assert meshes[..n][j] == meshes[j];
      }
      assert meshes[..n][i] == meshes[i] && geoms[..n][i] == geoms[i];
      ExportsFirstOccurrence(options, geoms[..n], init, meshes[..n], i);
    }
  }

  /** Without dedupe every mesh is exported under its full name, so the last mesh with a name wins. */
  lemma {:induction false} ExportsLastWins(options: map<string, bool>, geoms: seq<Result<Geometry>>, init: Exported, meshes: seq<Mesh>, i: nat)
    requires |geoms| == |meshes|
    requires !Flag(options, "dedupe")
    requires Exports(options, geoms, init, meshes).Success?
    requires i < |meshes|
    requires forall j :: i < j < |meshes| ==> meshes[j].name != meshes[i].name
    ensures var r := Exports(options, geoms, init, meshes).value;
      geoms[i].Success? && meshes[i].name in r.geometries && r.geometries[meshes[i].name] == geoms[i].value
  {
    var n := |meshes| - 1;
    ExportsLastGeometry(options, geoms, init, meshes);
    assert GeometryKey(meshes[n].name, false) == meshes[n].name;
    if i < n {
      forall j | i < j < n ensures meshes[..n][j].name != meshes[..n][i].name {
        assert meshes[..n][j] == meshes[j];
      }
      assert meshes[..n][i] == meshes[i] && geoms[..n][i] == geoms[i];
      ExportsLastWins(options, geoms[..n], init, meshes[..n], i);
    }
  }

  /** When no mesh's geometry export raises, `_exportMeshes` raises nothing. */
  lemma {:induction false} ExportsSucceed(options: map<string, bool>, geoms: seq<Result<Geometry>>, init: Exported, meshes: seq<Mesh>)
    requires |geoms| == |meshes|
    requires forall i :: 0 <= i < |geoms| ==> geoms[i].Success?
    ensures Exports(options, geoms, init, meshes).Success?
  {
    if meshes != [] {
      var n := |meshes| - 1;
      ExportsSucceed(options, geoms[..n], init, meshes[..n]);
      ExportStepSpec(options, Exports(options, geoms[..n], init, meshes[..n]).value, meshes[n], geoms[n]);
    }
  }

  /**
   * Meshes sharing one base name (`rock_a`, `rock_b`, `rock_c`) exported with
   * dedupe from empty accumulators give one geometry, that of the first mesh,
   * and one instance per mesh, each referring to it.
   */
  lemma SharedBaseName(options: map<string, bool>, geoms: seq<Result<Geometry>>, meshes: seq<Mesh>, key: string)
    requires |geoms| == |meshes|
    requires Flag(options, "dedupe") && |meshes| > 0
    requires forall j :: 0 <= j < |meshes| ==> '_' in meshes[j].name && GeometryKey(meshes[j].name, true) == key
    requires Exports(options, geoms, Exported(map[], []), meshes).Success?
    ensures var r := Exports(options, geoms, Exported(map[], []), meshes).value;
      r.geometries.Keys == {key} &&
      geoms[0].Success? && r.geometries[key] == geoms[0].value &&
      |r.instances| == |meshes| &&
      forall j :: 0 <= j < |meshes| ==> r.instances[j].id == key && r.instances[j].name == meshes[j].name
  {
    var init := Exported(map[], []);
    ExportsInstances(options, geoms, init, meshes);
    ExportsKeys(options, geoms, init, meshes);
    ExportsFirstOccurrence(options, geoms, init, meshes, 0);
    var r := Exports(options, geoms, init, meshes).value;
    assert KeysAfter(init, meshes, true) == {key} by {
      KeysAfterHas(init, meshes, true, 0);
    }
    forall j | 0 <= j < |meshes| ensures r.instances[j].id == key && r.instances[j].name == meshes[j].name {
      assert r.instances[|init.instances| + j] == r.instances[j];
    }
  }

  // ----- The document (`write`) -----

  /** The filtered meshes are exportable whenever every candidate has parallel UV arrays. */
  lemma TriangulatedExportable(candidates: seq<Mesh>)
    requires forall i :: 0 <= i < |candidates| ==> |candidates[i].us| <= |candidates[i].vs|
    ensures forall i :: 0 <= i < |Triangulated(candidates)| ==> Exportable(Triangulated(candidates)[i])
  {
    TriangulatedMembers(candidates);
    forall i | 0 <= i < |Triangulated(candidates)| ensures Exportable(Triangulated(candidates)[i]) {
      var m := Triangulated(candidates)[i];
      assert m in Triangulated(candidates);
    }
  }

  /** The outcome of `_exportGeometry` for each mesh, against a fixed name-to-index map. */
  function GeometriesOf(options: map<string, bool>, indices: map<string, int>, meshes: seq<Mesh>): seq<Result<Geometry>>
    requires forall i :: 0 <= i < |meshes| ==> Exportable(meshes[i])
  {
    seq(|meshes|, i requires 0 <= i < |meshes| => GeometryOf(options, indices, meshes[i]))
  }

  /** `_exportMeshes` as a whole: the filter of `_allMeshes`, then one step per triangulated mesh. */
  function ExportMeshesOf(options: map<string, bool>, indices: map<string, int>, init: Exported, candidates: seq<Mesh>): Result<Exported>
    requires forall i :: 0 <= i < |candidates| ==> |candidates[i].us| <= |candidates[i].vs|
  {
    TriangulatedExportable(candidates);
    var meshes := Triangulated(candidates);
    Exports(options, GeometriesOf(options, indices, meshes), init, meshes)
  }

  /**
   * The document `write` serialises: fixed metadata, the exported materials,
   * and the instances and geometries of `_exportMeshes` over the triangulated
   * candidates, or the exception that ends the export.
   */
  function ExportDocument(options: map<string, bool>, indices: map<string, int>, materials: seq<Material>, candidates: seq<Mesh>): Result<Document>
    requires forall i :: 0 <= i < |candidates| ==> |candidates[i].us| <= |candidates[i].vs|
  {
    match ExportMeshesOf(options, indices, Exported(map[], []), candidates)
    case Success(e) => Success(Document(Metadata("maya-json-export", 0.0), materials, e.instances, e.geometries))
    case Failure(err) => Failure(err)
  }

  /**
   * Without `groups`, or when every triangulated candidate has a face, the
   * document is produced.
   */
  lemma DocumentSucceeds(options: map<string, bool>, indices: map<string, int>, materials: seq<Material>, candidates: seq<Mesh>)
    requires forall i :: 0 <= i < |candidates| ==> |candidates[i].us| <= |candidates[i].vs|
    requires !Flag(options, "groups") || forall m :: m in candidates && IsTriangulated(m) ==> |m.faces| > 0
    ensures ExportDocument(options, indices, materials, candidates).Success?
  {
    TriangulatedExportable(candidates);
    TriangulatedMembers(candidates);
    var meshes := Triangulated(candidates);
    var geoms := GeometriesOf(options, indices, meshes);
    forall i | 0 <= i < |geoms| ensures geoms[i].Success? {
      assert meshes[i] in meshes;
    }
    ExportsSucceed(options, geoms, Exported(map[], []), meshes);
  }

  /** From empty accumulators: one instance per mesh, named after it, each referring to a stored geometry. */
  lemma ExportsFromEmpty(options: map<string, bool>, geoms: seq<Result<Geometry>>, meshes: seq<Mesh>)
    requires |geoms| == |meshes|
    requires Exports(options, geoms, Exported(map[], []), meshes).Success?
    ensures var r := Exports(options, geoms, Exported(map[], []), meshes).value;
      |r.instances| == |meshes| &&
      forall i :: 0 <= i < |r.instances| ==> r.instances[i].name == meshes[i].name && r.instances[i].id in r.geometries
  {
    var init := Exported(map[], []);
    var dedupe := Flag(options, "dedupe");
    ExportsInstanceRecords(options, geoms, init, meshes);
    InstanceRecordsLayout(meshes, dedupe);
    ExportsKeys(options, geoms, init, meshes);
    var r := Exports(options, geoms, init, meshes).value;
    assert r.instances == InstanceRecords(meshes, dedupe);
    forall i | 0 <= i < |r.instances|
      ensures r.instances[i].name == meshes[i].name && r.instances[i].id in r.geometries
    {
      KeysAfterHas(init, meshes, dedupe, i);
    }
  }

  /**
   * A mesh that is not triangulated contributes nothing: the document has one
   * instance per triangulated candidate, named after it, and every instance
   * refers to one of the document's geometries.
   */
  lemma DocumentInstances(options: map<string, bool>, indices: map<string, int>, materials: seq<Material>, candidates: seq<Mesh>)
    requires forall i :: 0 <= i < |candidates| ==> |candidates[i].us| <= |candidates[i].vs|
    requires ExportDocument(options, indices, materials, candidates).Success?
    ensures var d := ExportDocument(options, indices, materials, candidates).value;
      |d.instances| == |Triangulated(candidates)| &&
      (forall i :: 0 <= i < |d.instances| ==>
        d.instances[i].name == Triangulated(candidates)[i].name && d.instances[i].id in d.geometries) &&
      (forall m :: m in candidates && !IsTriangulated(m) ==> m !in Triangulated(candidates))
  {
    TriangulatedExportable(candidates);
    TriangulatedMembers(candidates);
    var tri := Triangulated(candidates);
    ExportsFromEmpty(options, GeometriesOf(options, indices, tri), tri);
  }
}
