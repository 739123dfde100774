/**
 * `SimpleJSONWriter`: the export run that parses the options, exports the
 * materials, then fills `geometries` and `instances` mesh by mesh, updating
 * its accumulators in place.
 */
module Writer {
  import opened Wrappers
  import opened Scene
  import opened Strings
  import opened Options
  import opened Flatten
  import opened Grouping
  import opened MaterialIndex
  import opened Export

  class SimpleJSONWriter {
    var options: map<string, bool>
    var materials: seq<Material>
    var geometries: map<string, Geometry>
    var instances: seq<Instance>
    /** `_materialIndices`: absent until the first `_getMaterialIndex` call builds it. */
    var materialIndices: Option<map<string, int>>

    constructor ()
      ensures options == map[] && materials == [] && geometries == map[] && instances == []
      ensures materialIndices == None
    {
      options, materials, geometries, instances := map[], [], map[], [];
      materialIndices := None;
    }

    /** The name-to-index map material lookups use: the cached one, or the one the next lookup builds. */
    ghost function Lookup(): map<string, int>
      reads this`materialIndices, this`materials
    {
      IndicesFor(materialIndices, materials)
    }

    /** `_getMaterialIndex`: builds the cache on first use, then resolves face number `face` of `mesh`. */
    method GetMaterialIndex(mesh: Mesh, face: nat) returns (r: int)
      modifies this`materialIndices
      ensures materialIndices == Some(old(Lookup()))
      ensures r == MaterialIndexOf(Flag(options, "materials"), old(Lookup()), mesh, face)
    {
      if materialIndices.None? {
        materialIndices := Some(IndexMap(materials));
      }
      if Flag(options, "materials") {
        r := LookupMaterialIndex(materialIndices.value, mesh, face);
      } else {
        r := -1;
      }
    }

    /** `_getGroups`: the material id of every face, then the runs of equal ids. */
    method GetGroups(mesh: Mesh) returns (r: Result<seq<Group>>)
      modifies this`materialIndices
      ensures Lookup() == old(Lookup())
      ensures materialIndices == if |mesh.faces| == 0 then old(materialIndices) else Some(old(Lookup()))
      ensures r.Failure? <==> |mesh.faces| == 0
      ensures r.Success? ==>
        r.value == Runs(MaterialIds(options, old(Lookup()), mesh)) &&
        IsRunPartition(r.value, MaterialIds(options, old(Lookup()), mesh))
    {
      var matIds := [];
      for f := 0 to |mesh.faces|
        invariant matIds == MaterialIds(options, old(Lookup()), mesh)[..f]
        invariant materialIndices == if f == 0 then old(materialIndices) else Some(old(Lookup()))
        invariant Lookup() == old(Lookup())
      {
        var id := GetMaterialIndex(mesh, f);
        matIds := matIds + [id];
      }
      assert matIds == MaterialIds(options, old(Lookup()), mesh);
      r := GroupRuns(matIds);
    }

    /**
     * `_exportGeometry`: stores the record under `key` and fills it pair by
     * pair. When `groups` raises, the stored record is left without `groups`.
     */
    method ExportGeometry(mesh: Mesh, key: string) returns (ok: bool)
      requires Exportable(mesh)
      modifies this`geometries, this`materialIndices
      ensures Lookup() == old(Lookup())
      ensures ok == GeometryOf(options, old(Lookup()), mesh).Success?
      ensures ok ==> geometries == old(geometries)[key := GeometryOf(options, old(Lookup()), mesh).value]
      ensures !ok ==> geometries == old(geometries)[key := BaseGeometry(options, mesh)]
    {
      ghost var lookup := Lookup();
      // The source stores the dict under `key` before filling it; the stored
      // dict is the one being filled, so one store of the final dict has the
      // same effect.
      var geom := FillGeometry(mesh);
      ok := true;
      if Flag(options, "groups") {
        var groups := GetGroups(mesh);
        if groups.Success? {
          GeometryWithGroups(options, lookup, mesh);
          geom := geom[GroupsKey := GroupList(groups.value)];
        } else {
          ok := false;
        }
      } else {
        GeometryWithoutGroups(options, lookup, mesh);
      }
      geometries := geometries[key := geom];
    }

    /** The body of `_exportGeometry` before `groups`: each pair of arrays added when its flag is set. */
    method FillGeometry(mesh: Mesh) returns (geom: Geometry)
      requires Exportable(mesh)
      ensures geom == BaseGeometry(options, mesh)
    {
      geom := map[];
      if Flag(options, "vertices") {
        var faces := GetFaces(mesh);
        geom := geom[PositionKey := FloatArray(GetVertices(mesh))][PositionIndicesKey := IndexArray(faces)];
      }
      if Flag(options, "normals") {
        var normals := GetNormals(mesh);
        var normalIndices := GetNormalIndices(mesh);
        geom := geom[NormalKey := FloatArray(normals)][NormalIndicesKey := IndexArray(normalIndices)];
      }
      if Flag(options, "uvs") {
        var uvs := GetUVs(mesh);
        var uvIndices := GetUVIndices(mesh);
        geom := geom[UvKey := FloatArray(uvs)][UvIndicesKey := IndexArray(uvIndices)];
      }
    }

    /** `_exportMeshInstance`: appends the instance record of `mesh`. */
    method ExportMeshInstance(mesh: Mesh, geometryName: string, instanceName: string)
      modifies this`instances
      ensures instances == old(instances) + [InstanceOf(mesh, geometryName, instanceName)]
    {
      instances := instances + [InstanceOf(mesh, geometryName, instanceName)];
    }

    /**
     * `_exportMeshes`: for every triangulated mesh, exports its geometry unless
     * dedupe finds its key already present, and always appends one instance.
     * `ok` is false when a geometry export raised, which ends the run.
     */
    method ExportMeshes(candidates: seq<Mesh>) returns (ok: bool)
      requires forall i :: 0 <= i < |candidates| ==> |candidates[i].us| <= |candidates[i].vs|
      modifies this`geometries, this`instances, this`materialIndices
      ensures Lookup() == old(Lookup())
      ensures var r := ExportMeshesOf(options, old(Lookup()), Exported(old(geometries), old(instances)), candidates);
        ok == r.Success? && (ok ==> geometries == r.value.geometries && instances == r.value.instances)
    {
      var triMeshes, warnings := TriangulatedMeshes(candidates);
      TriangulatedExportable(candidates);
      ghost var init := Exported(geometries, instances);
      ghost var lookup := Lookup();
      ghost var geoms := GeometriesOf(options, lookup, triMeshes);
      for i := 0 to |triMeshes|
        invariant Lookup() == lookup
        invariant Exports(options, geoms[..i], init, triMeshes[..i]) == Success(Exported(geometries, instances))
      {
        ExportsSnoc(options, geoms, init, triMeshes, i);
        assert geoms[i] == GeometryOf(options, lookup, triMeshes[i]);
        var exported := ExportMesh(triMeshes[i]);
        if !exported {
          ExportsFailureStays(options, geoms, init, triMeshes, i + 1);
          return false;
        }
      }
      assert triMeshes[..|triMeshes|] == triMeshes;
      assert geoms[..|triMeshes|] == geoms;
      return true;
    }

    /**
     * One iteration of `_exportMeshes`: the geometry is exported under the
     * mesh's key unless dedupe finds the key already present, and the instance
     * is appended with the full mesh name. `ok` is false when the geometry
     * export raised.
     */
    method ExportMesh(mesh: Mesh) returns (ok: bool)
      requires Exportable(mesh)
      modifies this`geometries, this`instances, this`materialIndices
      ensures Lookup() == old(Lookup())
      ensures var r := ExportStep(options, Exported(old(geometries), old(instances)), mesh, GeometryOf(options, old(Lookup()), mesh));
        ok == r.Success? && (ok ==> geometries == r.value.geometries && instances == r.value.instances)
    {
      var name := mesh.name;
      var underIdx := RFind(name, '_');
      if Flag(options, "dedupe") && underIdx != -1 {
        var key := name[..underIdx];
        var instanceName := name[underIdx + 1..];  // computed, but the instance is given the full name
        if key !in geometries {
          ok := ExportGeometry(mesh, key);
          if !ok {
            return;
          }
        }
        ExportMeshInstance(mesh, key, name);
      } else {
        ok := ExportGeometry(mesh, name);
        if !ok {
          return;
        }
        ExportMeshInstance(mesh, name, name);
      }
      ok := true;
    }

    /** `_exportMaterials`: appends each lambert's record in scene order. */
    method ExportMaterials(lamberts: seq<Material>)
      modifies this`materials
      ensures materials == old(materials) + lamberts
    {
      for i := 0 to |lamberts|
        invariant materials == old(materials) + lamberts[..i]
      {
        assert lamberts[..i + 1] == lamberts[..i] + [lamberts[i]];
        materials := materials + [lamberts[i]];
      }
      assert lamberts[..|lamberts|] == lamberts;
    }

    /**
     * `write` up to serialisation: parses the options, resets the
     * accumulators, exports the materials when asked, exports the meshes, and
     * returns the document, or the exception that ended the run.
     */
    method Write(optionString: string, lamberts: seq<Material>, candidates: seq<Mesh>) returns (doc: Result<Document>)
      requires forall i :: 0 <= i < |candidates| ==> |candidates[i].us| <= |candidates[i].vs|
      modifies this
      ensures options.Keys == set k | k in ComponentKeys
      ensures forall k :: k in options ==> (options[k] <==> IsSubstring(k, optionString))
      ensures materials == if Flag(options, "materials") then lamberts else []
      ensures doc == ExportDocument(options, IndicesFor(old(materialIndices), materials), materials, candidates)
      ensures doc.Success? ==> geometries == doc.value.geometries && instances == doc.value.instances
      ensures Lookup() == IndicesFor(old(materialIndices), materials)
    {
      options := ParseOptions(optionString);
      materials := [];
      geometries := map[];
      instances := [];
      if Flag(options, "materials") {
        ExportMaterials(lamberts);
      }
      var ok := ExportMeshes(candidates);
      if !ok {
        return Failure(IndexError);
      }
      doc := Success(Document(Metadata("maya-json-export", 0.0), materials, instances, geometries));
    }
  }
}
