/**
 * Material-index resolution (`_getMaterialIndex`): a name-to-index map built
 * from the exported materials' `DbgName`, and the search through a mesh's
 * shading engines for the first connected material the map knows.
 */
module MaterialIndex {
  import opened Wrappers
  import opened Scene

  /**
   * `r` maps exactly the materials' names, each to an export-order index of a
   * material with that name, and for a repeated name to its last index.
   */
  ghost predicate IsIndexMap(r: map<string, int>, materials: seq<Material>)
  {
    r.Keys == (set i | 0 <= i < |materials| :: materials[i].dbgName) &&
    (forall name :: name in r ==> 0 <= r[name] < |materials| && materials[r[name]].dbgName == name) &&
    (forall name, j :: name in r && r[name] < j < |materials| ==> materials[j].dbgName != name)
  }

  /** `dict([(mat['DbgName'], i) for i, mat in enumerate(materials)])`: later pairs overwrite earlier ones. */
  function IndexMap(materials: seq<Material>): (r: map<string, int>)
    ensures IsIndexMap(r, materials)
  {
    if materials == [] then map[]
    else
      var n := |materials| - 1;
      var prev := IndexMap(materials[..n]);
      IndexMapStep(prev, materials);
      prev[materials[n].dbgName := n]
  }

  /** Adding the last material's name at its index turns the map of the prefix into the map of the whole. */
  lemma IndexMapStep(prev: map<string, int>, materials: seq<Material>)
    requires |materials| > 0
    requires IsIndexMap(prev, materials[..|materials| - 1])
    ensures IsIndexMap(prev[materials[|materials| - 1].dbgName := |materials| - 1], materials)
  {
    var n := |materials| - 1;
    var pre := materials[..n];
    var last := materials[n].dbgName;
    var r := prev[last := n];
    var names := set i | 0 <= i < |materials| :: materials[i].dbgName;
    var preNames := set i | 0 <= i < n :: pre[i].dbgName;
    assert r.Keys == names by {
      forall x | x in names ensures x in preNames + {last} {
        var i :| 0 <= i < |materials| && materials[i].dbgName == x;
        if i < n { assert pre[i].dbgName == x; }
      }
      forall x | x in preNames ensures x in names {
        var i :| 0 <= i < n && pre[i].dbgName == x;
        assert materials[i].dbgName == x;
      }
    }
    forall name | name in r
      ensures 0 <= r[name] < |materials| && materials[r[name]].dbgName == name
    {
      if name != last { assert pre[prev[name]] == materials[prev[name]]; }
    }
    forall name, j | name in r && r[name] < j < |materials|
      ensures materials[j].dbgName != name
    {
      if name != last && j < n { assert pre[j] == materials[j]; }
    }
  }

  /** The lazily built `_materialIndices`: the cached map when present, otherwise the one built from `materials`. */
  function IndicesFor(cache: Option<map<string, int>>, materials: seq<Material>): map<string, int>
  {
    match cache
    case Some(indices) => indices
    case None => IndexMap(materials)
  }

  /** The index of the first name in `names` that the map knows. */
  function FirstKnown(indices: map<string, int>, names: seq<string>): Option<int>
  {
    if names == [] then None
    else if names[0] in indices then Some(indices[names[0]])
    else FirstKnown(indices, names[1..])
  }

  /** The first engine, in connection order, that holds the face or the mesh and has a known material. */
  function EngineLookup(indices: map<string, int>, engines: seq<ShadingEngine>, face: nat): int
  {
    if engines == [] then -1
    else if engines[0].IsMember(face) && FirstKnown(indices, engines[0].lamberts).Some? then
      FirstKnown(indices, engines[0].lamberts).value
    else EngineLookup(indices, engines[1..], face)
  }

  /** `_getMaterialIndex` for face number `face` of `mesh`: -1 when materials are not exported. */
  function MaterialIndexOf(materialsOn: bool, indices: map<string, int>, mesh: Mesh, face: nat): int
  {
    if materialsOn then EngineLookup(indices, mesh.engines, face) else -1
  }

  /** A known name is found, and what is found is the index of a known name. */
  lemma {:induction false} FirstKnownSpec(indices: map<string, int>, names: seq<string>)
    ensures FirstKnown(indices, names).Some? <==> exists i :: 0 <= i < |names| && names[i] in indices
    ensures FirstKnown(indices, names).Some? ==> FirstKnown(indices, names).value in indices.Values
  {
    if names != [] && names[0] !in indices {
      FirstKnownSpec(indices, names[1..]);
      if exists i :: 0 <= i < |names| && names[i] in indices {
        var i :| 0 <= i < |names| && names[i] in indices;
        assert names[1..][i - 1] == names[i];
      }
    }
  }

  /**
   * With non-negative indices, the lookup fails (-1) exactly when no engine
   * holding the face or the mesh has a connected material the map knows, and
   * otherwise yields one of the map's indices.
   */
  lemma {:induction false} EngineLookupSpec(indices: map<string, int>, engines: seq<ShadingEngine>, face: nat)
    requires forall name :: name in indices ==> indices[name] >= 0
    ensures EngineLookup(indices, engines, face) != -1 <==>
      exists e, i :: 0 <= e < |engines| && 0 <= i < |engines[e].lamberts| &&
        engines[e].IsMember(face) && engines[e].lamberts[i] in indices
    ensures EngineLookup(indices, engines, face) != -1 ==> EngineLookup(indices, engines, face) in indices.Values
  {
    if engines != [] {
      FirstKnownSpec(indices, engines[0].lamberts);
      EngineLookupSpec(indices, engines[1..], face);
      if exists e, i :: 0 <= e < |engines| && 0 <= i < |engines[e].lamberts| &&
           engines[e].IsMember(face) && engines[e].lamberts[i] in indices {
        var e, i :| 0 <= e < |engines| && 0 <= i < |engines[e].lamberts| &&
           engines[e].IsMember(face) && engines[e].lamberts[i] in indices;
        if e > 0 {
          assert engines[1..][e - 1] == engines[e];
        }
      }
      if EngineLookup(indices, engines[1..], face) != -1 {
        var e, i :| 0 <= e < |engines[1..]| && 0 <= i < |engines[1..][e].lamberts| &&
           engines[1..][e].IsMember(face) && engines[1..][e].lamberts[i] in indices;
        assert engines[e + 1] == engines[1..][e];
      }
    }
  }

  /** With materials off every face resolves to -1; with them on, to -1 or a known index. */
  lemma MaterialIndexOfRange(materialsOn: bool, materials: seq<Material>, mesh: Mesh, face: nat)
    ensures var r := MaterialIndexOf(materialsOn, IndexMap(materials), mesh, face);
      (!materialsOn ==> r == -1) &&
      (r == -1 || (0 <= r < |materials| && r in IndexMap(materials).Values))
  {
    EngineLookupSpec(IndexMap(materials), mesh.engines, face);
  }

  /** The engine and material loops of `_getMaterialIndex`, returning on the first known material. */
  method LookupMaterialIndex(indices: map<string, int>, mesh: Mesh, face: nat) returns (r: int)
    ensures r == EngineLookup(indices, mesh.engines, face)
  {
    for e := 0 to |mesh.engines|
      invariant EngineLookup(indices, mesh.engines, face) == EngineLookup(indices, mesh.engines[e..], face)
    {
      var engine := mesh.engines[e];
      assert mesh.engines[e..][1..] == mesh.engines[e + 1..];
      if engine.IsMember(face) {
        for k := 0 to |engine.lamberts|
          invariant FirstKnown(indices, engine.lamberts) == FirstKnown(indices, engine.lamberts[k..])
        {
          assert engine.lamberts[k..][1..] == engine.lamberts[k + 1..];
          if engine.lamberts[k] in indices {
            return indices[engine.lamberts[k]];
          }
        }
        assert engine.lamberts[|engine.lamberts|..] == [];
      }
    }
    assert mesh.engines[|mesh.engines|..] == [];
    return -1;
  }
}
