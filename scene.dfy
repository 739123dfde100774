/**
 * The host scene as the exporter reads it. Every Maya/pymel query the writer
 * makes (faces, points, normals, UVs, shading membership, parent transform)
 * is replaced by plain data held in these datatypes.
 */
module Scene {

  datatype Vec3 = Vec3(x: real, y: real, z: real)

  datatype Quat = Quat(x: real, y: real, z: real, w: real)

  /** One face-vertex: `face.getVertices()[i]`, `face.normalIndex(i)` and `face.getUVIndex(i)`. */
  datatype Corner = Corner(vertex: int, normal: int, uv: int)

  datatype Face = Face(corners: seq<Corner>)
  {
    /** `face.polygonVertexCount()` */
    function PolygonVertexCount(): nat { |corners| }
  }

  /**
   * A shading engine connected to a mesh: whether the whole mesh is a member
   * (`sets(engine, isMember=mesh)`), which faces are members
   * (`sets(engine, isMember=face)`), and the names of the lambert materials
   * connected to it, in connection order.
   */
  datatype ShadingEngine = ShadingEngine(wholeMesh: bool, memberFaces: set<nat>, lamberts: seq<string>)
  {
    predicate IsMember(face: nat) { face in memberFaces || wholeMesh }
  }

  /** World translation, world rotation (a quaternion) and local scale of the mesh's parent. */
  datatype Transform = Transform(translation: Vec3, rotation: Quat, scale: Vec3)

  /**
   * A mesh shape: its name, faces in native order, object-space points,
   * normals, the first UV set as parallel `us`/`vs`, the shading engines
   * connected to it, and its parent transform.
   */
  datatype Mesh = Mesh(
    name: string,
    faces: seq<Face>,
    points: seq<Vec3>,
    normals: seq<Vec3>,
    us: seq<real>,
    vs: seq<real>,
    engines: seq<ShadingEngine>,
    parent: Transform)

  /**
   * A material record as `_exportMaterial` produces it. Only `DbgName` takes part
   * in the modelled core (the material-index lookup); the other attributes are
   * read from Maya shaders and are not part of this model.
   */
  datatype Material = Material(dbgName: string)

  /** No face has a vertex count other than 3 (the negation of the `any(...)` test). */
  predicate IsTriangulated(m: Mesh)
  {
    forall f :: 0 <= f < |m.faces| ==> m.faces[f].PolygonVertexCount() == 3
  }
}
