/**
 * Flattening of mesh attributes into the flat arrays of a geometry record:
 * per-face index lists (`_getFaces`, `_getNormalIndices`, `_getUVIndices`),
 * rounded coordinate triples (`_getVertices`, `_getNormals`) and interleaved
 * UVs (`_getUVs`).
 */
module Flatten {
  import opened Scene
  import opened Rounding

  /** Which of a face-vertex's three indices is read. */
  datatype Attribute = Position | Normal | UV

  function IndexOf(c: Corner, a: Attribute): int
  {
    match a
    case Position => c.vertex
    case Normal => c.normal
    case UV => c.uv
  }

  /** `face.getVertices()`: the position index of every corner of the face. */
  function FaceVertices(f: Face): seq<int>
  {
    seq(|f.corners|, i requires 0 <= i < |f.corners| => f.corners[i].vertex)
  }

  /** The concatenation of `face.getVertices()` over the faces, in face order. */
  function AllVertices(faces: seq<Face>): seq<int>
  {
    if faces == [] then []
    else AllVertices(faces[..|faces| - 1]) + FaceVertices(faces[|faces| - 1])
  }

  /** Every face has at least the three corners that `range(3)` reads. */
  predicate HasTriangleCorners(faces: seq<Face>)
  {
    forall f :: 0 <= f < |faces| ==> |faces[f].corners| >= 3
  }

  /** Index `a` of the first `n` corners of a face. */
  function FirstCorners(f: Face, a: Attribute, n: nat): (r: seq<int>)
    requires n <= 3 <= |f.corners|
  {
    seq(n, i requires 0 <= i < n => IndexOf(f.corners[i], a))
  }

  /** Index `a` of corners 0, 1, 2 of every face, in face order. */
  function CornerIndices(faces: seq<Face>, a: Attribute): seq<int>
    requires HasTriangleCorners(faces)
  {
    if faces == [] then []
    else CornerIndices(faces[..|faces| - 1], a) + FirstCorners(faces[|faces| - 1], a, 3)
  }

  /** The layout a consumer reads: 3 entries per face, entry 3f+i is index `a` of face f's corner i. */
  ghost predicate PerCorner(r: seq<int>, faces: seq<Face>, a: Attribute)
  {
    |r| == 3 * |faces| &&
    forall f, i :: 0 <= f < |faces| && 0 <= i < 3 ==>
      i < |faces[f].corners| && r[3 * f + i] == IndexOf(faces[f].corners[i], a)
  }

  lemma {:induction false} CornerIndicesLayout(faces: seq<Face>, a: Attribute)
    requires HasTriangleCorners(faces)
    ensures PerCorner(CornerIndices(faces, a), faces, a)
  {
    if faces != [] {
      var n := |faces| - 1;
      CornerIndicesLayout(faces[..n], a);
      var r := CornerIndices(faces, a);
      assert r == CornerIndices(faces[..n], a) + FirstCorners(faces[n], a, 3);
      forall f, i | 0 <= f < |faces| && 0 <= i < 3
        ensures r[3 * f + i] == IndexOf(faces[f].corners[i], a)
      {
        if f < n {
          assert faces[..n][f] == faces[f];
        }
      }
    }
  }

  /** On triangles, `getVertices()` yields exactly the three corners, so `_getFaces` has the per-corner layout. */
  lemma {:induction false} AllVerticesOfTriangles(faces: seq<Face>)
    requires forall f :: 0 <= f < |faces| ==> |faces[f].corners| == 3
    ensures HasTriangleCorners(faces)
    ensures AllVertices(faces) == CornerIndices(faces, Position)
  {
    if faces != [] {
      var n := |faces| - 1;
      AllVerticesOfTriangles(faces[..n]);
      assert FaceVertices(faces[n]) == FirstCorners(faces[n], Position, 3);
    }
  }

  /** `_getFaces`: appends each face's vertex list. */
  method GetFaces(m: Mesh) returns (faces: seq<int>)
    ensures faces == AllVertices(m.faces)
    ensures IsTriangulated(m) ==> PerCorner(faces, m.faces, Position)
  {
    faces := [];
    for j := 0 to |m.faces|
      invariant faces == AllVertices(m.faces[..j])
    {
      assert m.faces[..j + 1][..j] == m.faces[..j];
      faces := faces + FaceVertices(m.faces[j]);
    }
    assert m.faces[..|m.faces|] == m.faces;
    if IsTriangulated(m) {
      AllVerticesOfTriangles(m.faces);
      CornerIndicesLayout(m.faces, Position);
    }
  }

  /** The loop shared by `_getNormalIndices` and `_getUVIndices`: index `a` of corners 0..2 of each face. */
  method GetCornerIndices(m: Mesh, a: Attribute) returns (indices: seq<int>)
    requires HasTriangleCorners(m.faces)
    ensures indices == CornerIndices(m.faces, a)
    ensures PerCorner(indices, m.faces, a)
  {
    indices := [];
    for j := 0 to |m.faces|
      invariant indices == CornerIndices(m.faces[..j], a)
    {
      var face := m.faces[j];
      for i := 0 to 3
        invariant indices == CornerIndices(m.faces[..j], a) + FirstCorners(face, a, i)
      {
        assert FirstCorners(face, a, i + 1) == FirstCorners(face, a, i) + [IndexOf(face.corners[i], a)];
        indices := indices + [IndexOf(face.corners[i], a)];
      }
      assert m.faces[..j + 1][..j] == m.faces[..j];
    }
    assert m.faces[..|m.faces|] == m.faces;
    CornerIndicesLayout(m.faces, a);
  }

  /** `_getNormalIndices` */
  method GetNormalIndices(m: Mesh) returns (indices: seq<int>)
    requires HasTriangleCorners(m.faces)
    ensures PerCorner(indices, m.faces, Normal)
    ensures indices == CornerIndices(m.faces, Normal)
  {
    indices := GetCornerIndices(m, Normal);
  }

  /** `_getUVIndices` */
  method GetUVIndices(m: Mesh) returns (indices: seq<int>)
    requires HasTriangleCorners(m.faces)
    ensures PerCorner(indices, m.faces, UV)
    ensures indices == CornerIndices(m.faces, UV)
  {
    indices := GetCornerIndices(m, UV);
  }

  /** Coordinate `c` (0 = x, 1 = y, 2 = z) of a vector. */
  function Coord(v: Vec3, c: nat): real
    requires c < 3
  {
    if c == 0 then v.x else if c == 1 then v.y else v.z
  }

  /** The rounded coordinates of each vector, x, y, z, concatenated in order. */
  function FlatRounded(vs: seq<Vec3>): seq<real>
  {
    if vs == [] then []
    else FlatRounded(vs[..|vs| - 1]) + RoundPos(vs[|vs| - 1])
  }

  /** 3 entries per vector; entry 3p+c is coordinate c of vector p, rounded. */
  ghost predicate PerCoordinate(r: seq<real>, vs: seq<Vec3>)
  {
    |r| == 3 * |vs| &&
    forall p, c :: 0 <= p < |vs| && 0 <= c < 3 ==> r[3 * p + c] == Round(Coord(vs[p], c))
  }

  lemma {:induction false} FlatRoundedLayout(vs: seq<Vec3>)
    ensures PerCoordinate(FlatRounded(vs), vs)
  {
    if vs != [] {
      var n := |vs| - 1;
      FlatRoundedLayout(vs[..n]);
      var r := FlatRounded(vs);
      forall p, c | 0 <= p < |vs| && 0 <= c < 3
        ensures r[3 * p + c] == Round(Coord(vs[p], c))
      {
        if p < n {
          assert vs[..n][p] == vs[p];
        }
      }
    }
  }

  /** `_getVertices`: the object-space points flattened and rounded. */
  function GetVertices(m: Mesh): (r: seq<real>)
    ensures PerCoordinate(r, m.points)
  {
    FlatRoundedLayout(m.points);
    FlatRounded(m.points)
  }

  /** `_getNormals`: appends the rounded coordinates of each normal. */
  method GetNormals(m: Mesh) returns (normals: seq<real>)
    ensures normals == FlatRounded(m.normals)
    ensures PerCoordinate(normals, m.normals)
  {
    normals := [];
    for j := 0 to |m.normals|
      invariant normals == FlatRounded(m.normals[..j])
    {
      assert m.normals[..j + 1][..j] == m.normals[..j];
      normals := normals + RoundPos(m.normals[j]);
    }
    assert m.normals[..|m.normals|] == m.normals;
    FlatRoundedLayout(m.normals);
  }

  /** `us[i]` and `vs[i]` for each i, interleaved: [u0, v0, u1, v1, ...]. */
  function Interleave(us: seq<real>, vs: seq<real>): seq<real>
    requires |us| <= |vs|
  {
    if us == [] then []
    else Interleave(us[..|us| - 1], vs) + [us[|us| - 1], vs[|us| - 1]]
  }

  /** 2 entries per U coordinate: entry 2i is `us[i]`, entry 2i+1 is `vs[i]`. */
  ghost predicate PerUV(r: seq<real>, us: seq<real>, vs: seq<real>)
    requires |us| <= |vs|
  {
    |r| == 2 * |us| &&
    forall i :: 0 <= i < |us| ==> r[2 * i] == us[i] && r[2 * i + 1] == vs[i]
  }

  lemma {:induction false} InterleaveLayout(us: seq<real>, vs: seq<real>)
    requires |us| <= |vs|
    ensures PerUV(Interleave(us, vs), us, vs)
  {
    if us != [] {
      var n := |us| - 1;
      InterleaveLayout(us[..n], vs);
      var r := Interleave(us, vs);
      forall i | 0 <= i < |us|
        ensures r[2 * i] == us[i] && r[2 * i + 1] == vs[i]
      {
        if i < n {
          assert us[..n][i] == us[i];
        }
      }
    }
  }

  /** `_getUVs`: `vs[i]` must exist for every index i of `us`. */
  method GetUVs(m: Mesh) returns (uvs: seq<real>)
    requires |m.us| <= |m.vs|
    ensures uvs == Interleave(m.us, m.vs)
    ensures PerUV(uvs, m.us, m.vs)
  {
    uvs := [];
    for i := 0 to |m.us|
      invariant uvs == Interleave(m.us[..i], m.vs)
    {
      assert m.us[..i + 1][..i] == m.us[..i];
      uvs := uvs + [m.us[i]];
      uvs := uvs + [m.vs[i]];
    }
    assert m.us[..|m.us|] == m.us;
    InterleaveLayout(m.us, m.vs);
  }
}
