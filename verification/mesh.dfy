/** The cube generator of src/mesh.js (`makeCube`): eight corner points and
    a triangle list of 36 vertices (12 triangles, two per face), flattened to
    108 numbers.  Coordinates are reals; the DOMMatrix transform is not part
    of this model. */
module Mesh {
  import opened Results

  datatype Vec3 = Vec3(x: real, y: real, z: real)

  /** The destructured options object; a missing field takes its default. */
  datatype CubeOptions = CubeOptions(position: Option<Vec3>, edge: Option<real>, color: Option<seq<real>>)

  datatype Cube = Cube(points: seq<Vec3>, color: seq<real>)

  const DefaultPosition: Vec3 := Vec3(0.0, 0.0, 0.0)
  const DefaultEdge: real := 1.0
  const DefaultColor: seq<real> := [0.0, 0.0, 0.0]

  /** `makeCube()` with no argument destructures `{}`: every field missing. */
  const NoOptions: CubeOptions := CubeOptions(None, None, None)

  function PositionOf(opts: CubeOptions): Vec3 {
    match opts.position
    case None => DefaultPosition
    case Some(p) => p
  }

  function EdgeOf(opts: CubeOptions): real {
    match opts.edge
    case None => DefaultEdge
    case Some(e) => e
  }

  /** `makeCube(options)`: bottom face (height y) clockwise from the top-left
      point, then the top face (height y + edge) in the same order. */
  function MakeCube(opts: CubeOptions): (c: Cube)
    ensures |c.points| == 8
    ensures forall i :: 0 <= i < 8 ==> c.points[i] == Corner(PositionOf(opts), EdgeOf(opts), i)
  {
    var p := PositionOf(opts);
    var e := EdgeOf(opts);
    var color := match opts.color case None => DefaultColor case Some(col) => col;
    Cube([Vec3(p.x, p.y, p.z), Vec3(p.x + e, p.y, p.z), Vec3(p.x + e, p.y, p.z + e), Vec3(p.x, p.y, p.z + e),
          Vec3(p.x, p.y + e, p.z), Vec3(p.x + e, p.y + e, p.z), Vec3(p.x + e, p.y + e, p.z + e), Vec3(p.x, p.y + e, p.z + e)],
         color)
  }

  /** Axes of a corner index's position: which of x, y, z is offset by the edge. */
  datatype Axis = X | Y | Z

  /** Independent description of the corner numbering: bit-like flags per axis. */
  predicate High(i: nat, a: Axis) {
    match a
    case X => i % 4 == 1 || i % 4 == 2
    case Y => i >= 4
    case Z => i % 4 >= 2
  }

  function Offset(base: real, edge: real, high: bool): real {
    if high then base + edge else base
  }

  /** Corner `i` of the cube with lowest corner `p`. */
  function Corner(p: Vec3, edge: real, i: nat): Vec3 {
    Vec3(Offset(p.x, edge, High(i, X)), Offset(p.y, edge, High(i, Y)), Offset(p.z, edge, High(i, Z)))
  }

  function Coord(v: Vec3, a: Axis): real {
    match a
    case X => v.x
    case Y => v.y
    case Z => v.z
  }

  /** `getColor()`. */
  function GetColor(c: Cube): seq<real> {
    c.color
  }

  /** The corner indices `getTriFacesVertices` lists, face by face
      (bottom, top, left, right, front, back), two triangles per face. */
  const Faces: seq<seq<nat>> := [
    [1, 2, 3, 1, 3, 0],
    [4, 7, 6, 4, 6, 5],
    [4, 0, 3, 4, 3, 7],
    [6, 2, 1, 6, 1, 5],
    [7, 3, 2, 7, 2, 6],
    [5, 1, 0, 5, 0, 4]]

  /** The corner index of vertex `k` of the 36. */
  function FaceCorner(k: nat): (i: nat)
    requires k < 36
    ensures i < 8
  {
    assert |Faces[k / 6]| == 6 && forall j :: 0 <= j < 6 ==> Faces[k / 6][j] < 8;
    Faces[k / 6][k % 6]
  }

  /** `.flat()` of a list of 3-element points. */
  function Flatten(pts: seq<Vec3>): (r: seq<real>)
    ensures |r| == 3 * |pts|
    ensures forall k :: 0 <= k < |pts| ==> r[3 * k] == pts[k].x && r[3 * k + 1] == pts[k].y && r[3 * k + 2] == pts[k].z
  {
    if pts == [] then []
    else [pts[0].x, pts[0].y, pts[0].z] + Flatten(pts[1..])
  }

  /** The 36 vertices, before flattening. */
  function TriFaces(c: Cube): (r: seq<Vec3>)
    requires |c.points| == 8
    ensures |r| == 36
  {
    seq(36, k requires 0 <= k < 36 => c.points[FaceCorner(k)])
  }

  /** `getTriFacesVertices()`. */
  function TriFacesVertices(c: Cube): (r: seq<real>)
    requires |c.points| == 8
    ensures |r| == 108
  {
    Flatten(TriFaces(c))
  }

  /** The vertex the numbers `3k .. 3k+2` of the flattened list describe. */
  function VertexAt(vs: seq<real>, k: nat): Vec3
    requires 3 * k + 2 < |vs|
  {
    Vec3(vs[3 * k], vs[3 * k + 1], vs[3 * k + 2])
  }

  // ---------------------------------------------------------------------

  /** There are 8 points; every coordinate is either the base coordinate or
      base + edge; points 0-3 lie at height y and points 4-7 at y + edge. */
  lemma PointsOnCubeCorners(opts: CubeOptions)
    ensures
      var c := MakeCube(opts);
      var p := PositionOf(opts);
      var e := EdgeOf(opts);
      && |c.points| == 8
      && (forall i :: 0 <= i < 8 ==>
            && (c.points[i].x == p.x || c.points[i].x == p.x + e)
            && (c.points[i].y == p.y || c.points[i].y == p.y + e)
            && (c.points[i].z == p.z || c.points[i].z == p.z + e))
      && (forall i :: 0 <= i < 4 ==> c.points[i].y == p.y)
      && (forall i :: 4 <= i < 8 ==> c.points[i].y == p.y + e)
  {
  }

  /** With a non-zero edge the 8 points are pairwise distinct. */
  lemma PointsDistinct(opts: CubeOptions)
    requires EdgeOf(opts) != 0.0
    ensures forall i, j :: 0 <= i < j < 8 ==> MakeCube(opts).points[i] != MakeCube(opts).points[j]
  {
    var c := MakeCube(opts);
    forall i, j | 0 <= i < j < 8 ensures c.points[i] != c.points[j] {
      var a :| High(i, a) != High(j, a) by {
        assert High(i, X) != High(j, X) || High(i, Y) != High(j, Y) || High(i, Z) != High(j, Z);
      }
      assert Coord(c.points[i], a) != Coord(c.points[j], a);
    }
  }

  /** Without options the cube sits at the origin with edge 1 and colour [0, 0, 0]. */
  lemma Defaults()
    ensures MakeCube(NoOptions).points[0] == Vec3(0.0, 0.0, 0.0)
    ensures MakeCube(NoOptions).points[6] == Vec3(1.0, 1.0, 1.0)
    ensures GetColor(MakeCube(NoOptions)) == [0.0, 0.0, 0.0]
    ensures forall col :: GetColor(MakeCube(CubeOptions(None, None, Some(col)))) == col
  {
  }

  /** The flattened list has 108 numbers; vertex `k` is corner `FaceCorner(k)`,
      so every emitted vertex is one of the 8 points. */
  lemma VerticesAreCorners(c: Cube)
    requires |c.points| == 8
    ensures |TriFacesVertices(c)| == 108
    ensures forall k :: 0 <= k < 36 ==> VertexAt(TriFacesVertices(c), k) == c.points[FaceCorner(k)]
    ensures forall k :: 0 <= k < 36 ==> VertexAt(TriFacesVertices(c), k) in c.points
  {
    var vs := TriFacesVertices(c);
    forall k | 0 <= k < 36 ensures VertexAt(vs, k) == c.points[FaceCorner(k)] && VertexAt(vs, k) in c.points {
      assert TriFaces(c)[k] == c.points[FaceCorner(k)];
    }
  }

  /** The axis each face is perpendicular to, and whether it is the high side. */
  function FacePlane(f: nat): (Axis, bool)
    requires f < 6
  {
    [(Y, false), (Y, true), (X, false), (X, true), (Z, true), (Z, false)][f]
  }

  /** Each group of six vertices is one face: two triangles (a, b, c) and
      (a, c, d) over four distinct corners, all on the same side of one axis. */
  lemma FaceIsQuad(f: nat)
    requires f < 6
    ensures
      var q := Faces[f];
      && q[3] == q[0] && q[4] == q[2]
      && q[0] != q[1] && q[0] != q[2] && q[0] != q[5] && q[1] != q[2] && q[1] != q[5] && q[2] != q[5]
      && forall j :: 0 <= j < 6 ==> High(q[j], FacePlane(f).0) == FacePlane(f).1
  {
  }

  /** Vertex `j` of face `f` in a flattened triangle list. */
  function FaceVertex(vs: seq<real>, f: nat, j: nat): Vec3
    requires f < 6 && j < 6 && |vs| == 108
  {
    VertexAt(vs, 6 * f + j)
  }

  /** Vertex `j` of face `f` of a generated cube is the corner `Faces[f][j]`. */
  lemma FaceVertexIsCorner(opts: CubeOptions, f: nat, j: nat)
    requires f < 6 && j < 6
    ensures |TriFacesVertices(MakeCube(opts))| == 108
    ensures FaceVertex(TriFacesVertices(MakeCube(opts)), f, j) == Corner(PositionOf(opts), EdgeOf(opts), Faces[f][j])
  {
    var c := MakeCube(opts);
    VerticesAreCorners(c);
    assert (6 * f + j) / 6 == f && (6 * f + j) % 6 == j;
    assert FaceCorner(6 * f + j) == Faces[f][j];
  }

  lemma CoordOfCorner(p: Vec3, edge: real, i: nat, a: Axis)
    ensures Coord(Corner(p, edge, i), a) == Offset(Coord(p, a), edge, High(i, a))
  {
  }

  /** Geometric form of the face property: the six vertices of a face of a
      generated cube share one coordinate, the base or base + edge. */
  lemma FacesArePlanar(opts: CubeOptions, f: nat)
    requires f < 6
    ensures
      var vs := TriFacesVertices(MakeCube(opts));
      var (a, high) := FacePlane(f);
      forall j :: 0 <= j < 6 ==>
        Coord(FaceVertex(vs, f, j), a) == Offset(Coord(PositionOf(opts), a), EdgeOf(opts), high)
  {
    var vs := TriFacesVertices(MakeCube(opts));
    FaceIsQuad(f);
    var (a, high) := FacePlane(f);
    forall j | 0 <= j < 6
      ensures Coord(FaceVertex(vs, f, j), a) == Offset(Coord(PositionOf(opts), a), EdgeOf(opts), high)
    {
      FaceVertexIsCorner(opts, f, j);
      CoordOfCorner(PositionOf(opts), EdgeOf(opts), Faces[f][j], a);
    }
  }

}
