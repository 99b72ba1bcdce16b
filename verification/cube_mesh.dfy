/**
 * The static cube mesh of src/gl.ts: the vertex positions, the face colours and
 * their expansion to one colour per vertex, the triangle indices, and the
 * buffer contents `initBuffers` uploads for the indexed draw call.
 *
 * Coordinates and colour components are JavaScript numbers; they are modelled
 * as exact reals. Every position coordinate is exactly 1 or -1.
 */
module CubeMesh {
  import opened Seqs

  /** The six faces, in the order every table of the mesh lists them. */
  datatype Face = Front | Back | Top | Bottom | Right | Left

  const Faces: seq<Face> := [Front, Back, Top, Bottom, Right, Left]

  /** Each face is a quad of four vertices, so the mesh has 24 vertices. */
  const VerticesPerFace: nat := 4
  const VertexCount: nat := 24

  /** Components per vertex in the position buffer and in the colour buffer. */
  const PositionSize: nat := 3
  const ColorSize: nat := 4

  /** The number of indices the draw call reads. */
  const DrawCount: nat := 36

  // ---------------------------------------------------------------------------
  // Vectors

  datatype Vec3 = Vec3(x: real, y: real, z: real) {

    /** Coordinate 0 is x, 1 is y, 2 is z. */
    function Coord(axis: nat): real
      requires axis < 3
    {
      if axis == 0 then x else if axis == 1 then y else z
    }

    function Minus(o: Vec3): Vec3
    {
      Vec3(x - o.x, y - o.y, z - o.z)
    }

    function Cross(o: Vec3): Vec3
    {
      Vec3(y * o.z - z * o.y, z * o.x - x * o.z, x * o.y - y * o.x)
    }

    function Dot(o: Vec3): real
    {
      x * o.x + y * o.y + z * o.z
    }

    /** How many coordinates differ between two points. */
    function Differences(o: Vec3): nat
    {
      (if x != o.x then 1 else 0) + (if y != o.y then 1 else 0) + (if z != o.z then 1 else 0)
    }
  }

  /** The normal of triangle (a, b, c) whose direction follows the winding:
      it points towards a viewer who sees a, b, c counter-clockwise. */
  function TriangleNormal(a: Vec3, b: Vec3, c: Vec3): Vec3
  {
    b.Minus(a).Cross(c.Minus(a))
  }

  /** Vertex `v` of a flat list of coordinate triples. */
  function Vertex(ps: seq<real>, v: nat): Vec3
    requires PositionSize * v + 2 < |ps|
  {
    Vec3(ps[3 * v], ps[3 * v + 1], ps[3 * v + 2])
  }

  // ---------------------------------------------------------------------------
  // Faces

  /** The axis a face is perpendicular to, and the value every point of the face
      has on that axis. */
  function FixedAxis(f: Face): nat
  {
    match f
    case Front | Back => 2
    case Top | Bottom => 1
    case Right | Left => 0
  }

  function FixedValue(f: Face): real
  {
    match f
    case Front | Top | Right => 1.0
    case Back | Bottom | Left => -1.0
  }

  /** The unit normal pointing out of the cube through face `f`. */
  function Outward(f: Face): (n: Vec3)
    ensures n.Coord(FixedAxis(f)) == FixedValue(f)
    ensures n.Differences(Vec3(0.0, 0.0, 0.0)) == 1
  {
    match f
    case Front => Vec3(0.0, 0.0, 1.0)
    case Back => Vec3(0.0, 0.0, -1.0)
    case Top => Vec3(0.0, 1.0, 0.0)
    case Bottom => Vec3(0.0, -1.0, 0.0)
    case Right => Vec3(1.0, 0.0, 0.0)
    case Left => Vec3(-1.0, 0.0, 0.0)
  }

  /** The twelve coordinates of a face's four vertices, as `cubePositions`
      lists them. */
  function FaceQuad(f: Face): (quad: seq<real>)
    ensures |quad| == 12
  {
    match f
    case Front => [-1.0, -1.0, 1.0, 1.0, -1.0, 1.0, 1.0, 1.0, 1.0, -1.0, 1.0, 1.0]
    case Back => [-1.0, -1.0, -1.0, -1.0, 1.0, -1.0, 1.0, 1.0, -1.0, 1.0, -1.0, -1.0]
    case Top => [-1.0, 1.0, -1.0, -1.0, 1.0, 1.0, 1.0, 1.0, 1.0, 1.0, 1.0, -1.0]
    case Bottom => [-1.0, -1.0, -1.0, 1.0, -1.0, -1.0, 1.0, -1.0, 1.0, -1.0, -1.0, 1.0]
    case Right => [1.0, -1.0, -1.0, 1.0, 1.0, -1.0, 1.0, 1.0, 1.0, 1.0, -1.0, 1.0]
    case Left => [-1.0, -1.0, -1.0, -1.0, -1.0, 1.0, -1.0, 1.0, 1.0, -1.0, 1.0, -1.0]
  }

  /** `cubePositions`: the six quads flattened, 24 vertices of 3 coordinates. */
  function CubePositions(): (ps: seq<real>)
    ensures |ps| == PositionSize * VertexCount
  {
    FaceQuadsInOrder();
    FlattenUniformLength(FaceQuads(), 12);
    Flatten(FaceQuads())
  }

  /** The six face lists, in the order `cubePositions` flattens them. */
  function FaceQuads(): (quads: seq<seq<real>>)
    ensures |quads| == |Faces|
  {
    [FaceQuad(Front), FaceQuad(Back), FaceQuad(Top), FaceQuad(Bottom), FaceQuad(Right), FaceQuad(Left)]
  }

  /** Each quad has twelve coordinates, every one of them 1 or -1. */
  lemma FaceQuadShape(f: Face)
    ensures |FaceQuad(f)| == 12
    ensures forall m :: 0 <= m < 12 ==> FaceQuad(f)[m] == 1.0 || FaceQuad(f)[m] == -1.0
  {
    var quad := FaceQuad(f);
    forall m | 0 <= m < 12
      ensures quad[m] == 1.0 || quad[m] == -1.0
    {
      assert m in {0, 1, 2, 3, 4, 5, 6, 7, 8, 9, 10, 11};
    }
  }

  /** How many coordinates change along the quad's edge from corner `q` to the
      next corner round. */
  function EdgeChanges(quad: seq<real>, q: nat): nat
    requires |quad| == 12 && q < 4
  {
    Vertex(quad, q).Differences(Vertex(quad, (q + 1) % 4))
  }

  /** The four vertices of a quad lie on the face's plane. */
  lemma FaceQuadOnPlane(f: Face)
    ensures |FaceQuad(f)| == 12
    ensures forall q :: 0 <= q < 4 ==> Vertex(FaceQuad(f), q).Coord(FixedAxis(f)) == FixedValue(f)
  {
    var quad := FaceQuad(f);
    forall q | 0 <= q < 4
      ensures Vertex(quad, q).Coord(FixedAxis(f)) == FixedValue(f)
    {
      assert q in {0, 1, 2, 3};
    }
  }

  /** The four vertices of a quad go round its perimeter: each differs from
      the next in exactly one coordinate, so the diagonal from corner 0 to
      corner 2 splits the quad into the two triangles the index table lists. */
  lemma FaceQuadPerimeter(f: Face)
    ensures |FaceQuad(f)| == 12
    ensures forall q :: 0 <= q < 4 ==> EdgeChanges(FaceQuad(f), q) == 1
  {
    FaceQuadFacts(f);
  }

  /** The four vertices of a quad are distinct. */
  lemma FaceQuadCornersDistinct(f: Face)
    ensures |FaceQuad(f)| == 12
    ensures forall q, q' :: 0 <= q < q' < 4 ==> Vertex(FaceQuad(f), q) != Vertex(FaceQuad(f), q')
  {
    var quad := FaceQuad(f);
    forall q, q' | 0 <= q < q' < 4
      ensures Vertex(quad, q) != Vertex(quad, q')
    {
      assert q in {0, 1, 2} && q' in {1, 2, 3};
    }
  }

  /** Both triangles of a quad, (0, 1, 2) and (0, 2, 3), wind counter-clockwise
      seen from the side `n` points to. */
  predicate WindsTowards(quad: seq<real>, n: Vec3)
    requires |quad| == 12
  {
    && TriangleNormal(Vertex(quad, 0), Vertex(quad, 1), Vertex(quad, 2)).Dot(n) > 0.0
    && TriangleNormal(Vertex(quad, 0), Vertex(quad, 2), Vertex(quad, 3)).Dot(n) > 0.0
  }

  /** Every face winds counter-clockwise seen from outside the cube: the
      winding is the same on every face. */
  lemma FaceQuadWinding(f: Face)
    ensures |FaceQuad(f)| == 12
    ensures WindsTowards(FaceQuad(f), Outward(f))
  {
    FaceQuadFacts(f);
  }

  /** A quad goes round its perimeter: each corner differs from the next in
      exactly one coordinate. */
  predicate GoesRound(quad: seq<real>)
    requires |quad| == 12
  {
    forall q :: 0 <= q < 4 ==> EdgeChanges(quad, q) == 1
  }

  lemma FaceQuadFacts(f: Face)
    ensures |FaceQuad(f)| == 12
    ensures WindsTowards(FaceQuad(f), Outward(f)) && GoesRound(FaceQuad(f))
  {
    match f
    case Front => FrontQuad();
    case Back => BackQuad();
    case Top => TopQuad();
    case Bottom => BottomQuad();
    case Right => RightQuad();
    case Left => LeftQuad();
  }

  // One lemma per face keeps each piece of concrete arithmetic small: the
  // corners are read off the table, then the winding follows from the edge
  // vectors from corner 0 to corners 1, 2 and 3.

  lemma FrontQuad()
    ensures WindsTowards(FaceQuad(Front), Outward(Front)) && GoesRound(FaceQuad(Front))
  {
    FrontCorners();
    QuadFacts(FaceQuad(Front), Vec3(-1.0, -1.0, 1.0), Vec3(1.0, -1.0, 1.0), Vec3(1.0, 1.0, 1.0), Vec3(-1.0, 1.0, 1.0), Vec3(2.0, 0.0, 0.0), Vec3(2.0, 2.0, 0.0), Vec3(0.0, 2.0, 0.0), Vec3(0.0, 0.0, 1.0));
  }

  lemma FrontCorners()
    ensures |FaceQuad(Front)| == 12
    ensures Vertex(FaceQuad(Front), 0) == Vec3(-1.0, -1.0, 1.0) && Vertex(FaceQuad(Front), 1) == Vec3(1.0, -1.0, 1.0)
    ensures Vertex(FaceQuad(Front), 2) == Vec3(1.0, 1.0, 1.0) && Vertex(FaceQuad(Front), 3) == Vec3(-1.0, 1.0, 1.0)
    ensures Outward(Front) == Vec3(0.0, 0.0, 1.0)
  {
  }

  lemma BackQuad()
    ensures WindsTowards(FaceQuad(Back), Outward(Back)) && GoesRound(FaceQuad(Back))
  {
    BackCorners();
    QuadFacts(FaceQuad(Back), Vec3(-1.0, -1.0, -1.0), Vec3(-1.0, 1.0, -1.0), Vec3(1.0, 1.0, -1.0), Vec3(1.0, -1.0, -1.0), Vec3(0.0, 2.0, 0.0), Vec3(2.0, 2.0, 0.0), Vec3(2.0, 0.0, 0.0), Vec3(0.0, 0.0, -1.0));
  }

  lemma BackCorners()
    ensures |FaceQuad(Back)| == 12
    ensures Vertex(FaceQuad(Back), 0) == Vec3(-1.0, -1.0, -1.0) && Vertex(FaceQuad(Back), 1) == Vec3(-1.0, 1.0, -1.0)
    ensures Vertex(FaceQuad(Back), 2) == Vec3(1.0, 1.0, -1.0) && Vertex(FaceQuad(Back), 3) == Vec3(1.0, -1.0, -1.0)
    ensures Outward(Back) == Vec3(0.0, 0.0, -1.0)
  {
  }

  lemma TopQuad()
    ensures WindsTowards(FaceQuad(Top), Outward(Top)) && GoesRound(FaceQuad(Top))
  {
    TopCorners();
    QuadFacts(FaceQuad(Top), Vec3(-1.0, 1.0, -1.0), Vec3(-1.0, 1.0, 1.0), Vec3(1.0, 1.0, 1.0), Vec3(1.0, 1.0, -1.0), Vec3(0.0, 0.0, 2.0), Vec3(2.0, 0.0, 2.0), Vec3(2.0, 0.0, 0.0), Vec3(0.0, 1.0, 0.0));
  }

  lemma TopCorners()
    ensures |FaceQuad(Top)| == 12
    ensures Vertex(FaceQuad(Top), 0) == Vec3(-1.0, 1.0, -1.0) && Vertex(FaceQuad(Top), 1) == Vec3(-1.0, 1.0, 1.0)
    ensures Vertex(FaceQuad(Top), 2) == Vec3(1.0, 1.0, 1.0) && Vertex(FaceQuad(Top), 3) == Vec3(1.0, 1.0, -1.0)
    ensures Outward(Top) == Vec3(0.0, 1.0, 0.0)
  {
  }

  lemma BottomQuad()
    ensures WindsTowards(FaceQuad(Bottom), Outward(Bottom)) && GoesRound(FaceQuad(Bottom))
  {
    BottomCorners();
    QuadFacts(FaceQuad(Bottom), Vec3(-1.0, -1.0, -1.0), Vec3(1.0, -1.0, -1.0), Vec3(1.0, -1.0, 1.0), Vec3(-1.0, -1.0, 1.0), Vec3(2.0, 0.0, 0.0), Vec3(2.0, 0.0, 2.0), Vec3(0.0, 0.0, 2.0), Vec3(0.0, -1.0, 0.0));
  }

  lemma BottomCorners()
    ensures |FaceQuad(Bottom)| == 12
    ensures Vertex(FaceQuad(Bottom), 0) == Vec3(-1.0, -1.0, -1.0) && Vertex(FaceQuad(Bottom), 1) == Vec3(1.0, -1.0, -1.0)
    ensures Vertex(FaceQuad(Bottom), 2) == Vec3(1.0, -1.0, 1.0) && Vertex(FaceQuad(Bottom), 3) == Vec3(-1.0, -1.0, 1.0)
    ensures Outward(Bottom) == Vec3(0.0, -1.0, 0.0)
  {
  }

  lemma RightQuad()
    ensures WindsTowards(FaceQuad(Right), Outward(Right)) && GoesRound(FaceQuad(Right))
  {
    RightCorners();
    QuadFacts(FaceQuad(Right), Vec3(1.0, -1.0, -1.0), Vec3(1.0, 1.0, -1.0), Vec3(1.0, 1.0, 1.0), Vec3(1.0, -1.0, 1.0), Vec3(0.0, 2.0, 0.0), Vec3(0.0, 2.0, 2.0), Vec3(0.0, 0.0, 2.0), Vec3(1.0, 0.0, 0.0));
  }

  lemma RightCorners()
    ensures |FaceQuad(Right)| == 12
    ensures Vertex(FaceQuad(Right), 0) == Vec3(1.0, -1.0, -1.0) && Vertex(FaceQuad(Right), 1) == Vec3(1.0, 1.0, -1.0)
    ensures Vertex(FaceQuad(Right), 2) == Vec3(1.0, 1.0, 1.0) && Vertex(FaceQuad(Right), 3) == Vec3(1.0, -1.0, 1.0)
    ensures Outward(Right) == Vec3(1.0, 0.0, 0.0)
  {
  }

  lemma LeftQuad()
    ensures WindsTowards(FaceQuad(Left), Outward(Left)) && GoesRound(FaceQuad(Left))
  {
    LeftCorners();
    QuadFacts(FaceQuad(Left), Vec3(-1.0, -1.0, -1.0), Vec3(-1.0, -1.0, 1.0), Vec3(-1.0, 1.0, 1.0), Vec3(-1.0, 1.0, -1.0), Vec3(0.0, 0.0, 2.0), Vec3(0.0, 2.0, 2.0), Vec3(0.0, 2.0, 0.0), Vec3(-1.0, 0.0, 0.0));
  }

  lemma LeftCorners()
    ensures |FaceQuad(Left)| == 12
    ensures Vertex(FaceQuad(Left), 0) == Vec3(-1.0, -1.0, -1.0) && Vertex(FaceQuad(Left), 1) == Vec3(-1.0, -1.0, 1.0)
    ensures Vertex(FaceQuad(Left), 2) == Vec3(-1.0, 1.0, 1.0) && Vertex(FaceQuad(Left), 3) == Vec3(-1.0, 1.0, -1.0)
    ensures Outward(Left) == Vec3(-1.0, 0.0, 0.0)
  {
  }

  /** The winding and the perimeter of a quad with corners a, b, c, d, read
      off its edge vectors from corner a. */
  lemma QuadFacts(quad: seq<real>, a: Vec3, b: Vec3, c: Vec3, d: Vec3, ab: Vec3, ac: Vec3, ad: Vec3, n: Vec3)
    requires |quad| == 12
    requires Vertex(quad, 0) == a && Vertex(quad, 1) == b && Vertex(quad, 2) == c && Vertex(quad, 3) == d
    requires b.Minus(a) == ab && c.Minus(a) == ac && d.Minus(a) == ad
    requires ab.Cross(ac).Dot(n) > 0.0 && ac.Cross(ad).Dot(n) > 0.0
    requires a.Differences(b) == 1 && b.Differences(c) == 1 && c.Differences(d) == 1 && d.Differences(a) == 1
    ensures WindsTowards(quad, n) && GoesRound(quad)
  {
    forall q | 0 <= q < 4
      ensures EdgeChanges(quad, q) == 1
    {
      assert q == 0 || q == 1 || q == 2 || q == 3;
    }
  }

  // ---------------------------------------------------------------------------
  // cubePositions

  /** The quad table lists the faces in the order of `Faces`. */
  lemma FaceQuadsInOrder()
    ensures |FaceQuads()| == 6 && AllOfLength(FaceQuads(), 12)
    ensures forall k :: 0 <= k < 6 ==> FaceQuads()[k] == FaceQuad(Faces[k])
  {
    forall k | 0 <= k < 6
      ensures FaceQuads()[k] == FaceQuad(Faces[k]) && |FaceQuads()[k]| == 12
    {
      assert k in {0, 1, 2, 3, 4, 5};
      FaceQuadShape(Faces[k]);
    }
  }

  /** `cubePositions` holds 24 vertices of 3 coordinates, every coordinate 1
      or -1. */
  lemma CubePositionsShape()
    ensures |CubePositions()| == PositionSize * VertexCount
    ensures forall i :: 0 <= i < |CubePositions()| ==> CubePositions()[i] == 1.0 || CubePositions()[i] == -1.0
  {
    FaceQuadsInOrder();
    forall k, m | 0 <= k < 6 && 0 <= m < 12
      ensures FaceQuads()[k][m] == 1.0 || FaceQuads()[k][m] == -1.0
    {
      FaceQuadShape(Faces[k]);
    }
    UnitEntries(FaceQuads());
  }

  /** Flattening quads whose coordinates are all 1 or -1 gives 1s and -1s. */
  lemma UnitEntries(quads: seq<seq<real>>)
    requires AllOfLength(quads, 12)
    requires forall k, m :: 0 <= k < |quads| && 0 <= m < 12 ==> quads[k][m] == 1.0 || quads[k][m] == -1.0
    ensures |Flatten(quads)| == 12 * |quads|
    ensures forall i :: 0 <= i < |Flatten(quads)| ==> Flatten(quads)[i] == 1.0 || Flatten(quads)[i] == -1.0
  {
    FlattenUniformLength(quads, 12);
    forall i | 0 <= i < |Flatten(quads)|
      ensures Flatten(quads)[i] == 1.0 || Flatten(quads)[i] == -1.0
    {
      FlattenUniformAt(quads, 12, i / 12, i % 12);
    }
  }

  /** Vertex `v` of `cubePositions` is corner `v % 4` of face `v / 4`. */
  lemma CubeVertexOfFace()
    ensures |CubePositions()| == PositionSize * VertexCount
    ensures forall v :: 0 <= v < VertexCount ==> Vertex(CubePositions(), v) == Vertex(FaceQuad(Faces[v / 4]), v % 4)
  {
    FaceQuadsInOrder();
    VerticesOfQuads(FaceQuads());
  }

  /** Flattening a list of quads puts corner v % 4 of quad v / 4 at vertex v. */
  lemma VerticesOfQuads(quads: seq<seq<real>>)
    requires AllOfLength(quads, 12)
    ensures |Flatten(quads)| == PositionSize * (4 * |quads|)
    ensures forall v :: 0 <= v < 4 * |quads| ==> Vertex(Flatten(quads), v) == Vertex(quads[v / 4], v % 4)
  {
    FlattenUniformLength(quads, 12);
    forall v | 0 <= v < 4 * |quads|
      ensures Vertex(Flatten(quads), v) == Vertex(quads[v / 4], v % 4)
    {
      var k, q := v / 4, v % 4;
      FlattenUniformAt(quads, 12, k, 3 * q);
      FlattenUniformAt(quads, 12, k, 3 * q + 1);
      FlattenUniformAt(quads, 12, k, 3 * q + 2);
    }
  }

  /** Every vertex lies on the plane of its face: the four vertices of face k
      share that face's fixed coordinate (front z = 1, back z = -1, top y = 1,
      bottom y = -1, right x = 1, left x = -1). */
  lemma CubeVerticesOnFaces()
    ensures |CubePositions()| == PositionSize * VertexCount
    ensures forall v :: 0 <= v < VertexCount ==>
      Vertex(CubePositions(), v).Coord(FixedAxis(Faces[v / 4])) == FixedValue(Faces[v / 4])
  {
    CubeVertexOfFace();
    forall v | 0 <= v < VertexCount
      ensures Vertex(CubePositions(), v).Coord(FixedAxis(Faces[v / 4])) == FixedValue(Faces[v / 4])
    {
      FaceQuadOnPlane(Faces[v / 4]);
    }
  }

  // ---------------------------------------------------------------------------
  // cubeColors and createColors

  /** `cubeColors`: one RGBA colour per face, components scaled to [0, 1]. */
  function CubeColors(): (cs: seq<seq<real>>)
    ensures |cs| == |Faces|
  {
    var purple := [163.0 / 255.0, 73.0 / 255.0, 164.0 / 255.0, 1.0];
    var yellow := [255.0 / 255.0, 242.0 / 255.0, 0.0 / 255.0, 1.0];
    var red := [237.0 / 255.0, 28.0 / 255.0, 36.0 / 255.0, 1.0];
    var blue := [63.0 / 255.0, 72.0 / 255.0, 204.0 / 255.0, 1.0];
    var orange := [255.0 / 255.0, 127.0 / 255.0, 39.0 / 255.0, 1.0];
    var green := [34.0 / 255.0, 177.0 / 255.0, 76.0 / 255.0, 1.0];
    [purple, yellow, red, blue, orange, green]
  }

  /** Six colours of four components in [0, 1], each fully opaque. */
  lemma CubeColorsShape()
    ensures |CubeColors()| == |Faces| && AllOfLength(CubeColors(), ColorSize)
    ensures forall k :: 0 <= k < |Faces| ==> CubeColors()[k][3] == 1.0
    ensures forall k, j :: 0 <= k < |Faces| && 0 <= j < ColorSize ==> 0.0 <= CubeColors()[k][j] <= 1.0
  {
    var cs := CubeColors();
    forall k, j | 0 <= k < |Faces| && 0 <= j < ColorSize
      ensures |cs[k]| == 4 && 0.0 <= cs[k][j] <= 1.0 && cs[k][3] == 1.0
    {
      assert k in {0, 1, 2, 3, 4, 5} && j in {0, 1, 2, 3};
    }
  }

  /** `createColors`: each face colour appended four times, once for every
      vertex of the face, in face order. */
  function CreateColors(faceColors: seq<seq<real>>): (colors: seq<real>)
    ensures |colors| == VerticesPerFace * |Flatten(faceColors)|
  {
    AppendFourTimesLength([], faceColors);
    AppendFourTimes([], faceColors)
  }

  /** The reduction `createColors` performs, folding from the left. */
  function AppendFourTimes(acc: seq<real>, faceColors: seq<seq<real>>): (r: seq<real>)
    ensures acc <= r
    decreases |faceColors|
  {
    if |faceColors| == 0 then acc
    else
      var c := faceColors[0];
      AppendFourTimes(acc + c + c + c + c, faceColors[1..])
  }

  /** Reference definition: one colour per vertex, vertex `v` taking the colour
      of face `v / 4`. */
  function PerVertexColors(faceColors: seq<seq<real>>): (vs: seq<seq<real>>)
    ensures |vs| == VerticesPerFace * |faceColors|
  {
    seq(4 * |faceColors|, v requires 0 <= v < 4 * |faceColors| => faceColors[v / 4])
  }

  /** The colours of vertex `v` in a flat list of RGBA quadruples. */
  function VertexColor(colors: seq<real>, v: nat): seq<real>
    requires ColorSize * v + 4 <= |colors|
  {
    colors[4 * v .. 4 * v + 4]
  }

  lemma {:induction false} AppendFourTimesExpands(acc: seq<real>, faceColors: seq<seq<real>>)
    ensures AppendFourTimes(acc, faceColors) == acc + Flatten(PerVertexColors(faceColors))
    decreases |faceColors|
  {
    if |faceColors| == 0 {
      assert PerVertexColors(faceColors) == [];
    } else {
      var c := faceColors[0];
      var rest := faceColors[1..];
      AppendFourTimesExpands(acc + c + c + c + c, rest);
      PerVertexColorsCons(faceColors);
      FlattenConcat([c, c, c, c], PerVertexColors(rest));
      FlattenFour(c);
    }
  }

  /** The first face contributes four copies of its colour, then the rest follow. */
  lemma PerVertexColorsCons(faceColors: seq<seq<real>>)
    requires |faceColors| > 0
    ensures var c := faceColors[0];
      PerVertexColors(faceColors) == [c, c, c, c] + PerVertexColors(faceColors[1..])
  {
  }

  lemma FlattenFour(c: seq<real>)
    ensures Flatten([c, c, c, c]) == c + c + c + c
  {
    assert [c, c, c, c][1..] == [c, c, c];
    assert [c, c, c][1..] == [c, c];
    assert [c, c][1..] == [c];
    assert [c][1..] == [];
    assert Flatten([c]) == c;
    assert Flatten([c, c]) == c + c;
    assert Flatten([c, c, c]) == c + c + c;
  }

  /** `createColors` is the flattening of the per-vertex colour list. */
  lemma CreateColorsExpands(faceColors: seq<seq<real>>)
    ensures CreateColors(faceColors) == Flatten(PerVertexColors(faceColors))
  {
    AppendFourTimesExpands([], faceColors);
  }

  lemma {:induction false} AppendFourTimesLength(acc: seq<real>, faceColors: seq<seq<real>>)
    ensures |AppendFourTimes(acc, faceColors)| == |acc| + 4 * |Flatten(faceColors)|
    decreases |faceColors|
  {
    if |faceColors| > 0 {
      var c := faceColors[0];
      AppendFourTimesLength(acc + c + c + c + c, faceColors[1..]);
    }
  }

  /** The expanded cube colours: 24 RGBA vertices (96 numbers), vertex `v`
      carrying the colour of face `v / 4`, fully opaque. */
  lemma CubeVertexColors()
    ensures |CreateColors(CubeColors())| == ColorSize * VertexCount
    ensures forall v :: 0 <= v < VertexCount ==>
      VertexColor(CreateColors(CubeColors()), v) == CubeColors()[v / 4]
    ensures forall v :: 0 <= v < VertexCount ==> CreateColors(CubeColors())[4 * v + 3] == 1.0
  {
    CubeColorsShape();
    VertexColorsOf(CubeColors());
    OpaqueVertexColors(CubeColors());
  }

  /** Opaque face colours give opaque vertex colours. */
  lemma OpaqueVertexColors(faceColors: seq<seq<real>>)
    requires AllOfLength(faceColors, ColorSize)
    requires forall k :: 0 <= k < |faceColors| ==> faceColors[k][3] == 1.0
    ensures |CreateColors(faceColors)| == ColorSize * (4 * |faceColors|)
    ensures forall v :: 0 <= v < 4 * |faceColors| ==> CreateColors(faceColors)[4 * v + 3] == 1.0
  {
    VertexColorsOf(faceColors);
    var colors := CreateColors(faceColors);
    forall v | 0 <= v < 4 * |faceColors|
      ensures colors[4 * v + 3] == 1.0
    {
      assert colors[4 * v + 3] == VertexColor(colors, v)[3];
    }
  }

  /** For any list of RGBA face colours, `createColors` gives vertex v the
      colour of face v / 4. */
  lemma VertexColorsOf(faceColors: seq<seq<real>>)
    requires AllOfLength(faceColors, ColorSize)
    ensures |CreateColors(faceColors)| == ColorSize * (4 * |faceColors|)
    ensures forall v :: 0 <= v < 4 * |faceColors| ==>
      VertexColor(CreateColors(faceColors), v) == faceColors[v / 4]
  {
    var pv := PerVertexColors(faceColors);
    var colors := CreateColors(faceColors);
    CreateColorsExpands(faceColors);
    assert AllOfLength(pv, 4);
    FlattenUniformLength(pv, 4);
    forall v | 0 <= v < 4 * |faceColors|
      ensures VertexColor(colors, v) == faceColors[v / 4]
    {
      forall j | 0 <= j < 4
        ensures colors[4 * v + j] == faceColors[v / 4][j]
      {
        FlattenUniformAt(pv, 4, v, j);
      }
    }
  }

  /** The position list and the expanded colour list describe the same 24
      vertices in the same order: vertex `v` lies on the plane of face `v / 4`
      and has that face's colour. */
  lemma MeshAlignment()
    ensures |CubePositions()| / PositionSize == VertexCount
    ensures |CreateColors(CubeColors())| / ColorSize == VertexCount
    ensures forall v :: 0 <= v < VertexCount ==>
      && Vertex(CubePositions(), v).Coord(FixedAxis(Faces[v / 4])) == FixedValue(Faces[v / 4])
      && VertexColor(CreateColors(CubeColors()), v) == CubeColors()[v / 4]
  {
    CubeVerticesOnFaces();
    CubeVertexColors();
  }

  // ---------------------------------------------------------------------------
  // cubeIndices

  /** Reference definition: face `k` is drawn as triangles (4k, 4k+1, 4k+2)
      and (4k, 4k+2, 4k+3), which split its quad along the diagonal from
      corner 0 to corner 2. */
  function FaceIndices(k: nat): seq<nat>
  {
    [4 * k, 4 * k + 1, 4 * k + 2, 4 * k, 4 * k + 2, 4 * k + 3]
  }

  /** The six index lists of `cubeIndices`, one per face. */
  function IndexTable(): (table: seq<seq<nat>>)
    ensures |table| == |Faces|
  {
    [
      [0, 1, 2, 0, 2, 3],
      [4, 5, 6, 4, 6, 7],
      [8, 9, 10, 8, 10, 11],
      [12, 13, 14, 12, 14, 15],
      [16, 17, 18, 16, 18, 19],
      [20, 21, 22, 20, 22, 23]
    ]
  }

  /** `cubeIndices`: the six lists flattened. */
  function CubeIndices(): (ci: seq<nat>)
    ensures |ci| == DrawCount
  {
    IndexTableByFace();
    FlattenUniformLength(IndexTable(), 6);
    Flatten(IndexTable())
  }

  /** Triangle `t` of an index list: entries 3t, 3t + 1 and 3t + 2. */
  function Triangle(indices: seq<nat>, t: nat): seq<nat>
    requires 3 * t + 3 <= |indices|
  {
    indices[3 * t .. 3 * t + 3]
  }

  /** The two triangles of face k use only the face's own four vertices, each
      triangle has three distinct corners, together they cover all four, and
      they share only the diagonal from vertex 4k to vertex 4k + 2. */
  lemma FaceIndicesCoverFace(k: nat)
    ensures forall m :: 0 <= m < 6 ==> 4 * k <= FaceIndices(k)[m] < 4 * k + 4
    ensures (set m | 0 <= m < 6 :: FaceIndices(k)[m]) == {4 * k, 4 * k + 1, 4 * k + 2, 4 * k + 3}
    ensures (set m | 0 <= m < 3 :: FaceIndices(k)[m]) == {4 * k, 4 * k + 1, 4 * k + 2}
    ensures (set m | 3 <= m < 6 :: FaceIndices(k)[m]) == {4 * k, 4 * k + 2, 4 * k + 3}
  {
    var fi := FaceIndices(k);
    var all := set m | 0 <= m < 6 :: fi[m];
    assert fi[0] in all && fi[1] in all && fi[2] in all && fi[5] in all;
    var first := set m | 0 <= m < 3 :: fi[m];
    var second := set m | 3 <= m < 6 :: fi[m];
    assert first == {4 * k, 4 * k + 1, 4 * k + 2} by {
      assert fi[0] in first && fi[1] in first && fi[2] in first;
    }
    assert second == {4 * k, 4 * k + 2, 4 * k + 3} by {
      assert fi[3] in second && fi[4] in second && fi[5] in second;
    }
  }

  /** The index lists of the table are the reference lists, face by face. */
  lemma IndexTableByFace()
    ensures |IndexTable()| == 6 && AllOfLength(IndexTable(), 6)
    ensures forall k :: 0 <= k < 6 ==> IndexTable()[k] == FaceIndices(k)
  {
    forall k | 0 <= k < 6
      ensures IndexTable()[k] == FaceIndices(k)
    {
      assert k in {0, 1, 2, 3, 4, 5};
    }
  }

  /** Entry 6k + m of `cubeIndices` is entry m of face k's list. */
  lemma CubeIndexAt(k: nat, m: nat)
    requires k < 6 && m < 6
    ensures |CubeIndices()| == DrawCount
    ensures CubeIndices()[6 * k + m] == FaceIndices(k)[m]
  {
    IndexTableByFace();
    FlattenUniformLength(IndexTable(), 6);
    FlattenUniformAt(IndexTable(), 6, k, m);
  }

  /** `cubeIndices` has 36 entries, and entries 6k .. 6k + 5 are the two
      triangles of face k. */
  lemma CubeIndicesByFace()
    ensures |CubeIndices()| == DrawCount
    ensures forall k, m :: 0 <= k < 6 && 0 <= m < 6 ==> CubeIndices()[6 * k + m] == FaceIndices(k)[m]
  {
    CubeIndexAt(0, 0);
    forall k, m | 0 <= k < 6 && 0 <= m < 6
      ensures CubeIndices()[6 * k + m] == FaceIndices(k)[m]
    {
      CubeIndexAt(k, m);
    }
  }

  /** Every index names one of the 24 vertices, so it also fits the 16-bit
      unsigned index type of the draw call. */
  lemma CubeIndicesInRange()
    ensures |CubeIndices()| == DrawCount
    ensures forall i :: 0 <= i < |CubeIndices()| ==> CubeIndices()[i] < VertexCount
  {
    CubeIndexAt(0, 0);
    forall i | 0 <= i < |CubeIndices()|
      ensures CubeIndices()[i] < VertexCount
    {
      var k, m := i / 6, i % 6;
      assert i == 6 * k + m;
      CubeIndexAt(k, m);
      FaceIndicesInFace(k, m);
    }
  }

  lemma FaceIndicesInFace(k: nat, m: nat)
    requires m < 6
    ensures 4 * k <= FaceIndices(k)[m] < 4 * k + 4
  {
  }

  /** Read in groups of three, `cubeIndices` is 12 triangles, two per face:
      triangle t is (4k, 4k + 1 + h, 4k + 2 + h) for face k = t / 2 and half
      h = t % 2, so its three corners are distinct vertices of face k. */
  lemma CubeTriangles()
    ensures |CubeIndices()| == 3 * 12
    ensures forall t :: 0 <= t < 12 ==>
      var tri := Triangle(CubeIndices(), t);
      && tri == [4 * (t / 2), 4 * (t / 2) + 1 + t % 2, 4 * (t / 2) + 2 + t % 2]
      && tri[0] < tri[1] < tri[2] < 4 * (t / 2) + 4
  {
    CubeIndicesByFace();
    TrianglesByFace(CubeIndices());
  }

  /** Any 36-entry index list laid out face by face as `FaceIndices` lays
      out face k has triangle t = 2k + h equal to (4k, 4k + 1 + h, 4k + 2 + h). */
  lemma TrianglesByFace(ci: seq<nat>)
    requires |ci| == DrawCount
    requires forall k, m :: 0 <= k < 6 && 0 <= m < 6 ==> ci[6 * k + m] == FaceIndices(k)[m]
    ensures forall t :: 0 <= t < 12 ==>
      var tri := Triangle(ci, t);
      && tri == [4 * (t / 2), 4 * (t / 2) + 1 + t % 2, 4 * (t / 2) + 2 + t % 2]
      && tri[0] < tri[1] < tri[2] < 4 * (t / 2) + 4
  {
    forall t | 0 <= t < 12
      ensures Triangle(ci, t) == [4 * (t / 2), 4 * (t / 2) + 1 + t % 2, 4 * (t / 2) + 2 + t % 2]
    {
      assert t == 2 * (t / 2) + t % 2;
      TriangleAt(ci, t / 2, t % 2);
    }
  }

  /** Triangle 2k + h of a list laid out face by face is the first (h = 0)
      or second (h = 1) triangle of face k. */
  lemma TriangleAt(ci: seq<nat>, k: nat, h: nat)
    requires k < 6 && h < 2 && |ci| == DrawCount
    requires forall m :: 0 <= m < 6 ==> ci[6 * k + m] == FaceIndices(k)[m]
    ensures Triangle(ci, 2 * k + h) == [4 * k, 4 * k + 1 + h, 4 * k + 2 + h]
  {
    var tri := Triangle(ci, 2 * k + h);
    var base := 6 * k + 3 * h;
    assert tri == [ci[base], ci[base + 1], ci[base + 2]];
    assert ci[base] == FaceIndices(k)[3 * h];
    assert ci[base + 1] == FaceIndices(k)[3 * h + 1];
    assert ci[base + 2] == FaceIndices(k)[3 * h + 2];
  }

  /** The three corners of triangle `tri` are vertices of `ps`. */
  predicate TriangleInBounds(ps: seq<real>, tri: seq<nat>)
    requires |tri| == 3
  {
    PositionSize * tri[0] + 2 < |ps| && PositionSize * tri[1] + 2 < |ps| && PositionSize * tri[2] + 2 < |ps|
  }

  /** The corners of triangle `tri` of the vertex list `ps` are corners
      0, 1 + h and 2 + h of `quad`: the first (h = 0) or second (h = 1)
      triangle of the quad. */
  predicate TriangleOfQuad(ps: seq<real>, tri: seq<nat>, quad: seq<real>, h: nat)
    requires |tri| == 3 && TriangleInBounds(ps, tri)
    requires |quad| == 12 && h < 2
  {
    && Vertex(ps, tri[0]) == Vertex(quad, 0)
    && Vertex(ps, tri[1]) == Vertex(quad, 1 + h)
    && Vertex(ps, tri[2]) == Vertex(quad, 2 + h)
  }

  /** Triangle `tri` of the vertex list `ps`, taken in index order, winds
      counter-clockwise seen from the side `n` points to. */
  predicate TriangleWindsTowards(ps: seq<real>, tri: seq<nat>, n: Vec3)
    requires |tri| == 3 && TriangleInBounds(ps, tri)
  {
    TriangleNormal(Vertex(ps, tri[0]), Vertex(ps, tri[1]), Vertex(ps, tri[2])).Dot(n) > 0.0
  }

  /** A triangle that is one half of a quad winds as the quad does: its
      normal points to the side `n` the quad winds towards. */
  lemma TriangleWinds(ps: seq<real>, tri: seq<nat>, quad: seq<real>, n: Vec3, h: nat)
    requires |tri| == 3 && TriangleInBounds(ps, tri)
    requires |quad| == 12 && h < 2
    requires WindsTowards(quad, n) && TriangleOfQuad(ps, tri, quad, h)
    ensures TriangleWindsTowards(ps, tri, n)
  {
  }

  /** Six quads, quad k winding outwards through face `Faces[k]`, flattened
      into one vertex list and drawn with an index list laid out face by face
      as `FaceIndices` lays out face k: every one of the 12 triangles winds
      outwards through the face it belongs to. */
  lemma QuadMeshWinds(quads: seq<seq<real>>, ci: seq<nat>)
    requires |quads| == 6 && AllOfLength(quads, 12)
    requires forall k :: 0 <= k < 6 ==> WindsTowards(quads[k], Outward(Faces[k]))
    requires |ci| == DrawCount
    requires forall k, m :: 0 <= k < 6 && 0 <= m < 6 ==> ci[6 * k + m] == FaceIndices(k)[m]
    ensures |Flatten(quads)| == PositionSize * VertexCount
    ensures forall t :: 0 <= t < 12 ==>
      var tri := Triangle(ci, t);
      tri[0] < tri[1] < tri[2] < VertexCount && TriangleWindsTowards(Flatten(quads), tri, Outward(Faces[t / 2]))
  {
    FlattenUniformLength(quads, 12);
    forall t | 0 <= t < 12
      ensures var tri := Triangle(ci, t);
        tri[0] < tri[1] < tri[2] < VertexCount && TriangleWindsTowards(Flatten(quads), tri, Outward(Faces[t / 2]))
    {
      var k, h := t / 2, t % 2;
      assert t == 2 * k + h;
      FaceTriangleWinds(quads, ci, k, h);
    }
  }

  /** Triangle 2k + h of such a mesh is half h of quad k, so it winds
      outwards through face `Faces[k]`. */
  lemma FaceTriangleWinds(quads: seq<seq<real>>, ci: seq<nat>, k: nat, h: nat)
    requires |quads| == 6 && AllOfLength(quads, 12)
    requires k < 6 && h < 2 && WindsTowards(quads[k], Outward(Faces[k]))
    requires |ci| == DrawCount
    requires forall m :: 0 <= m < 6 ==> ci[6 * k + m] == FaceIndices(k)[m]
    ensures |Flatten(quads)| == PositionSize * VertexCount
    ensures var tri := Triangle(ci, 2 * k + h);
      tri[0] < tri[1] < tri[2] < VertexCount && TriangleWindsTowards(Flatten(quads), tri, Outward(Faces[k]))
  {
    var ps := Flatten(quads);
    FlattenUniformLength(quads, 12);
    TriangleAt(ci, k, h);
    var tri := Triangle(ci, 2 * k + h);
    VertexOfQuads(quads, k, 0);
    VertexOfQuads(quads, k, 1 + h);
    VertexOfQuads(quads, k, 2 + h);
    assert TriangleOfQuad(ps, tri, quads[k], h);
    TriangleWinds(ps, tri, quads[k], Outward(Faces[k]), h);
  }

  /** Vertex 4k + q of flattened quads is corner q of quad k. */
  lemma VertexOfQuads(quads: seq<seq<real>>, k: nat, q: nat)
    requires AllOfLength(quads, 12) && k < |quads| && q < 4
    ensures PositionSize * (4 * k + q) + 2 < |Flatten(quads)|
    ensures Vertex(Flatten(quads), 4 * k + q) == Vertex(quads[k], q)
  {
    FlattenUniformAt(quads, 12, k, 3 * q);
    FlattenUniformAt(quads, 12, k, 3 * q + 1);
    FlattenUniformAt(quads, 12, k, 3 * q + 2);
  }

  /** The six face lists of `cubePositions` each wind outwards. */
  lemma FaceQuadsWindOut()
    ensures |FaceQuads()| == 6 && AllOfLength(FaceQuads(), 12)
    ensures forall k :: 0 <= k < 6 ==> WindsTowards(FaceQuads()[k], Outward(Faces[k]))
  {
    FaceQuadsInOrder();
    forall k | 0 <= k < 6
      ensures WindsTowards(FaceQuads()[k], Outward(Faces[k]))
    {
      FaceQuadWinding(Faces[k]);
    }
  }

  /** Every triangle of the draw call is front-facing seen from outside the
      cube: triangle t of `cubeIndices`, read on `cubePositions`, has a normal
      pointing out through face t / 2. */
  lemma CubeTrianglesWindOut()
    ensures |CubePositions()| == PositionSize * VertexCount && |CubeIndices()| == DrawCount
    ensures forall t :: 0 <= t < 12 ==>
      var tri := Triangle(CubeIndices(), t);
      tri[0] < tri[1] < tri[2] < VertexCount && TriangleWindsTowards(CubePositions(), tri, Outward(Faces[t / 2]))
  {
    FaceQuadsWindOut();
    CubeIndicesByFace();
    QuadMeshWinds(FaceQuads(), CubeIndices());
  }

  // ---------------------------------------------------------------------------
  // initBuffers and the draw call

  const Uint16Modulus: nat := 65536

  /** `new Uint16Array(xs)` on integral numbers: each value is reduced modulo
      2^16 into [0, 65536). */
  function ToUint16Array(xs: seq<int>): (ys: seq<nat>)
    ensures |ys| == |xs|
    ensures forall i :: 0 <= i < |xs| ==> ys[i] < Uint16Modulus && (xs[i] - ys[i]) % Uint16Modulus == 0
  {
    seq(|xs|, i requires 0 <= i < |xs| => xs[i] % Uint16Modulus)
  }

  /** Values that already fit 16 bits survive the conversion unchanged. */
  lemma ToUint16ArrayKeepsSmall(xs: seq<int>)
    requires forall i :: 0 <= i < |xs| ==> 0 <= xs[i] < Uint16Modulus
    ensures ToUint16Array(xs) == xs
  {
  }

  /** What `initBuffers` uploads: the positions, the expanded colours and the
      16-bit indices. */
  datatype MeshBuffers = MeshBuffers(positions: seq<real>, colors: seq<real>, indices: seq<nat>)

  function InitBuffers(): (b: MeshBuffers)
    ensures |b.positions| == PositionSize * VertexCount
    ensures |b.colors| == ColorSize * VertexCount
    ensures |b.indices| == DrawCount
  {
    CubeColorsShape();
    FlattenUniformLength(CubeColors(), ColorSize);
    MeshBuffers(CubePositions(), CreateColors(CubeColors()), ToUint16Array(CubeIndices()))
  }

  /** An indexed triangle draw of the first `count` indices reads whole
      triangles and only vertices that both attribute buffers hold. */
  predicate DrawInBounds(b: MeshBuffers, count: nat)
  {
    && |b.positions| % PositionSize == 0
    && |b.colors| % ColorSize == 0
    && count <= |b.indices|
    && count % 3 == 0
    && forall i :: 0 <= i < count ==>
         b.indices[i] < |b.positions| / PositionSize && b.indices[i] < |b.colors| / ColorSize
  }

  /** The uploaded index buffer equals `cubeIndices` (no index wraps), holds
      exactly the 36 indices the draw call reads, and every one of them names
      a vertex present in both attribute buffers. */
  lemma InitBuffersDrawable()
    ensures InitBuffers().indices == CubeIndices()
    ensures |InitBuffers().indices| == DrawCount
    ensures DrawInBounds(InitBuffers(), DrawCount)
  {
    CubeIndicesInRange();
    ToUint16ArrayKeepsSmall(CubeIndices());
    CubePositionsShape();
    CubeVertexColors();
  }
}
