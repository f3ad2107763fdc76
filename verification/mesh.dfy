/** The two generators side by side: what the index buffer GenerateCylinderIndices
    returns names in the vertex buffer GenerateCylinderVertices returns, and a
    stitching that follows the interleaved vertex layout. */
module CylinderMesh {
  import opened GlBuffers
  import opened CylinderVertices
  import opened CylinderIndices

  /** The number of vertices GenerateCylinderVertices emits for n steps. */
  function VertexCount(n: nat): nat
  {
    2 + 2 * n
  }

  /** Every index names one of the `count` vertices of the vertex buffer. */
  predicate NamesVertices(indices: seq<UShort>, count: nat)
  {
    forall p :: 0 <= p < |indices| ==> indices[p] < count
  }

  /** A triangle [u, v, w] of vertices below `count` whose numbers all have parity p. */
  lemma TriangleParity(tri: seq<UShort>, u: nat, v: nat, w: nat, count: nat, p: nat)
    requires tri == [u, v, w]
    requires u < count && v < count && w < count
    requires u % 2 == p && v % 2 == p && w % 2 == p
    ensures forall r :: 0 <= r < 3 ==> tri[r] < count && tri[r] % 2 == p
  {
  }

  /** As written, the last bottom-cap triangle is (1, 2n + 2, 2n + 3): both of its
      ring indices lie past the last vertex, 2n + 1, so the index buffer names
      vertices the vertex buffer does not have. */
  lemma BottomCapOverrunsVertices(indices: seq<UShort>, n: nat)
    requires 1 <= n <= MaxExactResolution
    requires indices == Stitch(CylinderTriangles(n), 4 * n)
    ensures TriangleAt(indices, 2 * n - 1) == [1, 2 * n + 2, 2 * n + 3]
    ensures 2 * n + 2 >= VertexCount(n) && 2 * n + 3 >= VertexCount(n)
    ensures !NamesVertices(indices, VertexCount(n))
  {
    GeneratedBottomCapAt(indices, n, 2 * n - 1);
    assert indices[3 * (2 * n - 1) + 2] == TriangleAt(indices, 2 * n - 1)[2];
  }

  /** As written, the top cap's second triangle joins the top centre, vertex 0 at
      y = height/2, to vertex 3, which the interleaved layout puts on the bottom
      ring at y = -height/2: the top cap is not on the top face. */
  lemma TopCapReachesBottomRing(verts: seq<real>, indices: seq<UShort>, height: real, n: nat,
                                ring: seq<RingPoint>, centre: ColorDraw, draw: seq<ColorDraw>)
    requires 2 <= n <= MaxExactResolution
    requires |ring| == n && |draw| == n
    requires verts == Flatten(CylinderLayout(height, n, ring, centre, draw))
    requires indices == Stitch(CylinderTriangles(n), 4 * n)
    ensures |indices| == 12 * n && |verts| == FloatsPerVertex * VertexCount(n)
    ensures indices[3] == 0 && indices[4] == 3
    ensures VertexAt(verts, indices[3]).y == height / 2.0
    ensures VertexAt(verts, indices[4]).y == -height / 2.0
  {
    GeneratedTopCapAt(indices, n, 1);
    assert indices[3] == TriangleAt(indices, 1)[0] && indices[4] == TriangleAt(indices, 1)[1];
    VertexHeightByParity(verts, height, n, ring, centre, draw, 0);
    VertexHeightByParity(verts, height, n, ring, centre, draw, 3);
  }

  /** The first triangle side step k adds to an index buffer, triangle 2n + 2k. */
  function SideFirst(indices: seq<UShort>, n: nat, k: nat): seq<UShort>
    requires 3 * (2 * n + 2 * k + 1) + 3 <= |indices|
  {
    TriangleAt(indices, 2 * n + 2 * k)
  }

  /** The second triangle side step k adds to an index buffer, triangle 2n + 2k + 1. */
  function SideSecond(indices: seq<UShort>, n: nat, k: nat): seq<UShort>
    requires 3 * (2 * n + 2 * k + 1) + 3 <= |indices|
  {
    TriangleAt(indices, 2 * n + 2 * k + 1)
  }

  /** Numbers an even distance apart have the same parity. */
  lemma ShiftParity(x: int, y: int, k: int)
    requires x == y + 2 * k
    ensures x % 2 == y % 2
  {
  }

  /** For an even n, the vertex numbers side iteration i = j + 2 names, i, i + n,
      the source's `i % n + 2` and that plus n, all have the parity of j; the
      wrapped one stays on the first n + 2 vertex numbers. */
  lemma SideParity(n: nat, j: nat)
    requires 2 <= n && n % 2 == 0 && j < n
    ensures (j + 2) % 2 == j % 2 && (j + 2 + n) % 2 == j % 2
    ensures CapNext(n, j + 2) % 2 == j % 2 && (CapNext(n, j + 2) + n) % 2 == j % 2
    ensures 2 <= CapNext(n, j + 2) <= n + 1
  {
    var h := n / 2;
    assert n == 2 * h;
    ShiftParity(j + 2, j, 1);
    ShiftParity(j + 2 + n, j, 1 + h);
    if j + 2 < n {
      ShiftParity(CapNext(n, j + 2), j, 2);
      ShiftParity(CapNext(n, j + 2) + n, j, 2 + h);
    } else {
      ShiftParity(CapNext(n, j + 2), j, 2 - h);
      ShiftParity(CapNext(n, j + 2) + n, j, 2);
    }
  }

  /** Side iteration i = j + 2 for an even n, as written: both of its triangles
      name vertices 0..2n + 1 whose numbers all have the parity of j. */
  lemma SideParityAt(indices: seq<UShort>, n: nat, j: nat)
    requires 2 <= n <= MaxExactResolution && n % 2 == 0 && j < n
    requires indices == Stitch(CylinderTriangles(n), 4 * n)
    ensures 3 * (2 * n + 2 * j + 1) + 3 <= |indices|
    ensures forall r :: 0 <= r < 3 ==>
      SideFirst(indices, n, j)[r] < VertexCount(n) && SideFirst(indices, n, j)[r] % 2 == j % 2
    ensures forall r :: 0 <= r < 3 ==>
      SideSecond(indices, n, j)[r] < VertexCount(n) && SideSecond(indices, n, j)[r] % 2 == j % 2
  {
    GeneratedSideFirstAt(indices, n, j);
    GeneratedSideSecondAt(indices, n, j);
    SideParity(n, j);
    var c := CapNext(n, j + 2);
    TriangleParity(SideFirst(indices, n, j), j + 2, c, j + 2 + n, VertexCount(n), j % 2);
    TriangleParity(SideSecond(indices, n, j), j + 2 + n, c, c + n, VertexCount(n), j % 2);
  }

  /** As written, for an even number of steps the side loop builds no wall: each
      of its triangles has all three vertices on one face, the top face for the
      iterations i = j + 2 with j even and the bottom face for j odd. With n = 4,
      side triangle 8 is (2, 4, 6), all at y = height/2. */
  lemma SideFlatWhenEven(verts: seq<real>, indices: seq<UShort>, height: real, n: nat,
                         ring: seq<RingPoint>, centre: ColorDraw, draw: seq<ColorDraw>)
    requires 2 <= n <= MaxExactResolution && n % 2 == 0
    requires |ring| == n && |draw| == n
    requires verts == Flatten(CylinderLayout(height, n, ring, centre, draw))
    requires indices == Stitch(CylinderTriangles(n), 4 * n)
    ensures |indices| == 12 * n && |verts| == FloatsPerVertex * VertexCount(n)
    ensures forall j, r :: 0 <= j < n && 0 <= r < 3 ==>
      && SideFirst(indices, n, j)[r] < VertexCount(n)
      && VertexAt(verts, SideFirst(indices, n, j)[r]).y
         == (if j % 2 == 0 then height / 2.0 else -height / 2.0)
    ensures forall j, r :: 0 <= j < n && 0 <= r < 3 ==>
      && SideSecond(indices, n, j)[r] < VertexCount(n)
      && VertexAt(verts, SideSecond(indices, n, j)[r]).y
         == (if j % 2 == 0 then height / 2.0 else -height / 2.0)
  {
    forall j, r | 0 <= j < n && 0 <= r < 3
      ensures SideFirst(indices, n, j)[r] < VertexCount(n)
      ensures VertexAt(verts, SideFirst(indices, n, j)[r]).y
           == (if j % 2 == 0 then height / 2.0 else -height / 2.0)
    {
      SideParityAt(indices, n, j);
      VertexHeightByParity(verts, height, n, ring, centre, draw, SideFirst(indices, n, j)[r]);
    }
    forall j, r | 0 <= j < n && 0 <= r < 3
      ensures SideSecond(indices, n, j)[r] < VertexCount(n)
      ensures VertexAt(verts, SideSecond(indices, n, j)[r]).y
           == (if j % 2 == 0 then height / 2.0 else -height / 2.0)
    {
      SideParityAt(indices, n, j);
      VertexHeightByParity(verts, height, n, ring, centre, draw, SideSecond(indices, n, j)[r]);
    }
  }

  /** The ring step after step k, wrapping from the last step back to the first. */
  function NextStep(n: nat, k: nat): (next: nat)
    requires k < n
    ensures next < n
  {
    if k + 1 < n then k + 1 else 0
  }

  /** The cap triangles the interleaved layout calls for: a fan from the top centre
      over the top vertices 2 + 2k, each joining step k to the next step, then one
      from the bottom centre over the bottom vertices 3 + 2k, joining the next step
      to step k, so that the bottom cap is wound the other way round and faces
      down. */
  function CorrectedCaps(n: nat): (ts: seq<Triple>)
    ensures |ts| == 2 * n
  {
    seq(2 * n, m requires 0 <= m < 2 * n => CorrectedCapTriangle(n, m))
  }

  /** Cap triangle m of the corrected stitching. */
  function CorrectedCapTriangle(n: nat, m: nat): Triple
    requires m < 2 * n
  {
    if m < n then Triple(0, TopRing(m), TopRing(NextStep(n, m)))
    else Triple(1, BottomRing(NextStep(n, m - n)), BottomRing(m - n))
  }

  /** The side quad of step k, as two triangles joining step k to the next step. */
  function CorrectedSidePair(n: nat, k: nat): seq<Triple>
    requires k < n
  {
    [Triple(TopRing(k), TopRing(NextStep(n, k)), BottomRing(k)),
     Triple(BottomRing(k), TopRing(NextStep(n, k)), BottomRing(NextStep(n, k)))]
  }

  /** The side quads of the first k steps. */
  function CorrectedSide(n: nat, k: nat): (ts: seq<Triple>)
    requires k <= n
    ensures |ts| == 2 * k
  {
    if k == 0 then [] else CorrectedSide(n, k - 1) + CorrectedSidePair(n, k - 1)
  }

  /** The corrected stitching, in the order GenerateCylinderIndices emits its
      triangles: top cap, bottom cap, side. */
  function CorrectedTriangles(n: nat): (ts: seq<Triple>)
    ensures |ts| == 4 * n
  {
    CorrectedCaps(n) + CorrectedSide(n, n)
  }

  /** The corrected caps are wound in opposite directions: the bottom triangle of
      step k visits the vertices directly below those of the top triangle of step
      k, the two ring vertices in reverse order. */
  lemma CorrectedCapsWoundOppositely(n: nat, k: nat)
    requires k < n
    ensures CorrectedTriangles(n)[k].a == 0 && CorrectedTriangles(n)[n + k].a == 1
    ensures CorrectedTriangles(n)[n + k].b == CorrectedTriangles(n)[k].c + 1
    ensures CorrectedTriangles(n)[n + k].c == CorrectedTriangles(n)[k].b + 1
  {
    assert CorrectedTriangles(n)[k] == CorrectedCaps(n)[k];
    assert CorrectedTriangles(n)[n + k] == CorrectedCaps(n)[n + k];
  }

  /** Side triangles 2k and 2k + 1 of the corrected stitching are the quad of step k. */
  lemma {:induction false} CorrectedSideAt(n: nat, k: nat, j: nat)
    requires j < k <= n
    ensures CorrectedSide(n, k)[2 * j] == Triple(TopRing(j), TopRing(NextStep(n, j)), BottomRing(j))
    ensures CorrectedSide(n, k)[2 * j + 1]
         == Triple(BottomRing(j), TopRing(NextStep(n, j)), BottomRing(NextStep(n, j)))
  {
    if j < k - 1 {
      CorrectedSideAt(n, k - 1, j);
      assert CorrectedSide(n, k) == CorrectedSide(n, k - 1) + CorrectedSidePair(n, k - 1);
    }
  }

  /** Every corrected triangle names vertices 0..2n + 1 only. */
  lemma CorrectedTriplesWithin(n: nat)
    ensures TriplesWithin(CorrectedTriangles(n), 0, 4 * n, 0, 2 * n + 1)
  {
    var ts := CorrectedTriangles(n);
    forall m | 0 <= m < 2 * n
      ensures 0 <= ts[m].a <= 2 * n + 1 && 0 <= ts[m].b <= 2 * n + 1 && 0 <= ts[m].c <= 2 * n + 1
    {
      assert ts[m] == CorrectedCaps(n)[m];
    }
    forall m | 2 * n <= m < 4 * n
      ensures 0 <= ts[m].a <= 2 * n + 1 && 0 <= ts[m].b <= 2 * n + 1 && 0 <= ts[m].c <= 2 * n + 1
    {
      var k := (m - 2 * n) / 2;
      CorrectedSideAt(n, n, k);
      assert ts[m] == CorrectedSide(n, n)[m - 2 * n];
      assert m - 2 * n == 2 * k || m - 2 * n == 2 * k + 1;
    }
  }

  /** The corrected index buffer has 12n entries, and every one names a vertex of
      the 2 + 2n-vertex buffer, as long as 2n + 1 fits in a GLushort. */
  lemma CorrectedIndicesInRange(n: nat)
    requires 2 * n + 1 < 0x1_0000
    ensures |Stitch(CorrectedTriangles(n), 4 * n)| == 12 * n
    ensures NamesVertices(Stitch(CorrectedTriangles(n), 4 * n), VertexCount(n))
  {
    CorrectedTriplesWithin(n);
    StitchWithin(CorrectedTriangles(n), 0, 4 * n, 4 * n, 0, 2 * n + 1);
  }

  /** Corrected top-cap triangle j of the buffer: (0, 2 + 2j, 2 + 2 next). */
  lemma CorrectedTopCapAt(indices: seq<UShort>, n: nat, j: nat)
    requires 2 * n + 1 < 0x1_0000 && j < n
    requires indices == Stitch(CorrectedTriangles(n), 4 * n)
    ensures 3 * j + 3 <= |indices|
    ensures TriangleAt(indices, j) == [0, TopRing(j), TopRing(NextStep(n, j))]
  {
    var ts := CorrectedTriangles(n);
    assert ts[j] == CorrectedCaps(n)[j];
    StitchedTriangle(ts, 4 * n, j);
  }

  /** Corrected bottom-cap triangle n + k of the buffer: (1, 3 + 2 next, 3 + 2k). */
  lemma CorrectedBottomCapAt(indices: seq<UShort>, n: nat, k: nat)
    requires 2 * n + 1 < 0x1_0000 && k < n
    requires indices == Stitch(CorrectedTriangles(n), 4 * n)
    ensures 3 * (n + k) + 3 <= |indices|
    ensures TriangleAt(indices, n + k) == [1, BottomRing(NextStep(n, k)), BottomRing(k)]
  {
    var ts := CorrectedTriangles(n);
    assert ts[n + k] == CorrectedCaps(n)[n + k];
    StitchedTriangle(ts, 4 * n, n + k);
  }

  /** The vertices of the top centre and the top ring are at y = height/2. */
  lemma TopFaceVertex(verts: seq<real>, height: real, n: nat, ring: seq<RingPoint>,
                      centre: ColorDraw, draw: seq<ColorDraw>, v: nat)
    requires |ring| == n && |draw| == n
    requires verts == Flatten(CylinderLayout(height, n, ring, centre, draw))
    requires v == 0 || exists k :: 0 <= k < n && v == TopRing(k)
    ensures FloatsPerVertex * v + FloatsPerVertex <= |verts|
    ensures VertexAt(verts, v).y == height / 2.0
  {
    VertexHeightByParity(verts, height, n, ring, centre, draw, v);
  }

  /** The vertices of the bottom centre and the bottom ring are at y = -height/2. */
  lemma BottomFaceVertex(verts: seq<real>, height: real, n: nat, ring: seq<RingPoint>,
                         centre: ColorDraw, draw: seq<ColorDraw>, v: nat)
    requires |ring| == n && |draw| == n
    requires verts == Flatten(CylinderLayout(height, n, ring, centre, draw))
    requires v == 1 || exists k :: 0 <= k < n && v == BottomRing(k)
    ensures FloatsPerVertex * v + FloatsPerVertex <= |verts|
    ensures VertexAt(verts, v).y == -height / 2.0
  {
    VertexHeightByParity(verts, height, n, ring, centre, draw, v);
  }

  /** Step k's top vertex has an even number and its bottom vertex an odd one,
      both below 2 + 2n. */
  lemma RingParity(n: nat, k: nat)
    requires k < n
    ensures TopRing(k) % 2 == 0 && BottomRing(k) % 2 == 1
    ensures TopRing(k) < VertexCount(n) && BottomRing(k) < VertexCount(n)
  {
  }

  /** Every vertex a corrected cap triangle names exists, and its number is even
      on the top cap (triangles 0..n - 1) and odd on the bottom cap (n..2n - 1). */
  lemma CorrectedCapParityAt(indices: seq<UShort>, n: nat, j: nat)
    requires 2 * n + 1 < 0x1_0000 && j < 2 * n
    requires indices == Stitch(CorrectedTriangles(n), 4 * n)
    ensures 3 * j + 3 <= |indices|
    ensures forall r :: 0 <= r < 3 ==>
      TriangleAt(indices, j)[r] < VertexCount(n) && TriangleAt(indices, j)[r] % 2 == (if j < n then 0 else 1)
  {
    if j < n {
      CorrectedTopCapAt(indices, n, j);
      RingParity(n, j);
      RingParity(n, NextStep(n, j));
      TriangleParity(TriangleAt(indices, j), 0, TopRing(j), TopRing(NextStep(n, j)), VertexCount(n), 0);
    } else {
      CorrectedBottomCapAt(indices, n, j - n);
      RingParity(n, j - n);
      RingParity(n, NextStep(n, j - n));
      TriangleParity(TriangleAt(indices, j), 1, BottomRing(NextStep(n, j - n)), BottomRing(j - n),
                     VertexCount(n), 1);
    }
  }

  /** Every vertex the corrected top cap names is on the top face, at y = height/2,
      and every vertex the corrected bottom cap names is on the bottom face. */
  lemma CorrectedCapsOnTheirFaces(verts: seq<real>, indices: seq<UShort>, height: real, n: nat,
                                  ring: seq<RingPoint>, centre: ColorDraw, draw: seq<ColorDraw>)
    requires 2 * n + 1 < 0x1_0000
    requires |ring| == n && |draw| == n
    requires verts == Flatten(CylinderLayout(height, n, ring, centre, draw))
    requires indices == Stitch(CorrectedTriangles(n), 4 * n)
    ensures |indices| == 12 * n && |verts| == FloatsPerVertex * VertexCount(n)
    ensures forall j, r :: 0 <= j < n && 0 <= r < 3 ==>
      TriangleAt(indices, j)[r] < VertexCount(n) && VertexAt(verts, TriangleAt(indices, j)[r]).y == height / 2.0
    ensures forall j, r :: n <= j < 2 * n && 0 <= r < 3 ==>
      TriangleAt(indices, j)[r] < VertexCount(n) && VertexAt(verts, TriangleAt(indices, j)[r]).y == -height / 2.0
  {
    forall j, r | 0 <= j < n && 0 <= r < 3
      ensures TriangleAt(indices, j)[r] < VertexCount(n)
      ensures VertexAt(verts, TriangleAt(indices, j)[r]).y == height / 2.0
    {
      CorrectedCapParityAt(indices, n, j);
      VertexHeightByParity(verts, height, n, ring, centre, draw, TriangleAt(indices, j)[r]);
    }
    forall j, r | n <= j < 2 * n && 0 <= r < 3
      ensures TriangleAt(indices, j)[r] < VertexCount(n)
      ensures VertexAt(verts, TriangleAt(indices, j)[r]).y == -height / 2.0
    {
      CorrectedCapParityAt(indices, n, j);
      VertexHeightByParity(verts, height, n, ring, centre, draw, TriangleAt(indices, j)[r]);
    }
  }


  /** For n >= 3 no corrected triangle repeats a vertex. */
  lemma CorrectedTrianglesProper(n: nat)
    requires 3 <= n
    ensures forall m :: 0 <= m < 4 * n ==>
      CorrectedTriangles(n)[m].a != CorrectedTriangles(n)[m].b
      && CorrectedTriangles(n)[m].b != CorrectedTriangles(n)[m].c
      && CorrectedTriangles(n)[m].a != CorrectedTriangles(n)[m].c
  {
    var ts := CorrectedTriangles(n);
    forall m | 0 <= m < 2 * n
      ensures ts[m].a != ts[m].b && ts[m].b != ts[m].c && ts[m].a != ts[m].c
    {
      assert ts[m] == CorrectedCaps(n)[m];
    }
    forall m | 2 * n <= m < 4 * n
      ensures ts[m].a != ts[m].b && ts[m].b != ts[m].c && ts[m].a != ts[m].c
    {
      var k := (m - 2 * n) / 2;
      CorrectedSideAt(n, n, k);
      assert ts[m] == CorrectedSide(n, n)[m - 2 * n];
      assert m - 2 * n == 2 * k || m - 2 * n == 2 * k + 1;
    }
  }

  /** Where a corrected triangle sits in the emission order, read off its vertex
      numbers: the centre tells a cap triangle apart and names its ring step, and
      a side triangle's first vertex, 2 + 2k or 3 + 2k, names its place in the
      quad of step k. */
  function CorrectedEmissionIndex(n: nat, t: Triple): int
  {
    if t.a == 0 then (t.b - 2) / 2
    else if t.a == 1 then n + (t.c - 3) / 2
    else 2 * n + t.a - 2
  }

  /** Corrected triangle m is the only one whose vertex numbers point back to position m. */
  lemma CorrectedEmissionIndexInverts(n: nat, m: nat)
    requires m < 4 * n
    ensures CorrectedEmissionIndex(n, CorrectedTriangles(n)[m]) == m
  {
    var ts := CorrectedTriangles(n);
    if m < 2 * n {
      assert ts[m] == CorrectedCaps(n)[m];
    } else {
      var k := (m - 2 * n) / 2;
      CorrectedSideAt(n, n, k);
      assert ts[m] == CorrectedSide(n, n)[m - 2 * n];
      assert m - 2 * n == 2 * k || m - 2 * n == 2 * k + 1;
    }
  }

  /** No two corrected triangles are identical. */
  lemma CorrectedTrianglesDistinct(n: nat)
    ensures forall m1, m2 :: 0 <= m1 < m2 < 4 * n ==> CorrectedTriangles(n)[m1] != CorrectedTriangles(n)[m2]
  {
    forall m1, m2 | 0 <= m1 < m2 < 4 * n
      ensures CorrectedTriangles(n)[m1] != CorrectedTriangles(n)[m2]
    {
      CorrectedEmissionIndexInverts(n, m1);
      CorrectedEmissionIndexInverts(n, m2);
    }
  }

  /** The quad of corrected step k in the buffer: (2 + 2k, 2 + 2 next, 3 + 2k) and
      (3 + 2k, 2 + 2 next, 3 + 2 next). */
  lemma CorrectedSideQuadAt(indices: seq<UShort>, n: nat, k: nat)
    requires 2 * n + 1 < 0x1_0000 && k < n
    requires indices == Stitch(CorrectedTriangles(n), 4 * n)
    ensures 3 * (2 * n + 2 * k + 1) + 3 <= |indices|
    ensures TriangleAt(indices, 2 * n + 2 * k) == [TopRing(k), TopRing(NextStep(n, k)), BottomRing(k)]
    ensures TriangleAt(indices, 2 * n + 2 * k + 1)
         == [BottomRing(k), TopRing(NextStep(n, k)), BottomRing(NextStep(n, k))]
  {
    var ts := CorrectedTriangles(n);
    CorrectedSideAt(n, n, k);
    assert ts[2 * n + 2 * k] == CorrectedSide(n, n)[2 * k];
    assert ts[2 * n + 2 * k + 1] == CorrectedSide(n, n)[2 * k + 1];
    StitchedTriangle(ts, 4 * n, 2 * n + 2 * k);
    StitchedTriangle(ts, 4 * n, 2 * n + 2 * k + 1);
  }

  /** The vertices of corrected side step k exist, and their numbers are even
      (top face) at the two top corners and odd (bottom face) at the bottom ones:
      (even, even, odd) in the first triangle and (odd, even, odd) in the second. */
  lemma CorrectedSideParityAt(indices: seq<UShort>, n: nat, k: nat)
    requires 2 * n + 1 < 0x1_0000 && k < n
    requires indices == Stitch(CorrectedTriangles(n), 4 * n)
    ensures 3 * (2 * n + 2 * k + 1) + 3 <= |indices|
    ensures forall r :: 0 <= r < 3 ==>
      SideFirst(indices, n, k)[r] < VertexCount(n) && SideFirst(indices, n, k)[r] % 2 == (if r < 2 then 0 else 1)
    ensures forall r :: 0 <= r < 3 ==>
      SideSecond(indices, n, k)[r] < VertexCount(n) && SideSecond(indices, n, k)[r] % 2 == (if r == 1 then 0 else 1)
  {
    CorrectedSideQuadAt(indices, n, k);
    RingParity(n, k);
    RingParity(n, NextStep(n, k));
  }

  /** Every corrected side triangle joins the two faces: the first of step k has
      two top vertices and one bottom vertex, the second one top vertex between
      two bottom vertices. */
  lemma CorrectedSideSpansFaces(verts: seq<real>, indices: seq<UShort>, height: real, n: nat,
                                ring: seq<RingPoint>, centre: ColorDraw, draw: seq<ColorDraw>)
    requires 2 * n + 1 < 0x1_0000
    requires |ring| == n && |draw| == n
    requires verts == Flatten(CylinderLayout(height, n, ring, centre, draw))
    requires indices == Stitch(CorrectedTriangles(n), 4 * n)
    ensures |indices| == 12 * n && |verts| == FloatsPerVertex * VertexCount(n)
    ensures forall k, r :: 0 <= k < n && 0 <= r < 3 ==>
      && SideFirst(indices, n, k)[r] < VertexCount(n)
      && VertexAt(verts, SideFirst(indices, n, k)[r]).y
         == (if r < 2 then height / 2.0 else -height / 2.0)
    ensures forall k, r :: 0 <= k < n && 0 <= r < 3 ==>
      && SideSecond(indices, n, k)[r] < VertexCount(n)
      && VertexAt(verts, SideSecond(indices, n, k)[r]).y
         == (if r == 1 then height / 2.0 else -height / 2.0)
  {
    forall k, r | 0 <= k < n && 0 <= r < 3
      ensures SideFirst(indices, n, k)[r] < VertexCount(n)
      ensures VertexAt(verts, SideFirst(indices, n, k)[r]).y
           == (if r < 2 then height / 2.0 else -height / 2.0)
    {
      CorrectedSideParityAt(indices, n, k);
      VertexHeightByParity(verts, height, n, ring, centre, draw, SideFirst(indices, n, k)[r]);
    }
    forall k, r | 0 <= k < n && 0 <= r < 3
      ensures SideSecond(indices, n, k)[r] < VertexCount(n)
      ensures VertexAt(verts, SideSecond(indices, n, k)[r]).y
           == (if r == 1 then height / 2.0 else -height / 2.0)
    {
      CorrectedSideParityAt(indices, n, k);
      VertexHeightByParity(verts, height, n, ring, centre, draw, SideSecond(indices, n, k)[r]);
    }
  }

}
