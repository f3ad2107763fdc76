/** The cylinder's vertex buffer: AddVertex, RandomColor's fixed alpha and
    GenerateCylinderVertices, with the layout of the buffer they produce.

    GLfloat values are modelled as reals. The ring samples
    radius * cos(i * 2pi / n) and radius * sin(i * 2pi / n), and the random
    colour draws, are inputs of the model rather than computed in it. */
module CylinderVertices {
  import opened GlBuffers

  /** An RGBA colour (glm::vec4). */
  datatype Color = Color(r: real, g: real, b: real, a: real)

  /** The three uniform draws in [0, 1] that one call of RandomColor makes. */
  datatype ColorDraw = ColorDraw(r: real, g: real, b: real)

  /** The x and z coordinates of ring sample i: radius * cos and radius * sin of its angle. */
  datatype RingPoint = RingPoint(x: real, z: real)

  /** One vertex: position and colour. */
  datatype Vertex = Vertex(x: real, y: real, z: real, color: Color)

  /** Floats per vertex in the interleaved attribute buffer: 3 position + 4 colour. */
  const FloatsPerVertex: nat := 7

  /** RandomColor: the three drawn components, and alpha fixed at 1. */
  function RandomColor(draw: ColorDraw): Color
  {
    Color(draw.r, draw.g, draw.b, 1.0)
  }

  /** The seven floats of one vertex record, in the order AddVertex pushes them. */
  function Record(v: Vertex): seq<real>
  {
    [v.x, v.y, v.z, v.color.r, v.color.g, v.color.b, v.color.a]
  }

  /** AddVertex appends one 7-float record and leaves the earlier floats as they were. */
  method AddVertex(verts: Vector<real>, x: real, y: real, z: real, color: Color)
    modifies verts
    ensures verts.items == old(verts.items) + [x, y, z, color.r, color.g, color.b, color.a]
  {
    verts.PushBack(x);
    verts.PushBack(y);
    verts.PushBack(z);
    verts.PushBack(color.r);
    verts.PushBack(color.g);
    verts.PushBack(color.b);
    verts.PushBack(color.a);
  }

  /** The float buffer that adding the vertices vs one after the other produces. */
  function Flatten(vs: seq<Vertex>): (fs: seq<real>)
    ensures |fs| == FloatsPerVertex * |vs|
  {
    if vs == [] then [] else Flatten(vs[..|vs| - 1]) + Record(vs[|vs| - 1])
  }

  /** Reads vertex k back out of a float buffer (what the GPU sees at stride 7). */
  function VertexAt(fs: seq<real>, k: nat): Vertex
    requires FloatsPerVertex * k + FloatsPerVertex <= |fs|
  {
    var p := FloatsPerVertex * k;
    Vertex(fs[p], fs[p + 1], fs[p + 2], Color(fs[p + 3], fs[p + 4], fs[p + 5], fs[p + 6]))
  }

  /** Every whole vertex of a float buffer, read back at stride 7. */
  function Unflatten(fs: seq<real>): (vs: seq<Vertex>)
    ensures |vs| == |fs| / FloatsPerVertex
  {
    seq(|fs| / FloatsPerVertex, k requires 0 <= k < |fs| / FloatsPerVertex => VertexAt(fs, k))
  }

  /** Appending a record keeps every earlier vertex of the buffer readable as before. */
  lemma VertexAtAppend(fs: seq<real>, v: Vertex, k: nat)
    requires |fs| % FloatsPerVertex == 0
    requires FloatsPerVertex * k <= |fs|
    ensures FloatsPerVertex * k + FloatsPerVertex <= |fs + Record(v)|
    ensures VertexAt(fs + Record(v), k) == if FloatsPerVertex * k == |fs| then v else VertexAt(fs, k)
  {
  }

  /** Reading vertex k back out of the flattened buffer gives vertex k. */
  lemma {:induction false} FlattenAt(vs: seq<Vertex>, k: nat)
    requires k < |vs|
    ensures VertexAt(Flatten(vs), k) == vs[k]
  {
    var last := |vs| - 1;
    var front := vs[..last];
    assert Flatten(vs) == Flatten(front) + Record(vs[last]);
    VertexAtAppend(Flatten(front), vs[last], k);
    if k < last {
      FlattenAt(front, k);
    }
  }

  /** Decoding the flattened buffer at stride 7 gives back exactly the vertices added. */
  lemma UnflattenFlatten(vs: seq<Vertex>)
    ensures Unflatten(Flatten(vs)) == vs
  {
    var fs := Flatten(vs);
    forall k | 0 <= k < |vs|
      ensures Unflatten(fs)[k] == vs[k]
    {
      FlattenAt(vs, k);
    }
  }

  /** Where ring step i's top and bottom vertices sit in the interleaved vertex order. */
  function TopRing(i: nat): nat { 2 + 2 * i }
  function BottomRing(i: nat): nat { 3 + 2 * i }

  /** Vertex k of the generated cylinder, in closed form: 0 is the top centre,
      1 the bottom centre, then step i contributes a top vertex (even k) and a
      bottom vertex (odd k) with the same x, z and colour. */
  function LayoutVertex(height: real, ring: seq<RingPoint>, centre: ColorDraw,
                        draw: seq<ColorDraw>, k: nat): Vertex
    requires k < 2 + 2 * |ring| && |draw| == |ring|
  {
    if k == 0 then Vertex(0.0, height / 2.0, 0.0, RandomColor(centre))
    else if k == 1 then Vertex(0.0, -height / 2.0, 0.0, RandomColor(centre))
    else
      var i := (k - 2) / 2;
      Vertex(ring[i].x, if k % 2 == 0 then height / 2.0 else -height / 2.0, ring[i].z,
             RandomColor(draw[i]))
  }

  /** Step i's two vertices in the closed-form layout. */
  lemma LayoutRing(height: real, ring: seq<RingPoint>, centre: ColorDraw, draw: seq<ColorDraw>, i: nat)
    requires i < |ring| && |draw| == |ring|
    ensures LayoutVertex(height, ring, centre, draw, TopRing(i))
         == Vertex(ring[i].x, height / 2.0, ring[i].z, RandomColor(draw[i]))
    ensures LayoutVertex(height, ring, centre, draw, BottomRing(i))
         == Vertex(ring[i].x, -height / 2.0, ring[i].z, RandomColor(draw[i]))
  {
    assert (TopRing(i) - 2) / 2 == i && TopRing(i) % 2 == 0;
    assert (BottomRing(i) - 2) / 2 == i && BottomRing(i) % 2 == 1;
  }

  /** The 2 + 2n vertices of a cylinder with n angular steps. */
  function CylinderLayout(height: real, n: nat, ring: seq<RingPoint>, centre: ColorDraw,
                          draw: seq<ColorDraw>): (vs: seq<Vertex>)
    requires n <= |ring| && |draw| == |ring|
    ensures |vs| == 2 + 2 * n
  {
    seq(2 + 2 * n, k requires 0 <= k < 2 + 2 * n => LayoutVertex(height, ring, centre, draw, k))
  }

  /** Two more vertices at the end of a float buffer. */
  lemma FlattenTwoMore(vs: seq<Vertex>, a: Vertex, b: Vertex)
    ensures Flatten(vs + [a, b]) == Flatten(vs) + Record(a) + Record(b)
  {
    assert (vs + [a, b])[..|vs| + 1] == vs + [a];
    assert (vs + [a])[..|vs|] == vs;
  }

  /** The buffer before the loop: the two centre vertices, sharing the colour c. */
  lemma LayoutStart(height: real, ring: seq<RingPoint>, centre: ColorDraw, draw: seq<ColorDraw>, c: Color)
    requires |draw| == |ring|
    requires c == RandomColor(centre)
    ensures Flatten(CylinderLayout(height, 0, ring, centre, draw))
         == [] + [0.0, height / 2.0, 0.0, c.r, c.g, c.b, c.a]
               + [0.0, -height / 2.0, 0.0, c.r, c.g, c.b, c.a]
  {
    var top := LayoutVertex(height, ring, centre, draw, 0);
    var bottom := LayoutVertex(height, ring, centre, draw, 1);
    assert CylinderLayout(height, 0, ring, centre, draw) == [] + [top, bottom];
    FlattenTwoMore([], top, bottom);
  }

  /** What loop iteration i appends: the top vertex of step i, then its bottom
      vertex, both at ring sample p and with colour c. */
  lemma LayoutStep(height: real, i: nat, ring: seq<RingPoint>, centre: ColorDraw, draw: seq<ColorDraw>,
                   p: RingPoint, c: Color)
    requires i < |ring| && |draw| == |ring|
    requires p == ring[i] && c == RandomColor(draw[i])
    ensures Flatten(CylinderLayout(height, i + 1, ring, centre, draw))
         == Flatten(CylinderLayout(height, i, ring, centre, draw))
            + [p.x, height / 2.0, p.z, c.r, c.g, c.b, c.a]
            + [p.x, -height / 2.0, p.z, c.r, c.g, c.b, c.a]
  {
    var top := LayoutVertex(height, ring, centre, draw, TopRing(i));
    var bottom := LayoutVertex(height, ring, centre, draw, BottomRing(i));
    LayoutRing(height, ring, centre, draw, i);
    assert CylinderLayout(height, i + 1, ring, centre, draw)
        == CylinderLayout(height, i, ring, centre, draw) + [top, bottom];
    FlattenTwoMore(CylinderLayout(height, i, ring, centre, draw), top, bottom);
  }

  /** GenerateCylinderVertices: `n` is the resolution after its conversion to int,
      `ring[i]` the x/z sample of step i, `centre` the colour draw shared by the two
      centres and `draw[i]` the one shared by step i's pair. The result is the
      float buffer of the closed-form layout. */
  method GenerateCylinderVertices(height: real, n: nat, ring: seq<RingPoint>,
                                  centre: ColorDraw, draw: seq<ColorDraw>)
    returns (verts: seq<real>)
    requires |ring| == n && |draw| == n
    ensures |verts| == FloatsPerVertex * (2 + 2 * n)
    ensures verts == Flatten(CylinderLayout(height, n, ring, centre, draw))
  {
    var buffer := new Vector<real>();
    var color := RandomColor(centre);
    AddVertex(buffer, 0.0, height / 2.0, 0.0, color);
    AddVertex(buffer, 0.0, -height / 2.0, 0.0, color);
    LayoutStart(height, ring, centre, draw, color);
    var i := 0;
    while i < n
      invariant 0 <= i <= n
      invariant buffer.items == Flatten(CylinderLayout(height, i, ring, centre, draw))
    {
      var p := ring[i];
      color := RandomColor(draw[i]);
      AddVertex(buffer, p.x, height / 2.0, p.z, color);
      AddVertex(buffer, p.x, -height / 2.0, p.z, color);
      LayoutStep(height, i, ring, centre, draw, p, color);
      i := i + 1;
    }
    verts := buffer.items;
  }

  /** The layout of a generated vertex buffer: its length, the two centres at
      y = +height/2 and -height/2 sharing one colour, each step's top vertex at
      2 + 2i and bottom vertex at 3 + 2i with the same x, z and colour, every y
      one of the two cap heights and every alpha 1. */
  lemma GeneratedVertexLayout(verts: seq<real>, height: real, n: nat, ring: seq<RingPoint>,
                              centre: ColorDraw, draw: seq<ColorDraw>)
    requires |ring| == n && |draw| == n
    requires verts == Flatten(CylinderLayout(height, n, ring, centre, draw))
    ensures |verts| == FloatsPerVertex * (2 + 2 * n)
    ensures VertexAt(verts, 0) == Vertex(0.0, height / 2.0, 0.0, RandomColor(centre))
    ensures VertexAt(verts, 1) == Vertex(0.0, -height / 2.0, 0.0, RandomColor(centre))
    ensures forall i :: 0 <= i < n ==>
      VertexAt(verts, TopRing(i)) == Vertex(ring[i].x, height / 2.0, ring[i].z, RandomColor(draw[i]))
    ensures forall i :: 0 <= i < n ==>
      VertexAt(verts, BottomRing(i)) == Vertex(ring[i].x, -height / 2.0, ring[i].z, RandomColor(draw[i]))
    ensures forall i :: 0 <= i < n ==>
      && VertexAt(verts, TopRing(i)).x == VertexAt(verts, BottomRing(i)).x
      && VertexAt(verts, TopRing(i)).z == VertexAt(verts, BottomRing(i)).z
      && VertexAt(verts, TopRing(i)).color == VertexAt(verts, BottomRing(i)).color
    ensures forall k :: 0 <= k < 2 + 2 * n ==>
      && VertexAt(verts, k).color.a == 1.0
      && (VertexAt(verts, k).y == height / 2.0 || VertexAt(verts, k).y == -height / 2.0)
  {
    var layout := CylinderLayout(height, n, ring, centre, draw);
    FlattenAt(layout, 0);
    FlattenAt(layout, 1);
    forall i | 0 <= i < n
      ensures VertexAt(verts, TopRing(i)) == Vertex(ring[i].x, height / 2.0, ring[i].z, RandomColor(draw[i]))
      ensures VertexAt(verts, BottomRing(i)) == Vertex(ring[i].x, -height / 2.0, ring[i].z, RandomColor(draw[i]))
    {
      FlattenAt(layout, TopRing(i));
      FlattenAt(layout, BottomRing(i));
      LayoutRing(height, ring, centre, draw, i);
    }
    forall k | 0 <= k < 2 + 2 * n
      ensures VertexAt(verts, k).color.a == 1.0
      ensures VertexAt(verts, k).y == height / 2.0 || VertexAt(verts, k).y == -height / 2.0
    {
      FlattenAt(layout, k);
    }
  }

  /** Even vertex numbers are on the top face and odd ones on the bottom face:
      vertex v lies at y = height/2 when v is even and at y = -height/2 when v is odd. */
  lemma VertexHeightByParity(verts: seq<real>, height: real, n: nat, ring: seq<RingPoint>,
                             centre: ColorDraw, draw: seq<ColorDraw>, v: nat)
    requires |ring| == n && |draw| == n
    requires verts == Flatten(CylinderLayout(height, n, ring, centre, draw))
    requires v < 2 + 2 * n
    ensures FloatsPerVertex * v + FloatsPerVertex <= |verts|
    ensures VertexAt(verts, v).y == if v % 2 == 0 then height / 2.0 else -height / 2.0
  {
    FlattenAt(CylinderLayout(height, n, ring, centre, draw), v);
  }
}
