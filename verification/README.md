# Procedural cylinder mesh: a Dafny model

This project models the procedural cylinder generator of the first tutorial
program (`project/module03/tut_03_05.cpp`). For a resolution `n` it has two jobs:

- `GenerateCylinderVertices` fills an interleaved attribute buffer of GLfloats.
  Each vertex takes seven floats: x, y, z, r, g, b, a. The buffer holds the top
  centre, the bottom centre, and then one top/bottom pair per angular step.
- `GenerateCylinderIndices` fills a GLushort element buffer with the triangles
  of the top cap, the bottom cap and the side wall.

Both generators grow a `std::vector` through the helpers `AddVertex` and
`AddTriangle`. The model keeps that form:

- `GlBuffers.Vector` is a class whose `items` sequence `PushBack` extends.
- The helpers are methods that modify the vector.
- Each generator is a method with the source's loops and their invariants. It
  is proved equal to a specification function: the closed-form layout
  `CylinderLayout` for the vertices, and `Stitch(CylinderTriangles(n), 4n)` for
  the indices.
- Lemmas then state each triangle and each vertex in closed form, together with
  the range of every index.

Modules:

- `GlBuffers` (`buffers.dfy`): the vector, the GLushort type, the `int` to
  GLushort conversion, and the largest 32-bit `int`.
- `CylinderVertices` (`vertices.dfy`): `AddVertex`, `RandomColor`'s fixed alpha,
  `GenerateCylinderVertices`, and the interleaved layout. Top vertex of step `k`
  at `2 + 2k`, bottom vertex at `3 + 2k`.
- `CylinderIndices` (`indices.dfy`): `AddTriangle`, `GenerateCylinderIndices`,
  and the shape and range of every triangle it emits.
- `CylinderMesh` (`mesh.dfy`): the two buffers side by side. It shows where the
  index buffer does not fit the vertex buffer, and gives a corrected stitching
  that does.

The index loops of `GenerateCylinderIndices` are modelled as written:

- Note that the top cap's third index is `i % n + 2`, not `i + 1`. It is
  `i + 2` for `i < n`, then wraps to `2` and `3`.
- The top-cap and side loops assume contiguous rings (`2..n+1` top,
  `n+2..2n+1` bottom), but the vertex generator interleaves them. The
  bottom-cap loop uses vertex numbers `n+3..2n+3`, past the last vertex. See
  "Findings".

## Model

| member | source | states |
|---|---|---|
| GlBuffers.ToUShort | project/module03/tut_03_05.cpp:416 | The implicit conversion of an `int` argument to a GLushort parameter is the identity exactly when the value is in [0, 65535]. |
| GlBuffers.Vector.PushBack | project/module03/tut_03_05.cpp:372 | `push_back` appends one element and leaves the earlier ones unchanged. |
| CylinderVertices.AddVertex | project/module03/tut_03_05.cpp:371-379 | Appends exactly x, y, z, r, g, b, a in that order; the existing prefix is unchanged. |
| CylinderVertices.GenerateCylinderVertices | project/module03/tut_03_05.cpp:391-414 | Returns 7·(2 + 2n) floats, equal to the flattened closed-form layout: two centres, then one top/bottom pair per loop iteration. |
| CylinderVertices.GeneratedVertexLayout | project/module03/tut_03_05.cpp:386-411 | Vertex 0 is (0, h/2, 0) and vertex 1 is (0, −h/2, 0), sharing one colour. Step i's vertices 2+2i and 3+2i have that step's x, z and colour, with y = +h/2 and −h/2 respectively. Every vertex has alpha 1 and y = ±h/2. |
| CylinderVertices.VertexHeightByParity | project/module03/tut_03_05.cpp:396-408 | Every even-numbered vertex lies at y = h/2 and every odd-numbered one at y = −h/2. |
| CylinderVertices.FlattenAt | project/module03/tut_03_05.cpp:371-379 | Reading a buffer of appended records at stride 7 returns record k at position k. |
| CylinderVertices.UnflattenFlatten | project/module03/tut_03_05.cpp:371-379 | Decoding the whole float buffer at stride 7 gives back exactly the vertices added, in order. |
| CylinderVertices.VertexAtAppend | project/module03/tut_03_05.cpp:371-379 | Appending a record exposes it as the new last vertex and leaves every earlier vertex readable as before. |
| CylinderVertices.LayoutStep | project/module03/tut_03_05.cpp:401-408 | One vertex-loop iteration extends the layout of i steps to that of i + 1 steps by the top record, then the bottom record. |
| CylinderIndices.AddTriangle | project/module03/tut_03_05.cpp:416-420 | Appends exactly v1, v2, v3 in that order; every earlier index is unchanged. |
| CylinderIndices.AddTopCap | project/module03/tut_03_05.cpp:427-430 | The top-circle loop, run on an empty buffer, produces the first n triangles of the cylinder. |
| CylinderIndices.AddBottomCap | project/module03/tut_03_05.cpp:432-435 | The bottom-circle loop extends the n top-cap triangles to the first 2n. |
| CylinderIndices.AddSide | project/module03/tut_03_05.cpp:437-442 | The side loop extends the 2n cap triangles to all 4n. |
| CylinderIndices.AddSideQuad | project/module03/tut_03_05.cpp:438-441 | One side-loop iteration i takes the buffer of the first 2n + 2(i−2) triangles to that of the first 2n + 2(i−1). |
| CylinderIndices.GenerateCylinderIndices | project/module03/tut_03_05.cpp:422-445 | Deterministic. Returns 12n indices (4n triangles), equal to the encoding of the cylinder's triangle sequence in emission order. |
| CylinderIndices.CapNextIsMod | project/module03/tut_03_05.cpp:428 | For i in [2, n+1], `i % n + 2` is i + 2 below n, and wraps to 2 and 3 (to 2 alone when n = 1). |
| CylinderIndices.TopCapTriangleIs | project/module03/tut_03_05.cpp:427-430 | Top-circle iteration i emits (0, i, i % n + 2). |
| CylinderIndices.BottomCapTriangleIs | project/module03/tut_03_05.cpp:432-435 | Bottom-circle iteration i emits (1, i, i % (n+2) + n + 3), which is (1, i, i + 1). |
| CylinderIndices.SideFirstTriangleIs | project/module03/tut_03_05.cpp:437-441 | Side iteration i first emits (i, i % n + 2, i + n). |
| CylinderIndices.SideSecondTriangleIs | project/module03/tut_03_05.cpp:437-442 | Side iteration i then emits (i + n, i % n + 2, next + n), with next = i % n + 2. |
| CylinderIndices.TopCapStep | project/module03/tut_03_05.cpp:427-430 | One top-circle iteration adds exactly one triangle to the buffer of the earlier ones. |
| CylinderIndices.BottomCapStep | project/module03/tut_03_05.cpp:432-435 | One bottom-circle iteration adds exactly one triangle to the buffer of the earlier ones. |
| CylinderIndices.SideStep | project/module03/tut_03_05.cpp:437-442 | One side iteration adds exactly its two triangles, in order. |
| CylinderIndices.StitchAt | project/module03/tut_03_05.cpp:416-420 | In a buffer built by AddTriangle calls, triangle j sits at entries 3j..3j+2 and holds the GLushort conversions of the j-th call's arguments. |
| CylinderIndices.StitchWithin | project/module03/tut_03_05.cpp:416-420 | If a block of triangles has every vertex number in [lo, hi] within the GLushort range, so do the buffer entries they occupy. |
| CylinderIndices.StitchedTriangle | project/module03/tut_03_05.cpp:416-420 | A triangle whose vertex numbers fit a GLushort is stored unchanged. |
| CylinderIndices.SideTrianglesAt | project/module03/tut_03_05.cpp:437-442 | Side iteration j + 2 contributes side triangles 2j and 2j + 1. |
| CylinderIndices.SideAt | project/module03/tut_03_05.cpp:437-442 | Side triangles 2n+2j and 2n+2j+1 of the cylinder are the pair of side iteration j + 2. |
| CylinderIndices.GeneratedTopCapAt | project/module03/tut_03_05.cpp:427-430 | In the returned buffer, triangle j < n is (0, j+2, next), with next the wrapped `i % n + 2`. |
| CylinderIndices.GeneratedTopCap | project/module03/tut_03_05.cpp:427-430 | The first n triangles of the returned buffer are the top-cap triangles (0, i, i % n + 2) for i in [2, n+1]. |
| CylinderIndices.GeneratedBottomCapAt | project/module03/tut_03_05.cpp:432-435 | In the returned buffer, triangle j in [n, 2n) is (1, j+3, j+4). |
| CylinderIndices.GeneratedBottomCap | project/module03/tut_03_05.cpp:432-435 | The next n triangles are (1, i, i + 1) for i in [n+3, 2n+2]. |
| CylinderIndices.GeneratedSideFirstAt | project/module03/tut_03_05.cpp:437-441 | Triangle 2n+2j of the returned buffer is (i, i % n + 2, i + n) for i = j + 2. |
| CylinderIndices.GeneratedSideSecondAt | project/module03/tut_03_05.cpp:437-442 | Triangle 2n+2j+1 is (i + n, i % n + 2, (i % n + 2) + n) for i = j + 2. |
| CylinderIndices.GeneratedSide | project/module03/tut_03_05.cpp:437-442 | The last 2n triangles are the two triangles of each side iteration, in order. |
| CylinderIndices.CylinderTrianglesWithin | project/module03/tut_03_05.cpp:427-442 | Vertex numbers per loop: top-cap triangles use [0, n+1], bottom-cap [1, 2n+3], side [2, 2n+1]. |
| CylinderIndices.CylinderTrianglesProper | project/module03/tut_03_05.cpp:427-442 | For n ≥ 3, no triangle the source emits repeats a vertex number. |
| CylinderIndices.TwoStepsDegenerate | project/module03/tut_03_05.cpp:428-429 | With n = 2 the first top-cap triangle is (0, 2, 2), so the bound n ≥ 3 is needed. |
| CylinderIndices.EmissionIndexInverts | project/module03/tut_03_05.cpp:427-442 | An emitted triangle's position can be read back from its vertex numbers. |
| CylinderIndices.CylinderTrianglesDistinct | project/module03/tut_03_05.cpp:427-442 | No two of the 4n emitted triangles are identical. |
| CylinderIndices.GeneratedIndexRanges | project/module03/tut_03_05.cpp:427-442 | Entries of the returned buffer fall in [0, n+1] for the first 3n, [1, 2n+3] for the next 3n, and [2, 2n+1] for the last 6n. |
| CylinderMesh.BottomCapOverrunsVertices | project/module03/tut_03_05.cpp:432-435 | The last bottom-cap triangle is (1, 2n+2, 2n+3). Both ring indices lie past the 2n+2 vertices, so the index buffer names vertices that do not exist. |
| CylinderMesh.TopCapReachesBottomRing | project/module03/tut_03_05.cpp:427-430 | The second top-cap triangle joins vertex 0 at y = h/2 to vertex 3, which lies at y = −h/2 on the bottom ring. |
| CylinderMesh.NextStep | project/module03/tut_03_05.cpp:438 | The ring step after k, wrapping the last step to the first, is again a step. |
| CylinderMesh.CorrectedSideAt | project/module03/tut_03_05.cpp:437-442 | Corrected side triangles 2k and 2k+1 are the quad of step k: top k, top next, bottom k, then bottom k, top next, bottom next. |
| CylinderMesh.CorrectedTriplesWithin | project/module03/tut_03_05.cpp:427-442 | Every corrected triangle names vertices 0..2n+1 only. |
| CylinderMesh.CorrectedIndicesInRange | project/module03/tut_03_05.cpp:427-442 | The corrected buffer has 12n indices, and every one names one of the 2 + 2n vertices. |
| CylinderMesh.CorrectedTopCapAt | project/module03/tut_03_05.cpp:427-430 | Corrected top-cap triangle j is (0, 2+2j, 2+2·next(j)). |
| CylinderMesh.CorrectedBottomCapAt | project/module03/tut_03_05.cpp:432-435 | Corrected bottom-cap triangle n+k is (1, 3+2·next(k), 3+2k), wound the opposite way to the top cap. |
| CylinderMesh.CorrectedCapsWoundOppositely | project/module03/tut_03_05.cpp:427-435 | The bottom triangle of step k visits the vertices directly below the top triangle's two ring vertices, in reverse order, so the two caps face opposite ways. |
| CylinderMesh.TopFaceVertex | project/module03/tut_03_05.cpp:396-407 | The top centre and every top-ring vertex lie at y = h/2. |
| CylinderMesh.BottomFaceVertex | project/module03/tut_03_05.cpp:397-408 | The bottom centre and every bottom-ring vertex lie at y = −h/2. |
| CylinderMesh.CorrectedCapParityAt | project/module03/tut_03_05.cpp:427-435 | Corrected cap triangle j names vertices 0..2n+1 only, all even-numbered for the top cap (j < n) and all odd-numbered for the bottom cap. |
| CylinderMesh.CorrectedCapsOnTheirFaces | project/module03/tut_03_05.cpp:427-435 | Every vertex the corrected top cap names exists and lies at y = h/2; every vertex the corrected bottom cap names exists and lies at y = −h/2. |
| CylinderMesh.CorrectedTrianglesProper | project/module03/tut_03_05.cpp:427-442 | For n ≥ 3, no corrected triangle repeats a vertex. |
| CylinderMesh.CorrectedEmissionIndexInverts | project/module03/tut_03_05.cpp:427-442 | A corrected triangle's position in the emission order can be read back from its vertex numbers. |
| CylinderMesh.CorrectedTrianglesDistinct | project/module03/tut_03_05.cpp:427-442 | No two of the 4n corrected triangles are identical. |
| CylinderMesh.SideParity | project/module03/tut_03_05.cpp:437-442 | For even n, the four vertex numbers side iteration i = j+2 names (i, i+n, i % n + 2, and that plus n) all have the parity of j. |
| CylinderMesh.SideParityAt | project/module03/tut_03_05.cpp:437-442 | For even n, both triangles of side iteration j+2 name only vertices 0..2n+1, and all their vertex numbers have the parity of j. |
| CylinderMesh.SideFlatWhenEven | project/module03/tut_03_05.cpp:437-442 | For even n, every one of the 2n side triangles lies flat on a cap face, so the side loop builds no wall. For n = 4, side triangle 8 is (2, 4, 6), all at y = h/2. |
| CylinderMesh.CorrectedSideQuadAt | project/module03/tut_03_05.cpp:437-442 | Corrected side triangles 2n+2k and 2n+2k+1 of the buffer are (2+2k, 2+2·next, 3+2k) and (3+2k, 2+2·next, 3+2·next). |
| CylinderMesh.CorrectedSideParityAt | project/module03/tut_03_05.cpp:437-442 | The first corrected side triangle of step k has two even-numbered vertices then one odd; the second has odd, even, odd; all exist. |
| CylinderMesh.CorrectedSideSpansFaces | project/module03/tut_03_05.cpp:437-442 | Every corrected side triangle joins the two faces: the first of step k has two top vertices and one bottom vertex, the second one top vertex and two bottom vertices. |

## Left out

- The OpenGL, GLFW and GLEW glue of `tut_03_05.cpp`: window setup, input, rendering, and shader compilation and destruction. These are calls into libraries outside this model.
- `UCreateMesh` and `UDestroyMesh` are GPU uploads. This includes `UCreateMesh`'s buffer sizes, which it takes from `sizeof` of an address variable rather than from the element counts.
- `project/module05/main.cpp` is not part of this model. It is window, texture and camera code around constant cube data.
- `RandomColor`'s `random_device` and `mt19937` engine: its three drawn components are inputs (`ColorDraw`). Only its fixed alpha of 1 is modelled.
- `std::cos`, `std::sin` and the float angle increment: each step's x and z (radius times cosine and sine) are inputs (`RingPoint`).
- GLfloat arithmetic is modelled as exact reals; `height / 2.0f` rounding is not modelled.
- `static_cast<int>(resolution)` of the float resolution is not modelled: both generators take the converted value `n` as a natural number, so negative resolutions are out.
- GenerateCylinderIndices: requires 2n + 3 to fit a 32-bit `int`. Larger n would overflow the signed loop arithmetic, which C++ leaves undefined.
- The closed-form index lemmas (`Generated*`, `GeneratedIndexRanges`, `BottomCapOverrunsVertices`, `TopCapReachesBottomRing`) assume n ≤ 32766. Above that, 2n + 3 no longer fits a GLushort, and the model's `ToUShort` reduction modulo 65536 makes the stored indices wrap.
- The three loops of `GenerateCylinderIndices` are three methods (`AddTopCap`, `AddBottomCap`, `AddSide`) that it calls in sequence on one vector. The side loop's body is the method `AddSideQuad`. The loop bodies are otherwise unchanged.
- `std::vector` reallocation and capacity are not modelled: a vector is its sequence of elements.

## Findings

| source | as written | input that shows it | evidently intended | confidence | as-written member | corrected member |
|---|---|---|---|---|---|---|
| project/module03/tut_03_05.cpp:432-435 | The bottom-circle loop emits (1, i, i + 1) for i in [n+3, 2n+2], so its last triangles name vertices 2n+2 and 2n+3. The vertex buffer has only 2n+2 vertices, numbered 0..2n+1. | n = 3: the last bottom-cap triangle is (1, 8, 9), but the vertices are 0..7 | A fan from the bottom centre 1 over the bottom ring 3+2k, with every index below 2 + 2n | not executed | CylinderMesh.BottomCapOverrunsVertices | CylinderMesh.CorrectedIndicesInRange |
| project/module03/tut_03_05.cpp:427-430 | The top-circle loop treats 2..n+1 as the top ring. The vertex generator interleaves the rings, so odd vertex numbers are on the bottom face. | n = 3: the second top-cap triangle is (0, 3, 2), since 3 % 3 + 2 = 2; vertex 0 lies at y = h/2, vertex 3 at y = −h/2 | A fan from the top centre 0 over the top ring 2+2k, with every vertex at y = h/2 (and the bottom fan at y = −h/2) | not executed | CylinderMesh.TopCapReachesBottomRing | CylinderMesh.CorrectedCapsOnTheirFaces |
| project/module03/tut_03_05.cpp:437-442 | The side loop treats 2..n+1 as the top ring and n+2..2n+1 as the bottom ring. With the interleaved layout and an even n, the vertex numbers i, i+n, i % n + 2 and that plus n all share a parity. Each side triangle therefore lies flat on one cap face, and there is no wall. | n = 4: side triangle 8 is (2, 4, 6); vertices 2, 4 and 6 all lie at y = h/2 | Each quad joins top vertices 2+2k, 2+2·next to bottom vertices 3+2k, 3+2·next, so every side triangle has vertices on both faces | not executed | CylinderMesh.SideFlatWhenEven | CylinderMesh.CorrectedSideSpansFaces |
