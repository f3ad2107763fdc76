/** The cylinder's index buffer as the source writes it: AddTriangle and
    GenerateCylinderIndices, with the shape of every triangle they emit. */
module CylinderIndices {
  import opened GlBuffers

  /** One triangle as the three `int` vertex numbers the source computes,
      before they are converted to GLushort. */
  datatype Triple = Triple(a: int, b: int, c: int)

  /** The largest resolution for which every index the source computes, up to
      2n + 3, still fits in a GLushort. */
  const MaxExactResolution: nat := 32766

  /** AddTriangle appends v1, v2, v3 in that order and leaves the earlier indices as they were. */
  method AddTriangle(indices: Vector<UShort>, v1: UShort, v2: UShort, v3: UShort)
    modifies indices
    ensures indices.items == old(indices.items) + [v1, v2, v3]
  {
    indices.PushBack(v1);
    indices.PushBack(v2);
    indices.PushBack(v3);
  }

  /** The three GLushort values AddTriangle receives for triangle t. */
  function Encode(t: Triple): seq<UShort>
  {
    [ToUShort(t.a), ToUShort(t.b), ToUShort(t.c)]
  }

  /** The index buffer that adding the first k triangles of ts one after the other produces. */
  function Stitch(ts: seq<Triple>, k: nat): (r: seq<UShort>)
    requires k <= |ts|
    ensures |r| == 3 * k
  {
    if k == 0 then [] else Stitch(ts, k - 1) + Encode(ts[k - 1])
  }

  /** Triangle j of an index buffer: entries 3j, 3j + 1 and 3j + 2. */
  function TriangleAt(indices: seq<UShort>, j: nat): seq<UShort>
    requires 3 * j + 3 <= |indices|
  {
    indices[3 * j .. 3 * j + 3]
  }

  /** Every component of triangles k0..k-1 of ts lies in [lo, hi]. */
  predicate TriplesWithin(ts: seq<Triple>, k0: nat, k: nat, lo: int, hi: int)
    requires k0 <= k <= |ts|
  {
    forall j :: k0 <= j < k ==> lo <= ts[j].a <= hi && lo <= ts[j].b <= hi && lo <= ts[j].c <= hi
  }

  /** Triangle j of the buffer of the first k triangles is the encoding of triangle j. */
  lemma {:induction false} StitchAt(ts: seq<Triple>, k: nat, j: nat)
    requires j < k <= |ts|
    ensures TriangleAt(Stitch(ts, k), j) == Encode(ts[j])
  {
    if j < k - 1 {
      StitchAt(ts, k - 1, j);
      assert TriangleAt(Stitch(ts, k), j) == TriangleAt(Stitch(ts, k - 1), j);
    }
  }

  /** When the components of triangles k0..k-1 lie in [lo, hi] inside the GLushort
      range, so do entries 3k0..3k-1 of the buffer of the first K triangles, K >= k. */
  lemma {:induction false} StitchWithin(ts: seq<Triple>, k0: nat, k: nat, K: nat, lo: int, hi: int)
    requires k0 <= k <= K <= |ts|
    requires 0 <= lo && hi < 0x1_0000
    requires TriplesWithin(ts, k0, k, lo, hi)
    ensures forall p :: 3 * k0 <= p < 3 * k ==> lo <= Stitch(ts, K)[p] <= hi
  {
    if k > k0 {
      StitchWithin(ts, k0, k - 1, K, lo, hi);
      StitchAt(ts, K, k - 1);
      var t := TriangleAt(Stitch(ts, K), k - 1);
      forall p | 3 * (k - 1) <= p < 3 * k
        ensures lo <= Stitch(ts, K)[p] <= hi
      {
        assert Stitch(ts, K)[p] == t[p - 3 * (k - 1)];
      }
    }
  }

  /** Triangle j of the buffer of the first k triangles, when its components all fit
      in a GLushort, holds those components unchanged. */
  lemma StitchedTriangle(ts: seq<Triple>, k: nat, j: nat)
    requires j < k <= |ts|
    requires 0 <= ts[j].a < 0x1_0000 && 0 <= ts[j].b < 0x1_0000 && 0 <= ts[j].c < 0x1_0000
    ensures TriangleAt(Stitch(ts, k), j) == [ts[j].a, ts[j].b, ts[j].c]
  {
    StitchAt(ts, k, j);
  }

  /** Where the source's `i % n + 2` lands for i in [2, n + 1]: two vertices
      further on for i < n, and back to 2 and 3 for the last two values of i
      (to 2 alone when n is 1). */
  function CapNext(n: nat, i: int): int
  {
    if i < n then i + 2 else if n == 1 then 2 else i - n + 2
  }

  /** The 2n cap triangles, in emission order and with every modulo worked out:
      the top-cap loop's (0, i, CapNext(n, i)) for i = m + 2, then the bottom-cap
      loop's (1, i, i + 1) for i = m + 3. */
  function CapTriangles(n: nat): (ts: seq<Triple>)
    ensures |ts| == 2 * n
  {
    seq(2 * n, m requires 0 <= m < 2 * n =>
      if m < n then Triple(0, m + 2, CapNext(n, m + 2)) else Triple(1, m + 3, m + 4))
  }

  /** The two triangles side iteration i adds, (i, c, i + n) and (i + n, c, c + n)
      with c = CapNext(n, i). */
  function SidePair(n: nat, i: int): seq<Triple>
  {
    var c := CapNext(n, i);
    [Triple(i, c, i + n), Triple(i + n, c, c + n)]
  }

  /** The triangles the first k side iterations add, for i = 2 to k + 1. */
  function SideTriangles(n: nat, k: nat): (ts: seq<Triple>)
    ensures |ts| == 2 * k
  {
    if k == 0 then [] else SideTriangles(n, k - 1) + SidePair(n, k + 1)
  }

  /** All 4n triangles GenerateCylinderIndices emits, in emission order. */
  function CylinderTriangles(n: nat): (ts: seq<Triple>)
    ensures |ts| == 4 * n
  {
    CapTriangles(n) + SideTriangles(n, n)
  }

  /** Side iteration i = j + 2 contributes side triangles 2j and 2j + 1. */
  lemma {:induction false} SideTrianglesAt(n: nat, k: nat, j: nat)
    requires j < k
    ensures SideTriangles(n, k)[2 * j] == Triple(j + 2, CapNext(n, j + 2), j + 2 + n)
    ensures SideTriangles(n, k)[2 * j + 1] == Triple(j + 2 + n, CapNext(n, j + 2), CapNext(n, j + 2) + n)
  {
    if j < k - 1 {
      SideTrianglesAt(n, k - 1, j);
      assert SideTriangles(n, k) == SideTriangles(n, k - 1) + SidePair(n, k + 1);
    }
  }

  /** The modulo the loops compute, for a dividend below twice the divisor. */
  lemma ModOnce(x: int, m: int)
    requires 0 < m && 0 <= x < 2 * m
    ensures x % m == if x < m then x else x - m
  {
  }

  /** The source's `i % n + 2`, for i in [2, n + 1], is CapNext(n, i). */
  lemma CapNextIsMod(n: nat, i: int)
    requires 2 <= i < n + 2
    ensures i % n + 2 == CapNext(n, i)
  {
    if n > 1 {
      ModOnce(i, n);
    }
  }

  /** Adding the encoding of triangle k to the buffer of the first k triangles
      gives the buffer of the first k + 1. */
  lemma StitchNext(ts: seq<Triple>, k: nat, before: seq<UShort>, after: seq<UShort>)
    requires k < |ts|
    requires before == Stitch(ts, k)
    requires after == before + Encode(ts[k])
    ensures after == Stitch(ts, k + 1)
  {
  }

  /** Triangle m = i - 2 of the cylinder is what top-cap iteration i adds, (0, i, i % n + 2). */
  lemma TopCapTriangleIs(n: nat, i: int, m: nat)
    requires 2 <= i < n + 2 && m == i - 2
    ensures CylinderTriangles(n)[m] == Triple(0, i, i % n + 2)
  {
    CapNextIsMod(n, i);
    assert CylinderTriangles(n)[m] == CapTriangles(n)[m];
  }

  /** Triangle m = i - 3 of the cylinder is what bottom-cap iteration i adds,
      (1, i, i % (n + 2) + n + 3), which is (1, i, i + 1). */
  lemma BottomCapTriangleIs(n: nat, i: int, m: nat)
    requires n + 3 <= i < 2 * n + 3 && m == i - 3
    ensures CylinderTriangles(n)[m] == Triple(1, i, i % (n + 2) + n + 3)
  {
    ModOnce(i, n + 2);
    assert CylinderTriangles(n)[m] == CapTriangles(n)[m];
  }

  /** Triangle m = 2n + 2(i - 2) of the cylinder is the first triangle side
      iteration i adds, (i, i % n + 2, i + n). */
  lemma SideFirstTriangleIs(n: nat, i: int, m: nat)
    requires 2 <= i < n + 2 && m == 2 * n + 2 * (i - 2)
    ensures CylinderTriangles(n)[m] == Triple(i, i % n + 2, i + n)
  {
    CapNextIsMod(n, i);
    SideAt(n, i - 2);
  }

  /** Triangle m + 1 is the second triangle side iteration i adds, with
      next = i % n + 2: (i + n, i % n + 2, next + n). */
  lemma SideSecondTriangleIs(n: nat, i: int, next: int, m: nat)
    requires 2 <= i < n + 2 && next == i % n + 2 && m == 2 * n + 2 * (i - 2)
    ensures CylinderTriangles(n)[m + 1] == Triple(i + n, i % n + 2, next + n)
  {
    CapNextIsMod(n, i);
    SideAt(n, i - 2);
  }

  /** Top-cap iteration i takes the buffer of the first m = i - 2 triangles to the
      buffer of the first m + 1. */
  lemma TopCapStep(n: nat, i: int, m: nat, before: seq<UShort>, after: seq<UShort>)
    requires 2 <= i < n + 2 && m == i - 2
    requires before == Stitch(CylinderTriangles(n), m)
    requires after == before + [0, ToUShort(i), ToUShort(i % n + 2)]
    ensures after == Stitch(CylinderTriangles(n), m + 1)
  {
    TopCapTriangleIs(n, i, m);
    StitchNext(CylinderTriangles(n), m, before, after);
  }

  /** Bottom-cap iteration i takes the buffer of the first m = i - 3 triangles to
      the buffer of the first m + 1. */
  lemma BottomCapStep(n: nat, i: int, m: nat, before: seq<UShort>, after: seq<UShort>)
    requires n + 3 <= i < 2 * n + 3 && m == i - 3
    requires before == Stitch(CylinderTriangles(n), m)
    requires after == before + [1, ToUShort(i), ToUShort(i % (n + 2) + n + 3)]
    ensures after == Stitch(CylinderTriangles(n), m + 1)
  {
    BottomCapTriangleIs(n, i, m);
    StitchNext(CylinderTriangles(n), m, before, after);
  }

  /** Side iteration i, with next = i % n + 2, takes the buffer of the first
      m = 2n + 2(i - 2) triangles, s0, through s1 to s2, the buffer of the first m + 2. */
  lemma SideStep(n: nat, i: int, next: int, m: nat, s0: seq<UShort>, s1: seq<UShort>, s2: seq<UShort>)
    requires 2 <= i < n + 2 && next == i % n + 2 && m == 2 * n + 2 * (i - 2)
    requires s0 == Stitch(CylinderTriangles(n), m)
    requires s1 == s0 + [ToUShort(i), ToUShort(i % n + 2), ToUShort(i + n)]
    requires s2 == s1 + [ToUShort(i + n), ToUShort(i % n + 2), ToUShort(next + n)]
    ensures s2 == Stitch(CylinderTriangles(n), m + 2)
  {
    SideFirstTriangleIs(n, i, m);
    StitchNext(CylinderTriangles(n), m, s0, s1);
    SideSecondTriangleIs(n, i, next, m);
    StitchNext(CylinderTriangles(n), m + 1, s1, s2);
  }

  /** The "top circle" loop of GenerateCylinderIndices, run on the fresh buffer:
      for i in [2, n + 1] it adds (0, i, i % n + 2), the first n triangles. */
  method AddTopCap(buffer: Vector<UShort>, n: nat)
    requires buffer.items == []
    requires n + 2 <= IntMax
    modifies buffer
    ensures buffer.items == Stitch(CylinderTriangles(n), n)
  {
    var i := 2;
    // the number of triangles added so far
    ghost var m: nat := 0;
    while i < n + 2
      invariant 2 <= i <= n + 2 && m == i - 2
      invariant buffer.items == Stitch(CylinderTriangles(n), m)
    {
      ghost var before := buffer.items;
      AddTriangle(buffer, 0, ToUShort(i), ToUShort(i % n + 2));
      TopCapStep(n, i, m, before, buffer.items);
      m := m + 1;
      i := i + 1;
    }
  }

  /** The "bottom circle" loop, after the top circle: for i in [n + 3, 2n + 2] it
      adds (1, i, i % (n + 2) + n + 3), triangles n to 2n - 1. */
  method AddBottomCap(buffer: Vector<UShort>, n: nat)
    requires buffer.items == Stitch(CylinderTriangles(n), n)
    requires 2 * n + 3 <= IntMax
    modifies buffer
    ensures buffer.items == Stitch(CylinderTriangles(n), 2 * n)
  {
    var i := n + 3;
    ghost var m: nat := n;
    while i < 2 * n + 3
      invariant n + 3 <= i <= 2 * n + 3 && m == i - 3
      invariant buffer.items == Stitch(CylinderTriangles(n), m)
    {
      ghost var before := buffer.items;
      AddTriangle(buffer, 1, ToUShort(i), ToUShort(i % (n + 2) + n + 3));
      BottomCapStep(n, i, m, before, buffer.items);
      m := m + 1;
      i := i + 1;
    }
  }

  /** One iteration of the "side" loop: with next = i % n + 2, it adds
      (i, i % n + 2, i + n) and (i + n, i % n + 2, next + n), taking the buffer of
      the first m = 2n + 2(i - 2) triangles to that of the first m + 2. */
  method AddSideQuad(buffer: Vector<UShort>, n: nat, i: int, ghost m: nat)
    requires 2 <= i < n + 2 && m == 2 * n + 2 * (i - 2)
    requires buffer.items == Stitch(CylinderTriangles(n), m)
    modifies buffer
    ensures buffer.items == Stitch(CylinderTriangles(n), m + 2)
  {
    var next := i % n + 2;
    ghost var s0 := buffer.items;
    AddTriangle(buffer, ToUShort(i), ToUShort(i % n + 2), ToUShort(i + n));
    ghost var s1 := buffer.items;
    AddTriangle(buffer, ToUShort(i + n), ToUShort(i % n + 2), ToUShort(next + n));
    SideStep(n, i, next, m, s0, s1, buffer.items);
  }

  /** The "side" loop, after both circles: for i in [2, n + 1] it adds the two
      triangles of AddSideQuad, triangles 2n to 4n - 1. */
  method AddSide(buffer: Vector<UShort>, n: nat)
    requires buffer.items == Stitch(CylinderTriangles(n), 2 * n)
    requires 2 * n + 3 <= IntMax
    modifies buffer
    ensures buffer.items == Stitch(CylinderTriangles(n), 4 * n)
  {
    var i := 2;
    ghost var m: nat := 2 * n;
    while i < n + 2
      invariant 2 <= i <= n + 2 && m == 2 * n + 2 * (i - 2) && m <= 4 * n
      invariant buffer.items == Stitch(CylinderTriangles(n), m)
    {
      AddSideQuad(buffer, n, i, m);
      m := m + 2;
      i := i + 1;
    }
  }

  /** GenerateCylinderIndices, with `n` the resolution after its conversion to
      int: the top circle, the bottom circle and the side, in that order, into a
      fresh buffer. The loop bounds reach 2n + 3, which must not overflow an `int`.
      The result depends on n alone, so two calls with the same resolution
      return the same buffer. */
  method GenerateCylinderIndices(n: nat) returns (indices: seq<UShort>)
    requires 2 * n + 3 <= IntMax
    ensures |indices| == 12 * n
    ensures indices == Stitch(CylinderTriangles(n), 4 * n)
  {
    var buffer := new Vector<UShort>();
    AddTopCap(buffer, n);
    AddBottomCap(buffer, n);
    AddSide(buffer, n);
    indices := buffer.items;
  }

  /** Triangles 2n + 2j and 2n + 2j + 1 of the cylinder are those of side iteration j + 2. */
  lemma SideAt(n: nat, j: nat)
    requires j < n
    ensures CylinderTriangles(n)[2 * n + 2 * j] == Triple(j + 2, CapNext(n, j + 2), j + 2 + n)
    ensures CylinderTriangles(n)[2 * n + 2 * j + 1]
         == Triple(j + 2 + n, CapNext(n, j + 2), CapNext(n, j + 2) + n)
  {
    SideTrianglesAt(n, n, j);
    assert CylinderTriangles(n)[2 * n + 2 * j] == SideTriangles(n, n)[2 * j];
    assert CylinderTriangles(n)[2 * n + 2 * j + 1] == SideTriangles(n, n)[2 * j + 1];
  }

  /** Top-cap triangle j of the generated buffer, the source's (0, i, i % n + 2) with
      i = j + 2 and the modulo worked out. */
  lemma GeneratedTopCapAt(indices: seq<UShort>, n: nat, j: nat)
    requires n <= MaxExactResolution && j < n
    requires indices == Stitch(CylinderTriangles(n), 4 * n)
    ensures 3 * j + 3 <= |indices|
    ensures TriangleAt(indices, j) == [0, j + 2, CapNext(n, j + 2)]
  {
    var ts := CylinderTriangles(n);
    assert ts[j] == Triple(0, j + 2, CapNext(n, j + 2));
    StitchedTriangle(ts, 4 * n, j);
  }

  /** The first 3n entries of the buffer GenerateCylinderIndices returns: top-cap
      triangle j is (0, j + 2, CapNext(n, j + 2)). With n at most MaxExactResolution
      no index wraps round in the conversion to GLushort. */
  lemma GeneratedTopCap(indices: seq<UShort>, n: nat)
    requires n <= MaxExactResolution
    requires indices == Stitch(CylinderTriangles(n), 4 * n)
    ensures |indices| == 12 * n
    ensures forall j :: 0 <= j < n ==> TriangleAt(indices, j) == [0, j + 2, CapNext(n, j + 2)]
  {
    forall j | 0 <= j < n
      ensures TriangleAt(indices, j) == [0, j + 2, CapNext(n, j + 2)]
    {
      GeneratedTopCapAt(indices, n, j);
    }
  }

  /** Bottom-cap triangle j, for j in [n, 2n), of the generated buffer: the source's
      (1, i, i % (n + 2) + n + 3) with i = j + 3 is (1, i, i + 1). */
  lemma GeneratedBottomCapAt(indices: seq<UShort>, n: nat, j: nat)
    requires n <= MaxExactResolution && n <= j < 2 * n
    requires indices == Stitch(CylinderTriangles(n), 4 * n)
    ensures 3 * j + 3 <= |indices|
    ensures TriangleAt(indices, j) == [1, j + 3, j + 4]
  {
    var ts := CylinderTriangles(n);
    assert ts[j] == Triple(1, j + 3, j + 4);
    StitchedTriangle(ts, 4 * n, j);
  }

  /** The next 3n entries: bottom-cap triangle j, for j in [n, 2n), is (1, j + 3, j + 4). */
  lemma GeneratedBottomCap(indices: seq<UShort>, n: nat)
    requires n <= MaxExactResolution
    requires indices == Stitch(CylinderTriangles(n), 4 * n)
    ensures |indices| == 12 * n
    ensures forall j :: n <= j < 2 * n ==> TriangleAt(indices, j) == [1, j + 3, j + 4]
  {
    forall j | n <= j < 2 * n
      ensures TriangleAt(indices, j) == [1, j + 3, j + 4]
    {
      GeneratedBottomCapAt(indices, n, j);
    }
  }

  /** The first triangle side iteration i = j + 2 adds to the generated buffer,
      (i, c, i + n) with c = CapNext(n, i), the source's `i % n + 2`. */
  lemma GeneratedSideFirstAt(indices: seq<UShort>, n: nat, j: nat)
    requires n <= MaxExactResolution && j < n
    requires indices == Stitch(CylinderTriangles(n), 4 * n)
    ensures 3 * (2 * n + 2 * j) + 3 <= |indices|
    ensures TriangleAt(indices, 2 * n + 2 * j) == [j + 2, CapNext(n, j + 2), j + 2 + n]
  {
    var ts := CylinderTriangles(n);
    SideAt(n, j);
    assert ts[2 * n + 2 * j] == Triple(j + 2, CapNext(n, j + 2), j + 2 + n);
    StitchedTriangle(ts, 4 * n, 2 * n + 2 * j);
  }

  /** The second triangle side iteration i = j + 2 adds to the generated buffer,
      (i + n, c, c + n) with c = CapNext(n, i). */
  lemma GeneratedSideSecondAt(indices: seq<UShort>, n: nat, j: nat)
    requires n <= MaxExactResolution && j < n
    requires indices == Stitch(CylinderTriangles(n), 4 * n)
    ensures 3 * (2 * n + 2 * j + 1) + 3 <= |indices|
    ensures TriangleAt(indices, 2 * n + 2 * j + 1) == [j + 2 + n, CapNext(n, j + 2), CapNext(n, j + 2) + n]
  {
    var ts := CylinderTriangles(n);
    var c := CapNext(n, j + 2);
    SideAt(n, j);
    assert ts[2 * n + 2 * j + 1] == Triple(j + 2 + n, c, c + n);
    StitchedTriangle(ts, 4 * n, 2 * n + 2 * j + 1);
  }

  /** The last 6n entries: side iteration i = j + 2 emits triangles 2n + 2j and
      2n + 2j + 1, (i, c, i + n) and (i + n, c, c + n) with c = CapNext(n, i). */
  lemma GeneratedSide(indices: seq<UShort>, n: nat)
    requires n <= MaxExactResolution
    requires indices == Stitch(CylinderTriangles(n), 4 * n)
    ensures |indices| == 12 * n
    ensures forall j :: 0 <= j < n ==>
      TriangleAt(indices, 2 * n + 2 * j) == [j + 2, CapNext(n, j + 2), j + 2 + n]
    ensures forall j :: 0 <= j < n ==>
      TriangleAt(indices, 2 * n + 2 * j + 1) == [j + 2 + n, CapNext(n, j + 2), CapNext(n, j + 2) + n]
  {
    forall j | 0 <= j < n
      ensures TriangleAt(indices, 2 * n + 2 * j) == [j + 2, CapNext(n, j + 2), j + 2 + n]
      ensures TriangleAt(indices, 2 * n + 2 * j + 1)
           == [j + 2 + n, CapNext(n, j + 2), CapNext(n, j + 2) + n]
    {
      GeneratedSideFirstAt(indices, n, j);
      GeneratedSideSecondAt(indices, n, j);
    }
  }

  /** Every triangle of each loop stays in its own range of vertex numbers: the top
      cap's in [0, n + 1], the bottom cap's in [1, 2n + 3] and the side's in [2, 2n + 1]. */
  lemma CylinderTrianglesWithin(n: nat)
    ensures TriplesWithin(CylinderTriangles(n), 0, n, 0, n + 1)
    ensures TriplesWithin(CylinderTriangles(n), n, 2 * n, 1, 2 * n + 3)
    ensures TriplesWithin(CylinderTriangles(n), 2 * n, 4 * n, 2, 2 * n + 1)
  {
    var ts := CylinderTriangles(n);
    forall j | 0 <= j < n
      ensures 0 <= ts[j].a <= n + 1 && 0 <= ts[j].b <= n + 1 && 0 <= ts[j].c <= n + 1
    {
      assert ts[j] == CapTriangles(n)[j];
    }
    forall j | n <= j < 2 * n
      ensures 1 <= ts[j].a <= 2 * n + 3 && 1 <= ts[j].b <= 2 * n + 3 && 1 <= ts[j].c <= 2 * n + 3
    {
      assert ts[j] == CapTriangles(n)[j];
    }
    forall m | 2 * n <= m < 4 * n
      ensures 2 <= ts[m].a <= 2 * n + 1 && 2 <= ts[m].b <= 2 * n + 1 && 2 <= ts[m].c <= 2 * n + 1
    {
      var j := (m - 2 * n) / 2;
      SideAt(n, j);
      assert m == 2 * n + 2 * j || m == 2 * n + 2 * j + 1;
    }
  }

  /** The range of each section of the generated buffer: the top cap's 3n entries
      lie in [0, n + 1], the bottom cap's in [1, 2n + 3] and the side's in [2, 2n + 1]. */
  lemma GeneratedIndexRanges(indices: seq<UShort>, n: nat)
    requires n <= MaxExactResolution
    requires indices == Stitch(CylinderTriangles(n), 4 * n)
    ensures |indices| == 12 * n
    ensures forall p :: 0 <= p < 3 * n ==> 0 <= indices[p] <= n + 1
    ensures forall p :: 3 * n <= p < 6 * n ==> 1 <= indices[p] <= 2 * n + 3
    ensures forall p :: 6 * n <= p < 12 * n ==> 2 <= indices[p] <= 2 * n + 1
  {
    var ts := CylinderTriangles(n);
    CylinderTrianglesWithin(n);
    StitchWithin(ts, 0, n, 4 * n, 0, n + 1);
    StitchWithin(ts, n, 2 * n, 4 * n, 1, 2 * n + 3);
    StitchWithin(ts, 2 * n, 4 * n, 4 * n, 2, 2 * n + 1);
  }

  /** For n >= 3 no triangle GenerateCylinderIndices emits repeats a vertex number. */
  lemma CylinderTrianglesProper(n: nat)
    requires 3 <= n
    ensures forall m :: 0 <= m < 4 * n ==>
      CylinderTriangles(n)[m].a != CylinderTriangles(n)[m].b
      && CylinderTriangles(n)[m].b != CylinderTriangles(n)[m].c
      && CylinderTriangles(n)[m].a != CylinderTriangles(n)[m].c
  {
    var ts := CylinderTriangles(n);
    forall m | 0 <= m < 2 * n
      ensures ts[m].a != ts[m].b && ts[m].b != ts[m].c && ts[m].a != ts[m].c
    {
      assert ts[m] == CapTriangles(n)[m];
    }
    forall m | 2 * n <= m < 4 * n
      ensures ts[m].a != ts[m].b && ts[m].b != ts[m].c && ts[m].a != ts[m].c
    {
      var j := (m - 2 * n) / 2;
      SideAt(n, j);
      assert m == 2 * n + 2 * j || m == 2 * n + 2 * j + 1;
    }
  }

  /** Below three steps the first top-cap triangle is degenerate: with n = 2 it is
      (0, 2, 2), since 2 % 2 + 2 = 2. */
  lemma TwoStepsDegenerate()
    ensures CylinderTriangles(2)[0] == Triple(0, 2, 2)
    ensures CylinderTriangles(2)[0].b == CylinderTriangles(2)[0].c
  {
    assert CylinderTriangles(2)[0] == CapTriangles(2)[0];
  }

  /** Where a triangle of CylinderTriangles(n) sits in the emission order, read off
      its vertex numbers: the centre tells a cap triangle apart, and a side
      triangle's first vertex is i for the first triangle of iteration i and
      i + n for the second. */
  function EmissionIndex(n: nat, t: Triple): int
  {
    if t.a == 0 then t.b - 2
    else if t.a == 1 then t.b - 3
    else if t.a <= n + 1 then 2 * n + 2 * (t.a - 2)
    else 2 * n + 2 * (t.a - n - 2) + 1
  }

  /** Triangle m is the only one whose vertex numbers point back to position m. */
  lemma EmissionIndexInverts(n: nat, m: nat)
    requires m < 4 * n
    ensures EmissionIndex(n, CylinderTriangles(n)[m]) == m
  {
    var ts := CylinderTriangles(n);
    if m < 2 * n {
      assert ts[m] == CapTriangles(n)[m];
    } else {
      var j := (m - 2 * n) / 2;
      SideAt(n, j);
      assert m == 2 * n + 2 * j || m == 2 * n + 2 * j + 1;
    }
  }

  /** No two of the 4n triangles GenerateCylinderIndices emits are identical. */
  lemma CylinderTrianglesDistinct(n: nat)
    ensures forall m1, m2 :: 0 <= m1 < m2 < 4 * n ==> CylinderTriangles(n)[m1] != CylinderTriangles(n)[m2]
  {
    forall m1, m2 | 0 <= m1 < m2 < 4 * n
      ensures CylinderTriangles(n)[m1] != CylinderTriangles(n)[m2]
    {
      EmissionIndexInverts(n, m1);
      EmissionIndexInverts(n, m2);
    }
  }
}
