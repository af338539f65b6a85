/**
  `computeNormals` up to (not including) the final normalisation: every vertex gets
  the average of the unnormalised face normals of the triangles that use it.
 */
module NormalSynthesis {
  import opened MeshTypes
  import VertexSharing

  /** Only whole triangles are read; a trailing one or two indices are ignored. */
  function TriangleCount(triangles: seq<U32>): nat {
    |triangles| / 3
  }

  /** Every corner of a whole triangle names an existing vertex (the source never checks). */
  predicate CornersInRange(triangles: seq<U32>, vertexCount: nat) {
    forall i :: 0 <= i < 3 * TriangleCount(triangles) ==> triangles[i] < vertexCount
  }

  /** Triangle `t` uses vertex `iv` at one corner or more. */
  predicate Touches(triangles: seq<U32>, t: nat, iv: nat)
    requires t < TriangleCount(triangles)
  {
    triangles[3 * t] == iv || triangles[3 * t + 1] == iv || triangles[3 * t + 2] == iv
  }

  /** The face normal `cross(v2 - v1, v3 - v2)`, whose length is twice the triangle's area. */
  function FaceNormal(verts: seq<Vertex>, triangles: seq<U32>, t: nat): (n: Vec3)
    requires t < TriangleCount(triangles) && CornersInRange(triangles, |verts|)
    ensures var p1, p2, p3 := verts[triangles[3 * t]].location, verts[triangles[3 * t + 1]].location,
                              verts[triangles[3 * t + 2]].location;
      && (p1 == p2 || p2 == p3 || p3 == p1 ==> n == Zero)
  {
    var p1 := verts[triangles[3 * t]].location;
    var p2 := verts[triangles[3 * t + 1]].location;
    var p3 := verts[triangles[3 * t + 2]].location;
    CrossOrthogonal(p2.Minus(p1), p3.Minus(p2));
    Cross(p2.Minus(p1), p3.Minus(p2))
  }

  /** The face normal is perpendicular to all three edges of its triangle. */
  lemma FaceNormalOrthogonal(verts: seq<Vertex>, triangles: seq<U32>, t: nat)
    requires t < TriangleCount(triangles) && CornersInRange(triangles, |verts|)
    ensures var n := FaceNormal(verts, triangles, t);
      var p1, p2, p3 := verts[triangles[3 * t]].location, verts[triangles[3 * t + 1]].location,
                        verts[triangles[3 * t + 2]].location;
      Dot(n, p2.Minus(p1)) == 0.0 && Dot(n, p3.Minus(p2)) == 0.0 && Dot(n, p1.Minus(p3)) == 0.0
  {
    var p1 := verts[triangles[3 * t]].location;
    var p2 := verts[triangles[3 * t + 1]].location;
    var p3 := verts[triangles[3 * t + 2]].location;
    CrossOrthogonal(p2.Minus(p1), p3.Minus(p2));
  }

  /** How many of the first `k` triangles use vertex `iv`; each counts once however many corners it gives `iv`. */
  function IncidentCount(triangles: seq<U32>, iv: nat, k: nat): nat
    requires k <= TriangleCount(triangles)
  {
    if k == 0 then 0
    else IncidentCount(triangles, iv, k - 1) + (if Touches(triangles, k - 1, iv) then 1 else 0)
  }

  /** The sum of the face normals of those of the first `k` triangles that use vertex `iv`. */
  function IncidentSum(verts: seq<Vertex>, triangles: seq<U32>, iv: nat, k: nat): Vec3
    requires k <= TriangleCount(triangles) && CornersInRange(triangles, |verts|)
  {
    if k == 0 then Zero
    else if Touches(triangles, k - 1, iv) then IncidentSum(verts, triangles, iv, k - 1).Plus(FaceNormal(verts, triangles, k - 1))
    else IncidentSum(verts, triangles, iv, k - 1)
  }

  /** Every vertex is used by some triangle; otherwise the source divides zero by zero. */
  predicate EveryVertexUsed(triangles: seq<U32>, vertexCount: nat) {
    forall iv :: 0 <= iv < vertexCount ==> IncidentCount(triangles, iv, TriangleCount(triangles)) > 0
  }

  /** The normal vertex `iv` gets before normalisation. */
  function AveragedNormal(verts: seq<Vertex>, triangles: seq<U32>, iv: nat): Vec3
    requires CornersInRange(triangles, |verts|)
    requires IncidentCount(triangles, iv, TriangleCount(triangles)) > 0
  {
    var k := TriangleCount(triangles);
    IncidentSum(verts, triangles, iv, k).DividedBy(IncidentCount(triangles, iv, k) as real)
  }

  /**
    The routine as written: one pass computing the face normals, then for every vertex a
    pass over all triangles summing and counting those that use it. Locations, the
    vertex order and the index buffer are left alone.
   */
  method ComputeNormals(verts: seq<Vertex>, triangles: seq<U32>) returns (r: seq<Vertex>)
    requires CornersInRange(triangles, |verts|)
    requires EveryVertexUsed(triangles, |verts|)
    ensures |r| == |verts|
    ensures forall iv :: 0 <= iv < |r| ==> r[iv].location == verts[iv].location
    ensures forall iv :: 0 <= iv < |r| ==> r[iv].normal == AveragedNormal(verts, triangles, iv)
  {
    var triCount := |triangles| / 3;
    var faceNormals: seq<Vec3> := seq(triCount, _ => Zero);
    for i := 0 to triCount
      invariant |faceNormals| == triCount
      invariant forall j :: 0 <= j < i ==> faceNormals[j] == FaceNormal(verts, triangles, j)
    {
      var v1 := triangles[i * 3 + 0];
      var v2 := triangles[i * 3 + 1];
      var v3 := triangles[i * 3 + 2];
      var v12 := verts[v2].location.Minus(verts[v1].location);
      var v23 := verts[v3].location.Minus(verts[v2].location);
      faceNormals := faceNormals[i := Cross(v12, v23)];
    }

    r := verts;
    for iv := 0 to |verts|
      invariant |r| == |verts|
      invariant forall j :: 0 <= j < |r| ==> r[j].location == verts[j].location
      invariant forall j :: 0 <= j < iv ==> r[j].normal == AveragedNormal(verts, triangles, j)
    {
      var sum := Zero;
      var shared: nat := 0;
      for it := 0 to triCount
        invariant sum == IncidentSum(verts, triangles, iv, it)
        invariant shared == IncidentCount(triangles, iv, it)
      {
        var v1 := triangles[it * 3 + 0];
        var v2 := triangles[it * 3 + 1];
        var v3 := triangles[it * 3 + 2];
        if iv == v1 || iv == v2 || iv == v3 {
          sum := sum.Plus(faceNormals[it]);
          shared := shared + 1;
        }
      }
      r := r[iv := r[iv].(normal := sum.DividedBy(shared as real))];
    }
  }

  // ---------------------------------------------------------------------------
  // Properties of the averaged normal

  lemma {:induction false} CountPositiveIffReferencedUpTo(triangles: seq<U32>, iv: nat, k: nat)
    requires k <= TriangleCount(triangles)
    ensures IncidentCount(triangles, iv, k) > 0 <==> exists i :: 0 <= i < 3 * k && triangles[i] == iv
  {
    if k > 0 {
      CountPositiveIffReferencedUpTo(triangles, iv, k - 1);
      if Touches(triangles, k - 1, iv) {
        var i := if triangles[3 * (k - 1)] == iv then 3 * (k - 1)
                 else if triangles[3 * (k - 1) + 1] == iv then 3 * (k - 1) + 1
                 else 3 * (k - 1) + 2;
        assert 0 <= i < 3 * k && triangles[i] == iv;
      } else if exists i :: 0 <= i < 3 * k && triangles[i] == iv {
        var i :| 0 <= i < 3 * k && triangles[i] == iv;
        assert i < 3 * (k - 1);
      }
    }
  }

  /** A vertex gets a (finite) averaged normal exactly when some whole triangle names it. */
  lemma CountPositiveIffReferenced(triangles: seq<U32>, iv: nat)
    ensures IncidentCount(triangles, iv, TriangleCount(triangles)) > 0
        <==> exists i :: 0 <= i < 3 * TriangleCount(triangles) && triangles[i] == iv
  {
    CountPositiveIffReferencedUpTo(triangles, iv, TriangleCount(triangles));
  }

  /** The triangles among the first `k` that use vertex `iv`. */
  function TouchingTriangles(triangles: seq<U32>, iv: nat, k: nat): set<nat>
    requires k <= TriangleCount(triangles)
  {
    set t: nat | t < k && Touches(triangles, t, iv)
  }

  /**
    The divisor `shared` counts triangles, not corners: it is the number of distinct
    triangles using the vertex, and so never exceeds the number of triangles scanned.
   */
  lemma {:induction false} IncidentCountIsTouchingTriangles(triangles: seq<U32>, iv: nat, k: nat)
    requires k <= TriangleCount(triangles)
    ensures IncidentCount(triangles, iv, k) == |TouchingTriangles(triangles, iv, k)|
    ensures IncidentCount(triangles, iv, k) <= k
  {
    if k > 0 {
      IncidentCountIsTouchingTriangles(triangles, iv, k - 1);
      var prev := TouchingTriangles(triangles, iv, k - 1);
      var cur := TouchingTriangles(triangles, iv, k);
      if Touches(triangles, k - 1, iv) {
        assert cur == prev + {k - 1};
        assert k - 1 !in prev;
      } else {
        assert cur == prev;
      }
    }
  }

  /** A triangle that names the same vertex at several corners is counted once for it. */
  lemma RepeatedCornerCountedOnce()
    ensures IncidentCount([0, 0, 1], 0, 1) == 1
    ensures IncidentCount([0, 0, 0, 0, 1, 2], 0, 2) == 2
  {
  }

  /** Three vertices at (0,0,0), (1,0,0) and (0,1,0), carrying whatever normals. */
  predicate IsUnitTriangle(verts: seq<Vertex>) {
    && |verts| == 3
    && verts[0].location == Vec3(0.0, 0.0, 0.0)
    && verts[1].location == Vec3(1.0, 0.0, 0.0)
    && verts[2].location == Vec3(0.0, 1.0, 0.0)
  }

  lemma UnitCornersNormal(p1: Vec3, p2: Vec3, p3: Vec3)
    requires p1 == Vec3(0.0, 0.0, 0.0) && p2 == Vec3(1.0, 0.0, 0.0) && p3 == Vec3(0.0, 1.0, 0.0)
    ensures Cross(p2.Minus(p1), p3.Minus(p2)) == Vec3(0.0, 0.0, 1.0)
  {
  }

  /** The face normal of the one triangle `[0, 1, 2]` over three vertices, spelled out. */
  lemma OneTriangleFaceNormal(verts: seq<Vertex>)
    requires |verts| == 3
    ensures CornersInRange([0, 1, 2], 3)
    ensures FaceNormal(verts, [0, 1, 2], 0)
         == Cross(verts[1].location.Minus(verts[0].location), verts[2].location.Minus(verts[1].location))
  {
    var t: seq<U32> := [0, 1, 2];
    assert TriangleCount(t) == 1;
    assert t[0] == 0 && t[1] == 1 && t[2] == 2;
  }

  lemma UnitTriangleFaceNormal(verts: seq<Vertex>)
    requires IsUnitTriangle(verts)
    ensures CornersInRange([0, 1, 2], 3)
    ensures FaceNormal(verts, [0, 1, 2], 0) == Vec3(0.0, 0.0, 1.0)
  {
    OneTriangleFaceNormal(verts);
    UnitCornersNormal(verts[0].location, verts[1].location, verts[2].location);
  }

  /** In a mesh of one triangle, each of its three vertices collects that triangle's normal once. */
  lemma OneTriangleIncidence(verts: seq<Vertex>, iv: nat)
    requires |verts| == 3 && iv < 3
    ensures CornersInRange([0, 1, 2], 3)
    ensures IncidentCount([0, 1, 2], iv, 1) == 1
    ensures IncidentSum(verts, [0, 1, 2], iv, 1) == Zero.Plus(FaceNormal(verts, [0, 1, 2], 0))
  {
    var t: seq<U32> := [0, 1, 2];
    assert TriangleCount(t) == 1;
    assert Touches(t, 0, iv);
  }

  /** The triangle (0,0,0), (1,0,0), (0,1,0) gives each of its vertices the normal (0,0,1). */
  lemma SingleTriangleNormal(verts: seq<Vertex>, iv: nat)
    requires IsUnitTriangle(verts) && iv < 3
    ensures CornersInRange([0, 1, 2], 3)
    ensures EveryVertexUsed([0, 1, 2], 3)
    ensures AveragedNormal(verts, [0, 1, 2], iv) == Vec3(0.0, 0.0, 1.0)
  {
    OneTriangleUsesAll(verts);
    UnitTriangleFaceNormal(verts);
    OneTriangleAverage(verts, iv, Vec3(0.0, 0.0, 1.0));
  }

  /** A vertex of the only triangle of a mesh gets exactly that triangle's face normal. */
  lemma OneTriangleAverage(verts: seq<Vertex>, iv: nat, f: Vec3)
    requires |verts| == 3 && iv < 3
    requires CornersInRange([0, 1, 2], 3) && FaceNormal(verts, [0, 1, 2], 0) == f
    ensures IncidentCount([0, 1, 2], iv, TriangleCount([0, 1, 2])) > 0
    ensures AveragedNormal(verts, [0, 1, 2], iv) == f
  {
    OneTriangleIncidence(verts, iv);
    SingleContribution(f);
    assert TriangleCount([0, 1, 2]) == 1;
  }

  lemma OneTriangleUsesAll(verts: seq<Vertex>)
    requires |verts| == 3
    ensures EveryVertexUsed([0, 1, 2], 3)
  {
    forall j | 0 <= j < 3
      ensures IncidentCount([0, 1, 2], j, TriangleCount([0, 1, 2])) > 0
    {
      OneTriangleIncidence(verts, j);
      assert TriangleCount([0, 1, 2]) == 1;
    }
  }

  /** Averaging a single contribution gives that contribution back. */
  lemma SingleContribution(f: Vec3)
    ensures Zero.Plus(f).DividedBy(1 as real) == f
  {
  }

  /** In a flat mesh (`triangles[i] == i`) triangle `t` uses vertex `iv` exactly when `t == iv / 3`. */
  lemma FlatTouches(triangles: seq<U32>, t: nat, iv: nat)
    requires t < TriangleCount(triangles)
    requires forall i :: 0 <= i < |triangles| ==> triangles[i] == i
    ensures Touches(triangles, t, iv) <==> t == iv / 3
  {
  }

  lemma {:induction false} FlatIncidence(verts: seq<Vertex>, triangles: seq<U32>, iv: nat, k: nat)
    requires forall i :: 0 <= i < |triangles| ==> triangles[i] == i
    requires |triangles| == |verts| && k <= TriangleCount(triangles)
    ensures CornersInRange(triangles, |verts|)
    ensures IncidentCount(triangles, iv, k) == if iv / 3 < k then 1 else 0
    ensures iv / 3 < k ==> IncidentSum(verts, triangles, iv, k) == FaceNormal(verts, triangles, iv / 3)
    ensures k <= iv / 3 ==> IncidentSum(verts, triangles, iv, k) == Zero
  {
    if k > 0 {
      FlatIncidence(verts, triangles, iv, k - 1);
      FlatTouches(triangles, k - 1, iv);
      if iv / 3 == k - 1 {
        var f := FaceNormal(verts, triangles, k - 1);
        assert Zero.Plus(f) == f;
      }
    }
  }

  /**
    In a flat mesh every vertex belongs to exactly one triangle, so its averaged
    normal is that triangle's face normal: flat shading.
   */
  lemma FlatMeshNormals(verts: seq<Vertex>, triangles: seq<U32>)
    requires forall i :: 0 <= i < |triangles| ==> triangles[i] == i
    requires |triangles| == |verts| && |triangles| % 3 == 0
    ensures CornersInRange(triangles, |verts|)
    ensures EveryVertexUsed(triangles, |verts|)
    ensures forall iv :: 0 <= iv < |verts| ==>
      AveragedNormal(verts, triangles, iv) == FaceNormal(verts, triangles, iv / 3)
  {
    var k := TriangleCount(triangles);
    forall iv | 0 <= iv < |verts|
      ensures IncidentCount(triangles, iv, k) == 1
      ensures IncidentSum(verts, triangles, iv, k) == FaceNormal(verts, triangles, iv / 3)
    {
      FlatIncidence(verts, triangles, iv, k);
    }
    FlatIncidence(verts, triangles, 0, k);
    forall iv | 0 <= iv < |verts|
      ensures AveragedNormal(verts, triangles, iv) == FaceNormal(verts, triangles, iv / 3)
    {
      var f := FaceNormal(verts, triangles, iv / 3);
      assert f.DividedBy(1.0) == f;
    }
  }

  /**
    Converting an indexed mesh to flat form and then synthesising normals gives each
    corner the face normal of its original triangle.
   */
  lemma FlatShadingAfterUnshare(m: Mesh)
    requires VertexSharing.VertsAreShared(m) && m.IndicesInRange()
    requires |m.triangles| % 3 == 0 && |m.triangles| <= U32_MODULUS
    ensures var f := VertexSharing.ShareVertices(m, false);
      && CornersInRange(m.triangles, |m.verts|)
      && CornersInRange(f.triangles, |f.verts|)
      && EveryVertexUsed(f.triangles, |f.verts|)
      && forall i :: 0 <= i < |f.verts| ==>
           AveragedNormal(f.verts, f.triangles, i) == FaceNormal(m.verts, m.triangles, i / 3)
  {
    var f := VertexSharing.ShareVertices(m, false);
    VertexSharing.UnsharePreservesCorners(m);
    FlatMeshNormals(f.verts, f.triangles);
    forall i | 0 <= i < |f.verts|
      ensures FaceNormal(f.verts, f.triangles, i / 3) == FaceNormal(m.verts, m.triangles, i / 3)
    {
      var t := i / 3;
      assert f.verts[f.triangles[3 * t]] == m.verts[m.triangles[3 * t]];
      assert f.verts[f.triangles[3 * t + 1]] == m.verts[m.triangles[3 * t + 1]];
      assert f.verts[f.triangles[3 * t + 2]] == m.verts[m.triangles[3 * t + 2]];
    }
  }
}
