/** `shareVertices`: conversion of an indexed mesh to flat, one-vertex-per-corner form. */
module VertexSharing {
  import opened MeshTypes

  /** Indexed ("shared") form, as the source detects it: vertex and index counts differ. */
  predicate VertsAreShared(m: Mesh) {
    |m.verts| != |m.triangles|
  }

  /** The only request the routine acts on: flat form asked for, mesh still indexed. */
  predicate ConvertsToFlat(m: Mesh, shareVerts: bool) {
    !shareVerts && VertsAreShared(m)
  }

  /**
    The reference definition. Converting reads `verts[triangles[i]]` unchecked, so the
    indices must be in range; the flat-to-shared direction only logs a message.
   */
  function ShareVertices(m: Mesh, shareVerts: bool): (r: Mesh)
    requires ConvertsToFlat(m, shareVerts) ==> m.IndicesInRange()
    ensures |r.triangles| == |m.triangles|
    ensures !ConvertsToFlat(m, shareVerts) ==> r == m
    ensures ConvertsToFlat(m, shareVerts) ==> |r.verts| == |m.triangles| && !VertsAreShared(r)
  {
    if ConvertsToFlat(m, shareVerts) then
      Mesh(seq(|m.triangles|, i requires 0 <= i < |m.triangles| => m.verts[m.triangles[i]]),
           seq(|m.triangles|, i => WrapU32(i)))
    else
      m
  }

  /**
    After conversion every corner has a vertex slot of its own (`triangles[i] == i`)
    and still shows the vertex it showed before. With more than 2^32 corners the
    `uint32` index buffer could not hold the slot numbers.
   */
  lemma UnsharePreservesCorners(m: Mesh)
    requires VertsAreShared(m) && m.IndicesInRange()
    requires |m.triangles| <= U32_MODULUS
    ensures var r := ShareVertices(m, false);
      && |r.verts| == |r.triangles| == |m.triangles|
      && r.IndicesInRange()
      && (forall i :: 0 <= i < |r.triangles| ==> r.triangles[i] == i)
      && (forall i :: 0 <= i < |m.triangles| ==> r.verts[r.triangles[i]] == m.verts[m.triangles[i]])
  {
  }

  /** Converting to flat form twice is the same as converting once. */
  lemma UnshareIdempotent(m: Mesh)
    requires VertsAreShared(m) ==> m.IndicesInRange()
    ensures ShareVertices(ShareVertices(m, false), false) == ShareVertices(m, false)
  {
  }

  /** The routine as written: a loop that fills a fresh vertex buffer and renumbers the corners. */
  method ShareVerticesLoop(m: Mesh, shareVerts: bool) returns (r: Mesh)
    requires ConvertsToFlat(m, shareVerts) ==> m.IndicesInRange()
    ensures r == ShareVertices(m, shareVerts)
  {
    var vertsAreShared := |m.verts| != |m.triangles|;
    if shareVerts && !vertsAreShared {
      // the source only logs that the mesh is converted to shared vertices
      r := m;
    } else if !shareVerts && vertsAreShared {
      var n := |m.triangles|;
      var verts: seq<Vertex> := seq(n, _ => Vertex(Zero, Zero));
      var triangles := m.triangles;
      var i := 0;
      while i < n
        invariant 0 <= i <= n
        invariant |verts| == n && |triangles| == n
        invariant forall j :: 0 <= j < i ==> verts[j] == m.verts[m.triangles[j]]
        invariant forall j :: 0 <= j < i ==> triangles[j] == WrapU32(j)
        invariant forall j :: i <= j < n ==> triangles[j] == m.triangles[j]
      {
        verts := verts[i := m.verts[triangles[i]]];
        triangles := triangles[i := WrapU32(i)];
        i := i + 1;
      }
      r := Mesh(verts, triangles);
    } else {
      r := m;
    }
  }
}
