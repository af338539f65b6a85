# Mesh loading core of model-viewer, in Dafny

This project models the three pure routines of `src/main.cpp` that build and reshape
meshes, and proves what they promise:

- **`loadObj`**: the hand-written line-oriented parser for the OBJ geometry format. Each line is
  classified by its first character and, after a `v`, by its second. Position lines append
  vertices. A `vn` line writes the normal of vertex `normalCount` and advances the counter.
  Face lines append one or two triangles. A "last line was a face" flag splits the stream into
  several meshes. The model is a fold (`ObjLoader.Run`) of a per-line transition
  (`ObjLoader.Step`) over already-tokenised line records. Its state record holds the caller's
  mesh list `meshes` (a reference parameter the parser appends to) and the parser's locals
  `verts`, `triangles`, `normalCount`, `lastLineWasFace`, `hasUV`, `hasNorm`. `loadMesh` (the move of the two buffers into a `Mesh`) is `ObjLoader.LoadMesh`.
- **`shareVertices`**: conversion of an indexed mesh to flat form, one vertex slot per
  triangle corner (`VertexSharing.ShareVertices`). There is also a loop version that is proved
  equal to it.
- **`computeNormals`**, up to but not including the final `glm::normalize`. Each vertex gets
  the sum of the unnormalised face normals `cross(v2 - v1, v3 - v2)` of the triangles that use
  it, divided by how many triangles those are (`NormalSynthesis.ComputeNormals`).

The data types follow `src/main.h`:

- `Vertex` has a `location` and a `normal`.
- `Mesh` has `verts` and `triangles`.
- `Mesh.Empty()` is `verts` being empty.

Vectors are exact real triples. Triangle indices are `uint32`, and corner numbers are scanned
as `int32`. Both integer types are written out as subset types, and the source's conversions
between them are spelled out (`WrapU32`, `WrapI32`).

Modules: `MeshTypes` (data model), `Results` (option/result), `ObjLoader` (parser),
`ObjLoaderProperties` (parser lemmas), `VertexSharing`, `NormalSynthesis`.

Behaviour of the source that the model keeps on purpose:

- **Unchecked `vn` write.** The write `verts[normalCount++]` is not bounds-checked.
  - When `normalCount` is not below the vertex count, the model returns
    `Err(NormalIndexOutOfBounds(..))` where the source has undefined behaviour.
  - `hasNorm` and `normalCount` survive a mesh boundary while the vertex buffer is cleared, so
    a `vn` line directly after a face line always ends in this error.
- **Unchecked face corners.** Face corners are never checked against the vertex count.
  - Corner `0` becomes `0xFFFFFFFF`.
  - Out-of-range corners are resolved and stored unclamped: with `n` vertices, `-(n + 2)`
    resolves to `-1` and is stored as `0xFFFFFFFE`.
  - The in-range result holds only under the explicit hypothesis `FacesValidFrom`.
- **Fourth-corner test.** The test for a fourth corner runs on the resolved value. A fourth
  corner of `-(count + 1)` therefore resolves to 0 and drops the second triangle.
- **Grammar from stale flags.** The face grammar is chosen from `hasUV` and `hasNorm`. Because
  `hasNorm` is not reset at a mesh boundary, a later mesh may be scanned with a grammar that
  expects normal sub-indices. A plain `f 1 2 3` there keeps only its first corner
  (`ObjLoaderProperties.StaleNormalFlagTruncatesFace`).

## Model

| member | source | states |
|---|---|---|
| MeshTypes.WrapU32 | src/main.cpp:196-203 | pushing an `int32` into the `uint32` index buffer keeps the value when it fits and is otherwise congruent to it modulo 2^32 |
| MeshTypes.WrapI32 | src/main.cpp:191-194 | storing the `size_t` sum back into an `int32` keeps values in range and is otherwise congruent modulo 2^32 |
| ObjLoader.Stride | src/main.cpp:166-190 | the grammar the flags select puts one integer per corner, plus one for a texture index when `hasUV` and one for a normal index when `hasNorm`, so consecutive position indices are 1 + hasUV + hasNorm integers apart |
| ObjLoader.Resolve | src/main.cpp:191-194 | a non-negative corner is kept; a negative one becomes `c + 1 + count` whenever that fits in an `int32`, and is in every case congruent to it modulo 2^32 |
| ObjLoader.FaceIndices | src/main.cpp:191-204 | a face appends 3 or 6 indices; a corner given as `c >= 1` is stored as `c - 1`, in the fan triangle too; a line with at most three corner records gives one triangle and a positive fourth corner always gives two; the fan triangle starts with corners 1 and 3 of the first |
| ObjLoader.CloseMesh | src/main.cpp:128-136 | closing a mesh appends the current buffers after the existing meshes, empties the buffers, clears `lastLineWasFace` and `hasUV`, and keeps `hasNorm` and `normalCount` |
| ObjLoader.Step | src/main.cpp:122-212 | a line fails exactly when it is a `vn` whose slot is past the vertex buffer (after any boundary); otherwise a mesh is appended exactly when a `v` line follows a face, the face flag is set by a face and kept by non-`v` lines, and `normalCount` rises by one per `vn` |
| ObjLoader.Run | src/main.cpp:118-213 | when the loop gets through every line, the meshes it started with are an untouched prefix of those it ends with |
| ObjLoader.Finish | src/main.cpp:215-217 | after the last line the buffers are appended as one more mesh, even when empty, after the meshes already produced |
| ObjLoader.LoadObj | src/main.cpp:106-218 | an unopenable file leaves the caller's mesh list as it was; otherwise at least one mesh is appended after the caller's meshes, which are kept |
| ObjLoaderProperties.PositionAppendsOneVertex | src/main.cpp:142-145 | a `v ` line appends exactly one vertex with the given location and changes no other state |
| ObjLoaderProperties.TexCoordOnlySetsFlag | src/main.cpp:146-149 | a `vt` line raises `hasUV` and changes nothing else |
| ObjLoaderProperties.NormalWritesOneSlot | src/main.cpp:150-156 | a `vn` line sets the normal of vertex `normalCount`, keeps its location and all other vertices, raises `hasNorm`, increments `normalCount`, nothing else |
| ObjLoaderProperties.NormalWithoutVertexFails | src/main.cpp:154 | a `vn` line with `normalCount` not below the vertex count is an out-of-bounds write |
| ObjLoaderProperties.NormalAfterFaceFails | src/main.cpp:128-156 | a `vn` line right after a face line always writes out of bounds, because the boundary empties the buffer but keeps `normalCount` |
| ObjLoaderProperties.IgnoredLinesChangeNothing | src/main.cpp:208-211 | blank and unrecognised lines (and other `v?` lines outside a boundary) leave the whole state, including the face flag, unchanged |
| ObjLoaderProperties.FaceLineAppendsTriangles | src/main.cpp:191-205 | a face line appends corners (1,2,3) and, exactly when the resolved fourth corner is non-zero, also (1,3,4); it raises `lastLineWasFace` and changes nothing else |
| ObjLoaderProperties.ResolveValidCorner | src/main.cpp:191-198 | a corner in `[1, n]` becomes `c - 1` and one in `[-n, -1]` becomes `n + c`; both are below `n` |
| ObjLoaderProperties.NegativeCornerExample | src/main.cpp:191-198 | with 5 vertices, `-1` names vertex 4 and `-5` names vertex 0 |
| ObjLoaderProperties.ZeroCornerWraps | src/main.cpp:196-198 | a corner of 0 is stored as `0xFFFFFFFF` |
| ObjLoaderProperties.FourthCornerResolvingToZeroDropsFan | src/main.cpp:194-204 | a fourth corner of `-(n + 1)` resolves to 0 and the quad keeps only its first triangle |
| ObjLoaderProperties.QuadFanExample | src/main.cpp:159-204 | a quad with position indices 1 2 3 4, written in each grammar's own syntax, gives `[0,1,2,0,2,3]`; the triangle 1 2 3 gives `[0,1,2]` |
| ObjLoaderProperties.MismatchedGrammarTruncatesFace | src/main.cpp:166-198 | under a `/` grammar a plain `f 1 2 3` scans only its first integer, so corners 2 and 3 are 0 and stored as `0xFFFFFFFF` |
| ObjLoaderProperties.StaleNormalFlagTruncatesFace | src/main.cpp:128-136 | after a boundary `hasNorm` is still set, so a plain `f 1 2 3` in the new mesh is stored as `[0, 0xFFFFFFFF, 0xFFFFFFFF]` |
| ObjLoaderProperties.ValidFaceIndicesInRange | src/main.cpp:191-204 | a face whose corners name declared vertices appends 3 or 6 indices, all below the vertex count |
| ObjLoaderProperties.StepKeepsWholeTriangles | src/main.cpp:196-204 | every line keeps every index buffer a multiple of 3 long |
| ObjLoaderProperties.RunKeepsWholeTriangles | src/main.cpp:118-213 | the same over a whole stream |
| ObjLoaderProperties.LoadObjWholeTriangles | src/main.cpp:106-218 | every mesh the parser produces has a triangle count that is a multiple of 3 |
| ObjLoaderProperties.StepKeepsInRange | src/main.cpp:126-211 | a line whose face corners are valid keeps every stored index below the vertex count of its own mesh |
| ObjLoaderProperties.RunKeepsInRange | src/main.cpp:118-213 | the same over a whole stream whose faces are valid when read |
| ObjLoaderProperties.LoadObjIndicesInRange | src/main.cpp:106-218 | if every face corner names a vertex declared before its line, every produced mesh indexes only its own vertices |
| ObjLoaderProperties.VertexLineAfterFaceClosesMesh | src/main.cpp:128-136 | a `v`, `vt` or other `v?` line after a face appends the current buffers as a mesh, empties them, clears `lastLineWasFace` and `hasUV`, keeps `hasNorm` and `normalCount` |
| ObjLoaderProperties.RunMeshCount | src/main.cpp:118-213 | the loop appends one mesh per face-to-`v` transition |
| ObjLoaderProperties.LoadObjMeshCount | src/main.cpp:128-217 | the parser appends the number of face-to-`v` transitions plus one meshes |
| ObjLoaderProperties.RunWithoutNormalsSucceeds | src/main.cpp:150-156 | a stream without `vn` lines never writes out of bounds |
| ObjLoaderProperties.RunTexCoords | src/main.cpp:146-149 | a run of `vt` lines only raises `hasUV` |
| ObjLoaderProperties.TexCoordsOnlyGiveOneEmptyMesh | src/main.cpp:215-217 | input of only `vt` lines yields exactly one mesh, empty |
| ObjLoaderProperties.TwoBlocksGiveTwoMeshes | src/main.cpp:126-217 | two vertex/face blocks yield two meshes with their own buffers, absolute and relative corners alike |
| ObjLoaderProperties.RunConcatenates | src/main.cpp:118-213 | parsing a stream in two pieces is parsing it whole |
| VertexSharing.ShareVertices | src/main.cpp:83-98 | asking for shared form, or passing a mesh already flat, changes nothing; converting keeps the corner count and yields as many vertices as corners |
| VertexSharing.UnsharePreservesCorners | src/main.cpp:89-95 | after conversion `triangles[i] == i`, all indices are in range and every corner shows the same vertex as before |
| VertexSharing.UnshareIdempotent | src/main.cpp:85-89 | converting to flat form twice equals converting once |
| VertexSharing.ShareVerticesLoop | src/main.cpp:83-98 | the loop that fills a pre-sized vertex buffer and renumbers corners computes the reference conversion |
| NormalSynthesis.FaceNormal | src/main.cpp:53-60 | a triangle with two coinciding corners has the zero face normal and so adds nothing to its vertices' sums |
| NormalSynthesis.FaceNormalOrthogonal | src/main.cpp:53-60 | the face normal is perpendicular to all three edges of its triangle |
| NormalSynthesis.ComputeNormals | src/main.cpp:47-78 | the two loops keep every location and set each vertex's normal to the sum of the face normals of the triangles using it divided by their number |
| NormalSynthesis.CountPositiveIffReferenced | src/main.cpp:65-76 | a vertex has a non-zero divisor exactly when some whole triangle names it |
| NormalSynthesis.IncidentCountIsTouchingTriangles | src/main.cpp:65-76 | the divisor `shared` of a vertex is the number of distinct triangles that use it at one corner or more, and never exceeds the number of triangles |
| NormalSynthesis.RepeatedCornerCountedOnce | src/main.cpp:72-75 | in `[0,0,1]` vertex 0 counts once; in `[0,0,0, 0,1,2]` it counts twice, once per triangle |
| NormalSynthesis.UnitTriangleFaceNormal | src/main.cpp:53-61 | the face normal of (0,0,0), (1,0,0), (0,1,0) is (0,0,1) |
| NormalSynthesis.SingleTriangleNormal | src/main.cpp:47-78 | for that single triangle every vertex gets the normal (0,0,1) |
| NormalSynthesis.OneTriangleAverage | src/main.cpp:63-78 | a vertex of the only triangle gets exactly its face normal |
| NormalSynthesis.FlatMeshNormals | src/main.cpp:47-78 | in a flat mesh each vertex is used by exactly one triangle and gets that triangle's face normal |
| NormalSynthesis.FlatShadingAfterUnshare | src/main.cpp:47-98 | converting to flat form and then synthesising normals gives each corner the face normal of its original triangle |

## Left out

- File I/O:
  - `fopen`, `fgetc`, `fgets` and `feof` are not modelled. The input is a sequence of line
    records, and a failed open is `None`.
  - The 256-byte line buffer is not modelled. A longer line, whose rest the source would read
    as a new line, is outside the model.
- `sscanf`'s number scanning is not modelled:
  - A face record holds the integers its grammar scans, in line order.
  - Corners a line does not give are 0, as in the source.
  - A fifth and later corners are ignored, as `sscanf` reads at most four.
  - A line whose text does not match the grammar chosen by `hasUV` and `hasNorm` is a face
    record holding only the integers `sscanf` assigns before the first mismatch. The remaining
    corners are 0 (`ObjLoaderProperties.MismatchedGrammarTruncatesFace`).
  - A line that is just `v` is outside the model. The source reads its newline as the second
    character and its `fgets` then swallows the following line.
- Floating point:
  - Positions, normals and the averaging are over exact reals.
  - The initial normal of a new vertex is taken as zero. This is glm's value-initialisation;
    the source does not set it.
  - `glm::normalize` and the single-precision division by the count are left out.
- Counter widths: `normalCount` and the per-vertex `shared` counter are unbounded naturals.
  `normalCount` is always below the vertex count when written. `shared` would wrap only beyond
  2^32 triangles.
- NormalSynthesis.ComputeNormals: requires every vertex to be used by some triangle and every
  corner to be in range. The source divides zero by zero for an unused vertex and reads out of
  bounds for a bad corner; neither is modelled.
- VertexSharing.ShareVertices: requires the indices to be in range when converting, because the
  source reads `verts[triangles[i]]` unchecked. The direction to shared form only logs a message
  in the source and is modelled as the identity.
- Mesh fields: `name`, `vbo` and `ebo` are not part of `Mesh` here. The parser never sets them.
- `Tri` and `Camera` in `src/main.h` are not modelled: one is unused, the other is for rendering.
- The library-backed loaders `loadObjTiny` and `loadObjAssimp` are not part of this model: their
  behaviour lives in the libraries.
- Not modelled because they are presentation, threading or logging:
  - `loadObjThread` and `loadObjAsync` (threading);
  - `loadShader`, `loadShaders`, `checkSDLError` and `main`;
  - `getViewMatrix`, `logError`, `logDebug`.
