/** What the line parser promises: per-line effects, index resolution, mesh segmentation. */
module ObjLoaderProperties {
  import opened MeshTypes
  import opened Results
  import opened ObjLoader

  // ---------------------------------------------------------------------------
  // Per-line effects

  /** A position line (not right after a face) appends exactly one vertex and changes nothing else. */
  lemma PositionAppendsOneVertex(s: ParserState, p: Vec3)
    requires !s.lastLineWasFace
    ensures Step(s, Position(p)).Ok?
    ensures var t := Step(s, Position(p)).value;
      && |t.verts| == |s.verts| + 1
      && t.verts[..|s.verts|] == s.verts
      && t.verts[|s.verts|] == Vertex(p, Zero)
      && t.(verts := s.verts) == s
  {
  }

  /** A texture-coordinate line (not right after a face) only raises `hasUV`. */
  lemma TexCoordOnlySetsFlag(s: ParserState)
    requires !s.lastLineWasFace
    ensures Step(s, TexCoord).Ok?
    ensures var t := Step(s, TexCoord).value;
      t.hasUV && t.(hasUV := s.hasUV) == s
  {
  }

  /**
    A normal line (not right after a face) writes the normal of vertex `normalCount`,
    keeps that vertex's location and every other vertex, raises `hasNorm` and advances
    the counter.
   */
  lemma NormalWritesOneSlot(s: ParserState, n: Vec3)
    requires !s.lastLineWasFace && s.normalCount < |s.verts|
    ensures Step(s, Normal(n)).Ok?
    ensures var t := Step(s, Normal(n)).value;
      && |t.verts| == |s.verts|
      && t.verts[s.normalCount] == Vertex(s.verts[s.normalCount].location, n)
      && (forall i :: 0 <= i < |s.verts| && i != s.normalCount ==> t.verts[i] == s.verts[i])
      && t.normalCount == s.normalCount + 1
      && t.hasNorm
      && t.(verts := s.verts, normalCount := s.normalCount, hasNorm := s.hasNorm) == s
  {
  }

  /** The unchecked write `verts[normalCount++]` past the end of the buffer is reported as an error. */
  lemma NormalWithoutVertexFails(s: ParserState, n: Vec3)
    requires !s.lastLineWasFace && |s.verts| <= s.normalCount
    ensures Step(s, Normal(n)) == Err(NormalIndexOutOfBounds(s.normalCount, |s.verts|))
  {
  }

  /**
    Since closing a mesh empties the vertex buffer, a normal line directly after a face
    line always addresses a vertex that does not exist.
   */
  lemma NormalAfterFaceFails(s: ParserState, n: Vec3)
    requires s.lastLineWasFace
    ensures Step(s, Normal(n)) == Err(NormalIndexOutOfBounds(s.normalCount, 0))
  {
  }

  /** Blank and unrecognised lines change nothing, not even the "last line was a face" flag. */
  lemma IgnoredLinesChangeNothing(s: ParserState, line: Line)
    requires line.Blank? || line.Other? || (line.OtherVertexData? && !s.lastLineWasFace)
    ensures Step(s, line) == Ok(s)
  {
  }

  /**
    A face line appends corners (1,2,3) and, exactly when the resolved fourth corner is
    not zero, the fan triangle (1,3,4); it also raises `lastLineWasFace` and changes
    nothing else.
   */
  lemma FaceLineAppendsTriangles(s: ParserState, fields: seq<Int32>)
    ensures Step(s, Face(fields)).Ok?
    ensures
      var k := Stride(s.hasUV, s.hasNorm);
      var c1 := ZeroBased(Resolve(Corner(fields, k, 0), |s.verts|));
      var c2 := ZeroBased(Resolve(Corner(fields, k, 1), |s.verts|));
      var c3 := ZeroBased(Resolve(Corner(fields, k, 2), |s.verts|));
      var v4 := Resolve(Corner(fields, k, 3), |s.verts|);
      var n := |s.triangles|;
      var t := Step(s, Face(fields)).value;
      && |t.triangles| == n + (if v4 != 0 then 6 else 3)
      && t.triangles[..n] == s.triangles
      && t.triangles[n..n + 3] == [c1, c2, c3]
      && (v4 != 0 ==> t.triangles[n + 3..] == [c1, c3, ZeroBased(v4)])
      && t.lastLineWasFace
      && t.(triangles := s.triangles, lastLineWasFace := s.lastLineWasFace) == s
  {
    var t := Step(s, Face(fields)).value;
    assert t.triangles == s.triangles + FaceIndices(fields, s.hasUV, s.hasNorm, |s.verts|);
  }

  // ---------------------------------------------------------------------------
  // Corner resolution and triangulation

  /** A corner within the vertices declared so far, counted from the front or from the back. */
  predicate CornerValid(c: Int32, count: nat) {
    (1 <= c <= count) || (-(count as int) <= c <= -1)
  }

  /**
    A valid corner becomes the zero-based index it names: `c - 1` from the front,
    `count + c` from the back, so `-1` is the last vertex declared.
   */
  lemma ResolveValidCorner(c: Int32, count: nat)
    requires CornerValid(c, count) && count < I32_LIMIT
    ensures Resolve(c, count) != 0
    ensures ZeroBased(Resolve(c, count)) == (if c > 0 then c - 1 else count + c)
    ensures ZeroBased(Resolve(c, count)) < count
  {
  }

  /** With five vertices declared, corner `-1` is vertex 4, and corner `-5` is vertex 0. */
  lemma NegativeCornerExample()
    ensures ZeroBased(Resolve(-1, 5)) == 4
    ensures ZeroBased(Resolve(-5, 5)) == 0
  {
  }

  /** A corner of `0` is not rejected: it becomes `uint32(-1)`. */
  lemma ZeroCornerWraps(count: nat)
    ensures ZeroBased(Resolve(0, count)) == 0xFFFF_FFFF
  {
  }

  /**
    A fourth corner of `-(count + 1)` resolves to 0 and so is taken as absent:
    the quad silently loses its second triangle.
   */
  lemma FourthCornerResolvingToZeroDropsFan(count: nat)
    requires count < I32_LIMIT - 1
    ensures |FaceIndices([1, 2, 3, -(count as int) - 1], false, false, count)| == 3
  {
  }

  /**
    A quad with position indices 1 2 3 4, written in each grammar's own syntax
    (`f 1 2 3 4`, `f 1/7 2/7 3/7 4/7`, `f 1//8 2//8 3//8 4//8`, `f 1/7/8 ..`), becomes
    `[0,1,2, 0,2,3]`; the triangle `f 1 2 3` becomes `[0,1,2]`.
   */
  lemma QuadFanExample(count: nat)
    ensures FaceIndices([1, 2, 3, 4], false, false, count) == [0, 1, 2, 0, 2, 3]
    ensures FaceIndices([1, 7, 2, 7, 3, 7, 4, 7], true, false, count) == [0, 1, 2, 0, 2, 3]
    ensures FaceIndices([1, 8, 2, 8, 3, 8, 4, 8], false, true, count) == [0, 1, 2, 0, 2, 3]
    ensures FaceIndices([1, 7, 8, 2, 7, 8, 3, 7, 8, 4, 7, 8], true, true, count) == [0, 1, 2, 0, 2, 3]
    ensures FaceIndices([1, 2, 3], false, false, count) == [0, 1, 2]
  {
  }

  /**
    A face line written in another syntax than the one the flags select: `sscanf` stops at
    the first mismatch, so `f 1 2 3` read with a `/` grammar yields only its first integer.
    Corners 2 and 3 stay 0 and are stored as `0xFFFFFFFF`; no fan triangle is added.
   */
  lemma MismatchedGrammarTruncatesFace(hasUV: bool, hasNorm: bool, count: nat)
    requires hasUV || hasNorm
    ensures FaceIndices([1], hasUV, hasNorm, count) == [0, 0xFFFF_FFFF, 0xFFFF_FFFF]
  {
  }

  /**
    The stale-flag case: `hasNorm` survives the boundary into a new mesh, so a plain
    `f 1 2 3` in the new mesh is read with the `a//n` grammar and loses corners 2 and 3.
   */
  lemma StaleNormalFlagTruncatesFace(s: ParserState, p: Vec3)
    requires s.lastLineWasFace && s.hasNorm
    ensures var r := Run(s, [Position(p), Face([1])]);
      && r.Ok?
      && |r.value.meshes| == |s.meshes| + 1
      && r.value.verts == [Vertex(p, Zero)]
      && r.value.triangles == [0, 0xFFFF_FFFF, 0xFFFF_FFFF]
  {
    var t := Step(s, Position(p)).value;
    assert t == CloseMesh(s).(verts := [Vertex(p, Zero)]);
    assert t.hasNorm && !t.hasUV && t.triangles == [];
    RunCons(s, Position(p), [Face([1])]);
    RunCons(t, Face([1]), []);
    MismatchedGrammarTruncatesFace(false, true, 1);
  }

  /** A face line whose corners all name declared vertices (a missing fourth corner is 0). */
  predicate FaceValid(fields: seq<Int32>, hasUV: bool, hasNorm: bool, count: nat) {
    var k := Stride(hasUV, hasNorm);
    && count < I32_LIMIT
    && CornerValid(Corner(fields, k, 0), count)
    && CornerValid(Corner(fields, k, 1), count)
    && CornerValid(Corner(fields, k, 2), count)
    && (Corner(fields, k, 3) == 0 || CornerValid(Corner(fields, k, 3), count))
  }

  /** The indices of a valid face line are in range, and there are three or six of them. */
  lemma ValidFaceIndicesInRange(fields: seq<Int32>, hasUV: bool, hasNorm: bool, count: nat)
    requires FaceValid(fields, hasUV, hasNorm, count)
    ensures var r := FaceIndices(fields, hasUV, hasNorm, count);
      && |r| == (if Corner(fields, Stride(hasUV, hasNorm), 3) == 0 then 3 else 6)
      && forall i :: 0 <= i < |r| ==> r[i] < count
  {
    var k := Stride(hasUV, hasNorm);
    ResolveValidCorner(Corner(fields, k, 0), count);
    ResolveValidCorner(Corner(fields, k, 1), count);
    ResolveValidCorner(Corner(fields, k, 2), count);
    if Corner(fields, k, 3) != 0 {
      ResolveValidCorner(Corner(fields, k, 3), count);
    }
  }

  // ---------------------------------------------------------------------------
  // Whole-stream invariants

  /** Every index buffer, finished or in progress, holds whole triangles. */
  predicate WholeTriangles(s: ParserState) {
    && |s.triangles| % 3 == 0
    && forall i :: 0 <= i < |s.meshes| ==> |s.meshes[i].triangles| % 3 == 0
  }

  lemma StepKeepsWholeTriangles(s: ParserState, line: Line)
    requires WholeTriangles(s)
    ensures Step(s, line).Ok? ==> WholeTriangles(Step(s, line).value)
  {
    if line.Face? {
      var added := FaceIndices(line.fields, s.hasUV, s.hasNorm, |s.verts|);
      assert |s.triangles + added| == |s.triangles| + |added|;
    } else if line.StartsWithV() {
      var t := BeginVertexLine(s);
      assert WholeTriangles(t);
    }
  }

  lemma {:induction false} RunKeepsWholeTriangles(s: ParserState, lines: seq<Line>)
    requires WholeTriangles(s)
    ensures Run(s, lines).Ok? ==> WholeTriangles(Run(s, lines).value)
    decreases |lines|
  {
    if |lines| > 0 {
      StepKeepsWholeTriangles(s, lines[0]);
      if Step(s, lines[0]).Ok? {
        RunKeepsWholeTriangles(Step(s, lines[0]).value, lines[1..]);
      }
    }
  }

  /** Every mesh the parser appends has a triangle count that is a multiple of 3. */
  lemma LoadObjWholeTriangles(lines: seq<Line>, meshes: seq<Mesh>)
    requires forall i :: 0 <= i < |meshes| ==> |meshes[i].triangles| % 3 == 0
    ensures var r := LoadObj(Some(lines), meshes);
      r.Ok? ==> forall i :: 0 <= i < |r.value| ==> |r.value[i].triangles| % 3 == 0
  {
    RunKeepsWholeTriangles(Start(meshes), lines);
  }

  /** Every face line of the stream is valid for the state the parser is in when it reads it. */
  predicate FacesValidFrom(s: ParserState, lines: seq<Line>)
    decreases |lines|
  {
    if |lines| == 0 then true
    else
      && (lines[0].Face? ==> FaceValid(lines[0].fields, s.hasUV, s.hasNorm, |s.verts|))
      && match Step(s, lines[0])
         case Ok(t) => FacesValidFrom(t, lines[1..])
         case Err(_) => true
  }

  /** Every stored index, finished or in progress, names a vertex of its own mesh. */
  predicate StateInRange(s: ParserState) {
    && (forall i :: 0 <= i < |s.triangles| ==> s.triangles[i] < |s.verts|)
    && forall i :: 0 <= i < |s.meshes| ==> s.meshes[i].IndicesInRange()
  }

  lemma StepKeepsInRange(s: ParserState, line: Line)
    requires StateInRange(s)
    requires line.Face? ==> FaceValid(line.fields, s.hasUV, s.hasNorm, |s.verts|)
    ensures Step(s, line).Ok? ==> StateInRange(Step(s, line).value)
  {
    if line.Face? {
      ValidFaceIndicesInRange(line.fields, s.hasUV, s.hasNorm, |s.verts|);
    }
  }

  lemma {:induction false} RunKeepsInRange(s: ParserState, lines: seq<Line>)
    requires StateInRange(s) && FacesValidFrom(s, lines)
    ensures Run(s, lines).Ok? ==> StateInRange(Run(s, lines).value)
    decreases |lines|
  {
    if |lines| > 0 {
      StepKeepsInRange(s, lines[0]);
      if Step(s, lines[0]).Ok? {
        RunKeepsInRange(Step(s, lines[0]).value, lines[1..]);
      }
    }
  }

  /**
    When every face corner names a vertex declared before its line, every mesh
    the parser produces indexes only its own vertices.
   */
  lemma LoadObjIndicesInRange(lines: seq<Line>, meshes: seq<Mesh>)
    requires forall i :: 0 <= i < |meshes| ==> meshes[i].IndicesInRange()
    requires FacesValidFrom(Start(meshes), lines)
    ensures var r := LoadObj(Some(lines), meshes);
      r.Ok? ==> forall i :: 0 <= i < |r.value| ==> r.value[i].IndicesInRange()
  {
    RunKeepsInRange(Start(meshes), lines);
  }

  // ---------------------------------------------------------------------------
  // Mesh segmentation

  /**
    How many times a 'v' line follows a face line, ignoring blank and other
    lines in between, when the stream starts with the given flag.
   */
  function Boundaries(afterFace: bool, lines: seq<Line>): nat
    decreases |lines|
  {
    if |lines| == 0 then 0
    else if lines[0].Face? then Boundaries(true, lines[1..])
    else if lines[0].StartsWithV() then (if afterFace then 1 else 0) + Boundaries(false, lines[1..])
    else Boundaries(afterFace, lines[1..])
  }

  /** A 'v' line other than a normal, right after a face, closes the mesh under construction. */
  lemma VertexLineAfterFaceClosesMesh(s: ParserState, line: Line)
    requires line.StartsWithV() && !line.Normal? && s.lastLineWasFace
    ensures Step(s, line).Ok?
    ensures var t := Step(s, line).value;
      && t.meshes == s.meshes + [Mesh(s.verts, s.triangles)]
      && t.triangles == []
      && t.verts == (if line.Position? then [Vertex(line.p, Zero)] else [])
      && !t.lastLineWasFace
      && t.hasUV == line.TexCoord?
      && t.hasNorm == s.hasNorm
      && t.normalCount == s.normalCount
  {
  }

  lemma {:induction false} RunMeshCount(s: ParserState, lines: seq<Line>)
    ensures Run(s, lines).Ok? ==>
      |Run(s, lines).value.meshes| == |s.meshes| + Boundaries(s.lastLineWasFace, lines)
    decreases |lines|
  {
    if |lines| > 0 {
      match Step(s, lines[0])
      case Err(_) =>
      case Ok(t) =>
        RunMeshCount(t, lines[1..]);
    }
  }

  /** The parser appends one mesh per face-to-vertex transition, plus the final one. */
  lemma LoadObjMeshCount(lines: seq<Line>, meshes: seq<Mesh>)
    ensures var r := LoadObj(Some(lines), meshes);
      r.Ok? ==> |r.value| == |meshes| + Boundaries(false, lines) + 1
  {
    RunMeshCount(Start(meshes), lines);
  }

  /** Without normal lines nothing can go out of bounds: the parse always succeeds. */
  lemma {:induction false} RunWithoutNormalsSucceeds(s: ParserState, lines: seq<Line>)
    requires forall i :: 0 <= i < |lines| ==> !lines[i].Normal?
    ensures Run(s, lines).Ok?
    decreases |lines|
  {
    if |lines| > 0 {
      RunWithoutNormalsSucceeds(Step(s, lines[0]).value, lines[1..]);
    }
  }

  lemma {:induction false} RunTexCoords(s: ParserState, lines: seq<Line>)
    requires !s.lastLineWasFace
    requires forall i :: 0 <= i < |lines| ==> lines[i] == TexCoord
    ensures Run(s, lines) == Ok(s.(hasUV := s.hasUV || |lines| > 0))
    decreases |lines|
  {
    if |lines| > 0 {
      RunTexCoords(s.(hasUV := true), lines[1..]);
    }
  }

  /** A stream of nothing but texture-coordinate lines yields exactly one mesh, and it is empty. */
  lemma TexCoordsOnlyGiveOneEmptyMesh(lines: seq<Line>)
    requires forall i :: 0 <= i < |lines| ==> lines[i] == TexCoord
    ensures LoadObj(Some(lines), []) == Ok([Mesh([], [])])
    ensures LoadObj(Some(lines), []).value[0].Empty()
  {
    RunTexCoords(Start([]), lines);
  }

  /** Two vertex/face blocks, the second starting right after a face, give two separate meshes. */
  lemma TwoBlocksGiveTwoMeshes(a: Vec3, b: Vec3, c: Vec3, d: Vec3, e: Vec3, f: Vec3)
    ensures LoadObj(Some([Position(a), Position(b), Position(c), Face([1, 2, 3]),
                          Position(d), Position(e), Position(f), Face([-3, -2, -1])]), [])
      == Ok([Mesh([Vertex(a, Zero), Vertex(b, Zero), Vertex(c, Zero)], [0, 1, 2]),
             Mesh([Vertex(d, Zero), Vertex(e, Zero), Vertex(f, Zero)], [0, 1, 2])])
  {
    var block1 := [Position(a), Position(b), Position(c), Face([1, 2, 3])];
    var block2 := [Position(d), Position(e), Position(f), Face([-3, -2, -1])];
    var s0 := Start([]);
    var mesh1 := Mesh([Vertex(a, Zero), Vertex(b, Zero), Vertex(c, Zero)], [0, 1, 2]);
    var s4 := ParserState([], mesh1.verts, [0, 1, 2], 0, true, false, false);
    var s8 := ParserState([mesh1], [Vertex(d, Zero), Vertex(e, Zero), Vertex(f, Zero)], [0, 1, 2], 0, true, false, false);
    assert FaceIndices([1, 2, 3], false, false, 3) == [0, 1, 2];
    assert FaceIndices([-3, -2, -1], false, false, 3) == [0, 1, 2];
    RunBlock(s0, a, b, c, [1, 2, 3]);
    RunBlock(s4, d, e, f, [-3, -2, -1]);
    assert Run(s0, block1) == Ok(s4);
    assert BeginVertexLine(s4).meshes == [mesh1];
    assert Run(s4, block2) == Ok(s8);
    RunConcatenates(s0, block1, block2);
    assert Run(s0, block1 + block2) == Ok(s8);
    assert Finish(s8) == [mesh1, Mesh(s8.verts, [0, 1, 2])];
    assert block1 + block2 == [Position(a), Position(b), Position(c), Face([1, 2, 3]),
                               Position(d), Position(e), Position(f), Face([-3, -2, -1])];
  }

  /** Three position lines and a face line, read when the vertex buffer is (or is about to be) empty. */
  lemma RunBlock(s: ParserState, a: Vec3, b: Vec3, c: Vec3, fields: seq<Int32>)
    requires s.lastLineWasFace || (s.verts == [] && s.triangles == [])
    requires !s.hasUV && !s.hasNorm
    ensures Run(s, [Position(a), Position(b), Position(c), Face(fields)])
      == Ok(ParserState(BeginVertexLine(s).meshes, [Vertex(a, Zero), Vertex(b, Zero), Vertex(c, Zero)],
                        FaceIndices(fields, false, false, 3), s.normalCount, true, false, false))
  {
    var t0 := BeginVertexLine(s);
    var t1 := t0.(verts := [Vertex(a, Zero)]);
    var t2 := t1.(verts := [Vertex(a, Zero), Vertex(b, Zero)]);
    var t3 := t2.(verts := [Vertex(a, Zero), Vertex(b, Zero), Vertex(c, Zero)]);
    var t4 := t3.(triangles := FaceIndices(fields, false, false, 3), lastLineWasFace := true);
    assert t0.verts == [] && t0.triangles == [];
    assert t0.verts + [Vertex(a, Zero)] == t1.verts;
    assert Step(s, Position(a)) == Ok(t1);
    assert t1.verts + [Vertex(b, Zero)] == t2.verts;
    assert Step(t1, Position(b)) == Ok(t2);
    assert t2.verts + [Vertex(c, Zero)] == t3.verts;
    assert Step(t2, Position(c)) == Ok(t3);
    assert t3.triangles + FaceIndices(fields, false, false, 3) == t4.triangles;
    assert Step(t3, Face(fields)) == Ok(t4);
    RunCons(t3, Face(fields), []);
    RunCons(t2, Position(c), [Face(fields)]);
    RunCons(t1, Position(b), [Position(c), Face(fields)]);
    RunCons(s, Position(a), [Position(b), Position(c), Face(fields)]);
  }

  lemma RunCons(s: ParserState, line: Line, rest: seq<Line>)
    ensures Run(s, [line] + rest)
      == if Step(s, line).Ok? then Run(Step(s, line).value, rest) else Err(Step(s, line).error)
  {
    assert ([line] + rest)[1..] == rest;
  }

  /** Parsing two pieces of a stream one after the other is parsing the whole stream. */
  lemma {:induction false} RunConcatenates(s: ParserState, xs: seq<Line>, ys: seq<Line>)
    ensures Run(s, xs + ys)
      == if Run(s, xs).Ok? then Run(Run(s, xs).value, ys) else Err(Run(s, xs).error)
    decreases |xs|
  {
    if |xs| > 0 {
      assert (xs + ys)[0] == xs[0];
      assert (xs + ys)[1..] == xs[1..] + ys;
      if Step(s, xs[0]).Ok? {
        RunConcatenates(Step(s, xs[0]).value, xs[1..], ys);
      }
    } else {
      assert xs + ys == ys;
    }
  }
}
