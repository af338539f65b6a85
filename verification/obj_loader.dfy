/**
  The hand-written line-oriented mesh parser `loadObj`, as a fold over
  already-tokenised line records. The state record holds the caller's mesh list
  and the local variables the parser keeps between lines.
 */
module ObjLoader {
  import opened MeshTypes
  import opened Results

  /** One line of the input, classified by its first one or two characters. */
  datatype Line =
    | Position(p: Vec3)          // "v x y z"
    | TexCoord                   // "vt ...": only remembered as a flag
    | Normal(n: Vec3)            // "vn x y z"
    | OtherVertexData            // 'v' followed by any other character, e.g. "vp ..."
    | Face(fields: seq<Int32>)   // "f ...": the integers of the corner records, in line order
    | Blank                      // a line that is just a newline
    | Other                      // anything else (comments, groups, materials): skipped
  {
    /** Every line whose first character is 'v'. */
    predicate StartsWithV() {
      Position? || TexCoord? || Normal? || OtherVertexData?
    }
  }

  /**
    The one situation in which the parser writes outside its buffers: a normal line
    addressed to vertex `index` when only `vertexCount` vertices exist.
   */
  datatype ParseError = NormalIndexOutOfBounds(index: nat, vertexCount: nat)

  datatype ParserState = ParserState(
    meshes: seq<Mesh>,
    verts: seq<Vertex>,
    triangles: seq<U32>,
    normalCount: nat,
    lastLineWasFace: bool,
    hasUV: bool,
    hasNorm: bool)

  /** The state before the first line: the caller's mesh list, empty buffers, all flags clear. */
  function Start(meshes: seq<Mesh>): ParserState {
    ParserState(meshes, [], [], 0, false, false, false)
  }

  /** `loadMesh`: moves the vertex and index buffers into a mesh. */
  function LoadMesh(verts: seq<Vertex>, triangles: seq<U32>): Mesh {
    Mesh(verts, triangles)
  }

  /**
    Closing the current mesh at a face-to-vertex boundary. `hasNorm` and
    `normalCount` are deliberately left as they were, as the source does.
   */
  function CloseMesh(s: ParserState): (r: ParserState)
    ensures |r.meshes| == |s.meshes| + 1 && r.meshes[..|s.meshes|] == s.meshes
    ensures r.meshes[|s.meshes|].verts == s.verts && r.meshes[|s.meshes|].triangles == s.triangles
    ensures r.verts == [] && r.triangles == [] && !r.lastLineWasFace && !r.hasUV
    ensures r.hasNorm == s.hasNorm && r.normalCount == s.normalCount
  {
    s.(meshes := s.meshes + [LoadMesh(s.verts, s.triangles)],
       verts := [], triangles := [],
       lastLineWasFace := false, hasUV := false)
  }

  /** What every 'v' line does first: close the mesh if the previous such decision saw a face. */
  function BeginVertexLine(s: ParserState): ParserState {
    if s.lastLineWasFace then CloseMesh(s) else s
  }

  /**
    The distance between position indices in the integers a face grammar scans:
    `a b c`, `a/t b/t ..`, `a//n b//n ..` or `a/t/n b/t/n ..`.
   */
  function Stride(hasUV: bool, hasNorm: bool): (k: nat)
    ensures k == 1 + (if hasUV then 1 else 0) + (if hasNorm then 1 else 0)
    ensures 1 <= k <= 3
  {
    if hasUV && hasNorm then 3 else if hasUV || hasNorm then 2 else 1
  }

  /** The position index of corner `k` (0 to 3); a corner the line does not give stays 0. */
  function Corner(fields: seq<Int32>, stride: nat, k: nat): Int32 {
    if k * stride < |fields| then fields[k * stride] else 0
  }

  /**
    Negative corners count back from the end of the vertex buffer: `c + 1 + count`,
    computed in `size_t` and stored back into an `int32`.
   */
  function Resolve(c: Int32, count: nat): (r: Int32)
    ensures c >= 0 ==> r == c
    ensures c < 0 ==> (r - (c + 1 + count)) % U32_MODULUS == 0
    ensures c < 0 && 0 <= c + 1 + count < I32_LIMIT ==> r == c + 1 + count
  {
    if c < 0 then WrapI32(c + 1 + count) else c
  }

  /** A one-based corner made zero-based and pushed into the `uint32` index buffer. */
  function ZeroBased(c: Int32): U32 {
    WrapU32(c - 1)
  }

  /**
    The indices a face line appends: corners (1,2,3), and, when the resolved fourth
    corner is not zero, the fan triangle (1,3,4).
   */
  function FaceIndices(fields: seq<Int32>, hasUV: bool, hasNorm: bool, count: nat): (r: seq<U32>)
    ensures |r| == 3 || |r| == 6
    ensures forall j :: 0 <= j < 3 && Corner(fields, Stride(hasUV, hasNorm), j) >= 1 ==>
      r[j] == Corner(fields, Stride(hasUV, hasNorm), j) - 1
    ensures |fields| <= 3 * Stride(hasUV, hasNorm) ==> |r| == 3
    ensures Corner(fields, Stride(hasUV, hasNorm), 3) >= 1 ==>
      |r| == 6 && r[5] == Corner(fields, Stride(hasUV, hasNorm), 3) - 1
    ensures |r| == 6 ==> r[3] == r[0] && r[4] == r[2]
  {
    var k := Stride(hasUV, hasNorm);
    var v1 := Resolve(Corner(fields, k, 0), count);
    var v2 := Resolve(Corner(fields, k, 1), count);
    var v3 := Resolve(Corner(fields, k, 2), count);
    var v4 := Resolve(Corner(fields, k, 3), count);
    [ZeroBased(v1), ZeroBased(v2), ZeroBased(v3)]
      + (if v4 != 0 then [ZeroBased(v1), ZeroBased(v3), ZeroBased(v4)] else [])
  }

  /** The effect of one line on the parser state. */
  function Step(s: ParserState, line: Line): (r: Result<ParserState, ParseError>)
    ensures r.Err? <==> line.Normal? && BeginVertexLine(s).normalCount >= |BeginVertexLine(s).verts|
    ensures r.Ok? ==>
      r.value.meshes == s.meshes + (if line.StartsWithV() && s.lastLineWasFace then [Mesh(s.verts, s.triangles)] else [])
    ensures r.Ok? ==> r.value.lastLineWasFace == (line.Face? || (s.lastLineWasFace && !line.StartsWithV()))
    ensures r.Ok? ==> r.value.normalCount == s.normalCount + (if line.Normal? then 1 else 0)
  {
    match line
    case Position(p) =>
      var t := BeginVertexLine(s);
      Ok(t.(verts := t.verts + [Vertex(p, Zero)]))
    case TexCoord =>
      Ok(BeginVertexLine(s).(hasUV := true))
    case Normal(n) =>
      var t := BeginVertexLine(s);
      if t.normalCount < |t.verts| then
        var i := t.normalCount;
        Ok(t.(hasNorm := true,
              verts := t.verts[i := t.verts[i].(normal := n)],
              normalCount := i + 1))
      else
        Err(NormalIndexOutOfBounds(t.normalCount, |t.verts|))
    case OtherVertexData =>
      Ok(BeginVertexLine(s))
    case Face(fields) =>
      Ok(s.(triangles := s.triangles + FaceIndices(fields, s.hasUV, s.hasNorm, |s.verts|),
            lastLineWasFace := true))
    case Blank => Ok(s)
    case Other => Ok(s)
  }

  /** The main loop: every line in order, stopping at the first out-of-bounds normal write. */
  function Run(s: ParserState, lines: seq<Line>): (r: Result<ParserState, ParseError>)
    ensures r.Ok? ==> |s.meshes| <= |r.value.meshes| && r.value.meshes[..|s.meshes|] == s.meshes
    decreases |lines|
  {
    if |lines| == 0 then Ok(s)
    else
      match Step(s, lines[0])
      case Err(e) => Err(e)
      case Ok(t) => Run(t, lines[1..])
  }

  /** After the last line, whatever the buffers hold becomes one more mesh. */
  function Finish(s: ParserState): (r: seq<Mesh>)
    ensures |r| == |s.meshes| + 1 && r[..|s.meshes|] == s.meshes
    ensures r[|s.meshes|].verts == s.verts && r[|s.meshes|].triangles == s.triangles
  {
    s.meshes + [LoadMesh(s.verts, s.triangles)]
  }

  /**
    `loadObj`: appends the meshes of `file` to `meshes`. `None` stands for a file that
    could not be opened, in which case the list is left alone.
   */
  function LoadObj(file: Option<seq<Line>>, meshes: seq<Mesh>): (r: Result<seq<Mesh>, ParseError>)
    ensures file.None? ==> r == Ok(meshes)
    ensures file.Some? && r.Ok? ==> |meshes| < |r.value| && r.value[..|meshes|] == meshes
  {
    match file
    case None => Ok(meshes)
    case Some(lines) =>
      match Run(Start(meshes), lines)
      case Err(e) => Err(e)
      case Ok(s) => Ok(Finish(s))
  }
}
