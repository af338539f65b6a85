/** The data model of `src/main.h`: fixed-width integers, 3-vectors, vertices and meshes. */
module MeshTypes {

  const U32_MODULUS: int := 0x1_0000_0000
  const I32_LIMIT: int := 0x8000_0000

  /** `uint32`, the element type of a mesh's triangle index buffer. */
  type U32 = x: int | 0 <= x < 0x1_0000_0000

  /** `int32`, the type the face parser scans corner indices into. */
  type Int32 = x: int | -0x8000_0000 <= x < 0x8000_0000

  /** Conversion of an integer to `uint32`: the value modulo 2^32. */
  function WrapU32(x: int): (r: U32)
    ensures 0 <= x < U32_MODULUS ==> r == x
    ensures (x - r) % U32_MODULUS == 0
  {
    x % U32_MODULUS
  }

  /** Conversion of an integer to `int32`: the two's-complement value with the same low 32 bits. */
  function WrapI32(x: int): (r: Int32)
    ensures -I32_LIMIT <= x < I32_LIMIT ==> r == x
    ensures (x - r) % U32_MODULUS == 0
  {
    var u := x % U32_MODULUS;
    if u < I32_LIMIT then u else u - U32_MODULUS
  }

  /** A `glm::vec3`, over exact reals instead of single-precision floats. */
  datatype Vec3 = Vec3(x: real, y: real, z: real) {

    function Plus(o: Vec3): Vec3 {
      Vec3(x + o.x, y + o.y, z + o.z)
    }

    function Minus(o: Vec3): Vec3 {
      Vec3(x - o.x, y - o.y, z - o.z)
    }

    function DividedBy(d: real): Vec3
      requires d != 0.0
    {
      Vec3(x / d, y / d, z / d)
    }
  }

  const Zero: Vec3 := Vec3(0.0, 0.0, 0.0)

  /** The cross product `glm::cross(a, b)`. */
  function Cross(a: Vec3, b: Vec3): Vec3 {
    Vec3(a.y * b.z - a.z * b.y, a.z * b.x - a.x * b.z, a.x * b.y - a.y * b.x)
  }

  /** The dot product `glm::dot(a, b)`. */
  function Dot(a: Vec3, b: Vec3): real {
    a.x * b.x + a.y * b.y + a.z * b.z
  }

  /** The cross product is orthogonal to both factors, and vanishes for opposite factors. */
  lemma CrossOrthogonal(a: Vec3, b: Vec3)
    ensures Dot(Cross(a, b), a) == 0.0 && Dot(Cross(a, b), b) == 0.0
    ensures b == Zero.Minus(a) ==> Cross(a, b) == Zero
  {
  }

  /** A vertex: its position and its (possibly not yet assigned) normal. */
  datatype Vertex = Vertex(location: Vec3, normal: Vec3)

  /** A mesh: its vertices and the flat list of triangle corner indices into them. */
  datatype Mesh = Mesh(verts: seq<Vertex>, triangles: seq<U32>) {

    /** `Mesh::empty()`: a mesh without vertices, whatever its index buffer holds. */
    predicate Empty() {
      |verts| == 0
    }

    /** Every stored corner index names one of the mesh's vertices. */
    predicate IndicesInRange() {
      forall i :: 0 <= i < |triangles| ==> triangles[i] < |verts|
    }
  }
}
