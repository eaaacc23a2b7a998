/** Integer and real vectors, the 3D cross product and 4x4 matrices, as plain
    mathematics. The renderer's own vector and matrix library is not part of this
    model; only what the rasteriser needs of it is stated here. */
module Geometry {

  /** An integer pixel position (Vec2i). */
  datatype Vec2i = Vec2i(x: int, y: int)

  /** An integer screen-space vertex (Vec3i): pixel position and depth. */
  datatype Vec3i = Vec3i(x: int, y: int, z: int)

  /** A real 3-vector (Vec3f): barycentric weights, basis vectors, points. */
  datatype Vec3r = Vec3r(x: real, y: real, z: real)

  function Abs(n: int): (r: nat)
    ensures r == n || r == -n
  {
    if n < 0 then -n else n
  }

  /** The sign of d*e for positive d. */
  lemma MulSign(d: int, e: int)
    requires 0 < d
    ensures e >= 1 ==> d * e >= d
    ensures e <= 0 ==> d * e <= 0
  {
    if e >= 1 {
      assert d * e == d + d * (e - 1);
    }
  }

  function Max(a: int, b: int): (r: int)
    ensures r >= a && r >= b && (r == a || r == b)
  {
    if a < b then b else a
  }

  function Min(a: int, b: int): (r: int)
    ensures r <= a && r <= b && (r == a || r == b)
  {
    if a < b then a else b
  }

  /** Component j (0 = x, 1 = y) of a pixel position, as `v[j]`. */
  function Coord(v: Vec2i, j: int): int
    requires 0 <= j < 2
  {
    if j == 0 then v.x else v.y
  }

  /** The position `v` with component j replaced by `value`, as `v[j] = value`. */
  function WithCoord(v: Vec2i, j: int, value: int): (r: Vec2i)
    requires 0 <= j < 2
    ensures Coord(r, j) == value && Coord(r, 1 - j) == Coord(v, 1 - j)
  {
    if j == 0 then v.(x := value) else v.(y := value)
  }

  /** Component i of a real vector, as `bc[i]`. */
  function Component(v: Vec3r, i: int): real
    requires 0 <= i < 3
  {
    if i == 0 then v.x else if i == 1 then v.y else v.z
  }

  /** The screen position of a vertex (its x and y). */
  function XY(v: Vec3i): Vec2i
  {
    Vec2i(v.x, v.y)
  }

  /** The screen positions of a triangle's corners. */
  function Flat(t: seq<Vec3i>): (r: seq<Vec2i>)
    ensures |r| == |t|
    ensures forall i :: 0 <= i < |t| ==> r[i] == XY(t[i])
  {
    seq(|t|, i requires 0 <= i < |t| => XY(t[i]))
  }

  /** The 3D cross product of integer vectors (`cross(a, b)`, `a ^ b`). */
  function Cross(a: Vec3i, b: Vec3i): Vec3i
  {
    Vec3i(a.y * b.z - a.z * b.y, a.z * b.x - a.x * b.z, a.x * b.y - a.y * b.x)
  }

  /** The cross product is orthogonal to both of its factors. */
  lemma CrossOrthogonal(a: Vec3i, b: Vec3i)
    ensures var c := Cross(a, b);
      c.x * a.x + c.y * a.y + c.z * a.z == 0 && c.x * b.x + c.y * b.y + c.z * b.z == 0
  {
    var c := Cross(a, b);
    calc {
      c.x * a.x + c.y * a.y + c.z * a.z;
      (a.y * b.z - a.z * b.y) * a.x + (a.z * b.x - a.x * b.z) * a.y + (a.x * b.y - a.y * b.x) * a.z;
      a.x * a.y * b.z - a.x * a.z * b.y + a.y * a.z * b.x - a.x * a.y * b.z + a.x * a.z * b.y - a.y * a.z * b.x;
      0;
    }
    calc {
      c.x * b.x + c.y * b.y + c.z * b.z;
      (a.y * b.z - a.z * b.y) * b.x + (a.z * b.x - a.x * b.z) * b.y + (a.x * b.y - a.y * b.x) * b.z;
      a.y * b.x * b.z - a.z * b.x * b.y + a.z * b.x * b.y - a.x * b.y * b.z + a.x * b.y * b.z - a.y * b.x * b.z;
      0;
    }
  }

  /** Twice the signed area of the triangle a, b, c. */
  function Area2(a: Vec2i, b: Vec2i, c: Vec2i): int
  {
    (b.x - a.x) * (c.y - a.y) - (c.x - a.x) * (b.y - a.y)
  }

  /** A 4x4 real matrix, row-major: m[i][j] is row i, column j. */
  type Mat = seq<seq<real>>

  ghost predicate IsMat4(m: Mat)
  {
    |m| == 4 && forall i :: 0 <= i < 4 ==> |m[i]| == 4
  }

  /** The 4x4 identity (`Matrix::identity(4)`). */
  function Identity4(): (m: Mat)
    ensures IsMat4(m)
    ensures forall i, j :: 0 <= i < 4 && 0 <= j < 4 ==> m[i][j] == if i == j then 1.0 else 0.0
  {
    [[1.0, 0.0, 0.0, 0.0], [0.0, 1.0, 0.0, 0.0], [0.0, 0.0, 1.0, 0.0], [0.0, 0.0, 0.0, 1.0]]
  }

  /** The matrix `m` with entry (i, j) replaced by `v`, as `m[i][j] = v`. */
  function SetEntry(m: Mat, i: int, j: int, v: real): (r: Mat)
    requires IsMat4(m) && 0 <= i < 4 && 0 <= j < 4
    ensures IsMat4(r)
    ensures r[i][j] == v
    ensures forall a, b :: 0 <= a < 4 && 0 <= b < 4 && (a != i || b != j) ==> r[a][b] == m[a][b]
  {
    m[i := m[i][j := v]]
  }

  /** The product of a 4x4 matrix with a homogeneous 4-vector. */
  function MulVec(m: Mat, v: seq<real>): (r: seq<real>)
    requires IsMat4(m) && |v| == 4
    ensures |r| == 4
  {
    seq(4, i requires 0 <= i < 4 => m[i][0] * v[0] + m[i][1] * v[1] + m[i][2] * v[2] + m[i][3] * v[3])
  }
}
