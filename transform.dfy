/** The three 4x4 matrix builders of the transform pipeline: viewport, projection
    and the entry layout of look-at. Each builds its matrix the way the renderer
    does, starting from the identity and assigning entries one at a time, and is
    proved equal to the matrix written out in full; lemmas then say what each
    matrix does to a homogeneous point. */
module Transform {
  import opened Geometry

  /** The viewport matrix, written out: scale by (w/2, h/2, depth/2) and move the
      centre of the [-1,1] cube to (x + w/2, y + h/2, depth/2). */
  function ViewportMatrix(x: int, y: int, w: int, h: int, depth: int): (m: Mat)
    ensures IsMat4(m)
  {
    var hw, hh, hd := w as real / 2.0, h as real / 2.0, depth as real / 2.0;
    [[hw, 0.0, 0.0, x as real + hw],
     [0.0, hh, 0.0, y as real + hh],
     [0.0, 0.0, hd, hd],
     [0.0, 0.0, 0.0, 1.0]]
  }

  /** The projection matrix, written out: the identity with coefficient c at row 3,
      column 2. */
  function ProjectionMatrix(c: real): (m: Mat)
    ensures IsMat4(m)
  {
    [[1.0, 0.0, 0.0, 0.0],
     [0.0, 1.0, 0.0, 0.0],
     [0.0, 0.0, 1.0, 0.0],
     [0.0, 0.0, c, 1.0]]
  }

  /** The look-at layout, written out: basis vectors as rows 0-2 of the upper 3x3
      block, -center as column 3, and (0, 0, 0, 1) as row 3. */
  function LookAtMatrix(xb: Vec3r, yb: Vec3r, zb: Vec3r, center: Vec3r): (m: Mat)
    ensures IsMat4(m)
  {
    [[xb.x, xb.y, xb.z, -center.x],
     [yb.x, yb.y, yb.z, -center.y],
     [zb.x, zb.y, zb.z, -center.z],
     [0.0, 0.0, 0.0, 1.0]]
  }

  /** The homogeneous point (a, b, c, 1). */
  function Point(a: real, b: real, c: real): seq<real>
  {
    [a, b, c, 1.0]
  }

  function Dot(u: Vec3r, a: real, b: real, c: real): real
  {
    u.x * a + u.y * b + u.z * c
  }

  /** `viewport(x, y, w, h, depth)`: identity, then column 3, then the diagonal. */
  method BuildViewport(x: int, y: int, w: int, h: int, depth: int) returns (m: Mat)
    ensures m == ViewportMatrix(x, y, w, h, depth)
  {
    m := Identity4();
    m := SetEntry(m, 0, 3, x as real + w as real / 2.0);
    m := SetEntry(m, 1, 3, y as real + h as real / 2.0);
    m := SetEntry(m, 2, 3, depth as real / 2.0);
    m := SetEntry(m, 0, 0, w as real / 2.0);
    m := SetEntry(m, 1, 1, h as real / 2.0);
    m := SetEntry(m, 2, 2, depth as real / 2.0);
    EqualEntries(m, ViewportMatrix(x, y, w, h, depth));
  }

  /** `projection(coeff)`: identity, then entry (3, 2). */
  method BuildProjection(c: real) returns (m: Mat)
    ensures m == ProjectionMatrix(c)
  {
    m := Identity4();
    m := SetEntry(m, 3, 2, c);
    EqualEntries(m, ProjectionMatrix(c));
  }

  /** The entries of the look-at matrix once the loop has run for columns 0..i-1. */
  ghost predicate LookAtAfter(m: Mat, xb: Vec3r, yb: Vec3r, zb: Vec3r, center: Vec3r, i: int)
    requires 0 <= i <= 3
  {
    var full := LookAtMatrix(xb, yb, zb, center);
    IsMat4(m) &&
    forall r, c :: 0 <= r < 4 && 0 <= c < 4 ==>
      m[r][c] == if (r < 3 && c < i) || (c == 3 && r < i) then full[r][c] else if r == c then 1.0 else 0.0
  }

  /** The layout part of `lookat`: identity, then for i = 0, 1, 2 the basis
      components of column i and entry i of column 3. */
  method BuildLookAt(xb: Vec3r, yb: Vec3r, zb: Vec3r, center: Vec3r) returns (res: Mat)
    ensures res == LookAtMatrix(xb, yb, zb, center)
  {
    res := Identity4();
    var i := 0;
    while i < 3
      invariant 0 <= i <= 3
      invariant LookAtAfter(res, xb, yb, zb, center, i)
    {
      res := SetEntry(res, 0, i, Component(xb, i));
      res := SetEntry(res, 1, i, Component(yb, i));
      res := SetEntry(res, 2, i, Component(zb, i));
      res := SetEntry(res, i, 3, -Component(center, i));
      i := i + 1;
    }
    EqualEntries(res, LookAtMatrix(xb, yb, zb, center));
  }

  /** Two 4x4 matrices with the same entries are the same matrix. */
  lemma EqualEntries(m: Mat, n: Mat)
    requires IsMat4(m) && IsMat4(n)
    requires forall i, j :: 0 <= i < 4 && 0 <= j < 4 ==> m[i][j] == n[i][j]
    ensures m == n
  {
    forall i | 0 <= i < 4
      ensures m[i] == n[i]
    {
    }
  }

  /** The viewport maps the point (a, b, c) of the canonical cube to
      (x + w(a+1)/2, y + h(b+1)/2, depth(c+1)/2). */
  lemma ViewportMaps(x: int, y: int, w: int, h: int, depth: int, a: real, b: real, c: real)
    ensures MulVec(ViewportMatrix(x, y, w, h, depth), Point(a, b, c)) ==
      Point(x as real + w as real * (a + 1.0) / 2.0, y as real + h as real * (b + 1.0) / 2.0,
            depth as real * (c + 1.0) / 2.0)
  {
    var m := ViewportMatrix(x, y, w, h, depth);
    var r := MulVec(m, Point(a, b, c));
    assert r[0] == w as real / 2.0 * a + (x as real + w as real / 2.0);
    assert r[1] == h as real / 2.0 * b + (y as real + h as real / 2.0);
    assert r[2] == depth as real / 2.0 * c + depth as real / 2.0;
    assert r[3] == 1.0;
  }

  /** The corners of the canonical cube: (-1, -1, -1) goes to (x, y, 0) and (1, 1, 1)
      to (x + w, y + h, depth). */
  lemma ViewportCorners(x: int, y: int, w: int, h: int, depth: int)
    ensures MulVec(ViewportMatrix(x, y, w, h, depth), Point(-1.0, -1.0, -1.0)) ==
      Point(x as real, y as real, 0.0)
    ensures MulVec(ViewportMatrix(x, y, w, h, depth), Point(1.0, 1.0, 1.0)) ==
      Point((x + w) as real, (y + h) as real, depth as real)
  {
    ViewportMaps(x, y, w, h, depth, -1.0, -1.0, -1.0);
    ViewportMaps(x, y, w, h, depth, 1.0, 1.0, 1.0);
  }

  /** Projection differs from the identity only at (3, 2), and `projection(0)` is
      the identity. */
  lemma ProjectionShape(c: real)
    ensures forall i, j :: 0 <= i < 4 && 0 <= j < 4 && (i != 3 || j != 2) ==>
      ProjectionMatrix(c)[i][j] == Identity4()[i][j]
    ensures ProjectionMatrix(c)[3][2] == c
    ensures ProjectionMatrix(0.0) == Identity4()
  {
  }

  /** Projection keeps x, y and z and puts c*z + 1 in the homogeneous coordinate,
      whose divide then gives the perspective foreshortening. */
  lemma ProjectionMaps(c: real, a: real, b: real, z: real)
    ensures MulVec(ProjectionMatrix(c), Point(a, b, z)) == [a, b, z, c * z + 1.0]
  {
    var r := MulVec(ProjectionMatrix(c), Point(a, b, z));
    assert r[0] == a && r[1] == b && r[2] == z && r[3] == c * z + 1.0;
  }

  /** Look-at takes p to its coordinates in the given basis, each then shifted by
      minus the matching component of center: the shift is applied after the
      change of basis, not before it. */
  lemma LookAtMaps(xb: Vec3r, yb: Vec3r, zb: Vec3r, center: Vec3r, a: real, b: real, c: real)
    ensures MulVec(LookAtMatrix(xb, yb, zb, center), Point(a, b, c)) ==
      Point(Dot(xb, a, b, c) - center.x, Dot(yb, a, b, c) - center.y, Dot(zb, a, b, c) - center.z)
  {
    var r := MulVec(LookAtMatrix(xb, yb, zb, center), Point(a, b, c));
    assert r[0] == Dot(xb, a, b, c) - center.x;
    assert r[1] == Dot(yb, a, b, c) - center.y;
    assert r[2] == Dot(zb, a, b, c) - center.z;
    assert r[3] == 1.0;
  }

  /** With the standard basis, look-at is the translation by -center. */
  lemma LookAtStandardBasis(center: Vec3r, a: real, b: real, c: real)
    ensures MulVec(LookAtMatrix(Vec3r(1.0, 0.0, 0.0), Vec3r(0.0, 1.0, 0.0), Vec3r(0.0, 0.0, 1.0), center), Point(a, b, c)) ==
      Point(a - center.x, b - center.y, c - center.z)
  {
    LookAtMaps(Vec3r(1.0, 0.0, 0.0), Vec3r(0.0, 1.0, 0.0), Vec3r(0.0, 0.0, 1.0), center, a, b, c);
  }
}
