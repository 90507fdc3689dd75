/** The transform constructors of the renderer and the per-frame world
    transform built from them.

    The source computes cos and sin of an angle inside the rotation
    constructors; here the cosine c and sine s are parameters, so every
    lemma holds for any pair of numbers and the trigonometric identity
    c² + s² = 1 is assumed only where a property needs it.
 */
module Transforms {
  import opened Matrix

  /** `mat4x4_rot_z`: rotation in the x-y plane. */
  function RotZ(c: real, s: real): Mat4
  {
    [c,   -s,  0.0, 0.0,
     s,   c,   0.0, 0.0,
     0.0, 0.0, 1.0, 0.0,
     0.0, 0.0, 0.0, 1.0]
  }

  /** `mat4x4_rot_x`: rotation in the y-z plane. */
  function RotX(c: real, s: real): Mat4
  {
    [1.0, 0.0, 0.0, 0.0,
     0.0, c,   -s,  0.0,
     0.0, s,   c,   0.0,
     0.0, 0.0, 0.0, 1.0]
  }

  /** `mat4x4_translate`: the identity with (x, y, z) in the last column. */
  function Translate(x: real, y: real, z: real): Mat4
  {
    [1.0, 0.0, 0.0, x,
     0.0, 1.0, 0.0, y,
     0.0, 0.0, 1.0, z,
     0.0, 0.0, 0.0, 1.0]
  }

  /** `perspective(n, f)`: the code's coefficients a = -f/(f-n) and
      b = -f·n/(f-n) in row 2, and -1 in entry (3, 2) so that clip w = -z.
      The division is defined only when the planes differ. */
  function Perspective(n: real, f: real): Mat4
    requires n != f
  {
    var a := -f / (f - n);
    var b := -f * n / (f - n);
    [1.0, 0.0, 0.0,  0.0,
     0.0, 1.0, 0.0,  0.0,
     0.0, 0.0, a,    b,
     0.0, 0.0, -1.0, 0.0]
  }

  /** The world transform of one frame: translate by (0, 1, 0), rotate about
      x, then translate by (0, 0, -5); c and s are the cosine and sine of the
      frame's angle. */
  function WorldTransform(c: real, s: real): Mat4
  {
    Mul(Translate(0.0, 0.0, -5.0), Mul(RotX(c, s), Translate(0.0, 1.0, 0.0)))
  }

  /** The projection of every frame: near plane 0.1, far plane 10. */
  function FrameProjection(): Mat4
  {
    Perspective(0.1, 10.0)
  }

  /** Depth after the perspective divide: clip z over clip w for a view-space
      point at depth z (x and y do not affect it). */
  function ClipDepth(n: real, f: real, z: real): real
    requires n != f && z != 0.0
  {
    var clip := Apply(Perspective(n, f), Point(0.0, 0.0, z));
    clip[2] / clip[3]
  }

  lemma TranslateMovesPoint(tx: real, ty: real, tz: real, x: real, y: real, z: real)
    ensures Apply(Translate(tx, ty, tz), Point(x, y, z)) == Point(x + tx, y + ty, z + tz)
  {
  }

  /** Two translations compose by adding their offsets. */
  lemma TranslateCompose(x1: real, y1: real, z1: real, x2: real, y2: real, z2: real)
    ensures Mul(Translate(x1, y1, z1), Translate(x2, y2, z2)) == Translate(x1 + x2, y1 + y2, z1 + z2)
  {
    MulExpand(Translate(x1, y1, z1), Translate(x2, y2, z2));
  }

  /** Translating back by the negated offset undoes a translation. */
  lemma TranslateInverse(x: real, y: real, z: real)
    ensures Mul(Translate(x, y, z), Translate(-x, -y, -z)) == Identity
  {
    TranslateCompose(x, y, z, -x, -y, -z);
    assert Translate(0.0, 0.0, 0.0) == Identity;
  }

  /** Rotation about x fixes every vector on the x axis, whatever its w. */
  lemma RotXFixesXAxis(c: real, s: real, w: real)
    ensures Apply(RotX(c, s), [1.0, 0.0, 0.0, w]) == [1.0, 0.0, 0.0, w]
  {
  }

  lemma RotXMapsYAxis(c: real, s: real)
    ensures Apply(RotX(c, s), Point(0.0, 1.0, 0.0)) == Point(0.0, c, s)
  {
  }

  lemma RotZMapsXAxis(c: real, s: real)
    ensures Apply(RotZ(c, s), Point(1.0, 0.0, 0.0)) == Point(c, s, 0.0)
  {
  }

  /** Rotation about x sends (x, y, z) to (x, c·y - s·z, s·y + c·z). */
  lemma RotXMapsPoint(c: real, s: real, x: real, y: real, z: real)
    ensures Apply(RotX(c, s), Point(x, y, z)) == Point(x, c * y - s * z, s * y + c * z)
  {
    var p := Apply(RotX(c, s), Point(x, y, z));
    assert p[0] == x;
    assert p[1] == c * y - s * z;
    assert p[2] == s * y + c * z;
    assert p[3] == 1.0;
  }

  /** Rotation about z sends (x, y, z) to (c·x - s·y, s·x + c·y, z). */
  lemma RotZMapsPoint(c: real, s: real, x: real, y: real, z: real)
    ensures Apply(RotZ(c, s), Point(x, y, z)) == Point(c * x - s * y, s * x + c * y, z)
  {
    var p := Apply(RotZ(c, s), Point(x, y, z));
    assert p[0] == c * x - s * y;
    assert p[1] == s * x + c * y;
    assert p[2] == z;
    assert p[3] == 1.0;
  }

  /** Neither rotation changes the w component of any vector. */
  lemma RotationsKeepW(c: real, s: real, v: Vec4)
    ensures Apply(RotX(c, s), v)[3] == v[3]
    ensures Apply(RotZ(c, s), v)[3] == v[3]
  {
    assert Row(RotX(c, s), 3) == [0.0, 0.0, 0.0, 1.0];
    assert Row(RotZ(c, s), 3) == [0.0, 0.0, 0.0, 1.0];
  }

  /** A plane rotation by (c, s) with c² + s² = 1 keeps u² + v². */
  lemma PlaneRotationKeepsLength(c: real, s: real, u: real, v: real)
    requires c * c + s * s == 1.0
    ensures (c * u - s * v) * (c * u - s * v) + (s * u + c * v) * (s * u + c * v) == u * u + v * v
  {
    assert (c * u - s * v) * (c * u - s * v) + (s * u + c * v) * (s * u + c * v)
        == (c * c + s * s) * (u * u + v * v);
  }

  /** For a genuine rotation (c² + s² = 1) the squared length of x, y, z is kept. */
  lemma RotationsKeepLength(c: real, s: real, x: real, y: real, z: real)
    requires c * c + s * s == 1.0
    ensures var p := Apply(RotX(c, s), Point(x, y, z));
            p[0] * p[0] + p[1] * p[1] + p[2] * p[2] == x * x + y * y + z * z
    ensures var p := Apply(RotZ(c, s), Point(x, y, z));
            p[0] * p[0] + p[1] * p[1] + p[2] * p[2] == x * x + y * y + z * z
  {
    RotXMapsPoint(c, s, x, y, z);
    RotZMapsPoint(c, s, x, y, z);
    PlaneRotationKeepsLength(c, s, y, z);
    PlaneRotationKeepsLength(c, s, x, y);
  }

  /** Rotating by the opposite angle (cosine c, sine -s) undoes a rotation about x. */
  lemma RotXInverse(c: real, s: real)
    requires c * c + s * s == 1.0
    ensures Mul(RotX(c, s), RotX(c, -s)) == Identity
  {
    var a, b := RotX(c, s), RotX(c, -s);
    assert ProductEntry(a, b, 1, 1) == c * c + s * s;
    assert ProductEntry(a, b, 1, 2) == c * s - s * c;
    assert ProductEntry(a, b, 2, 1) == s * c - c * s;
    assert ProductEntry(a, b, 2, 2) == s * s + c * c;
    MulExpand(a, b);
  }

  /** Rotating by the opposite angle (cosine c, sine -s) undoes a rotation about z. */
  lemma RotZInverse(c: real, s: real)
    requires c * c + s * s == 1.0
    ensures Mul(RotZ(c, s), RotZ(c, -s)) == Identity
  {
    var a, b := RotZ(c, s), RotZ(c, -s);
    assert ProductEntry(a, b, 0, 0) == c * c + s * s;
    assert ProductEntry(a, b, 0, 1) == c * s - s * c;
    assert ProductEntry(a, b, 1, 0) == s * c - c * s;
    assert ProductEntry(a, b, 1, 1) == s * s + c * c;
    MulExpand(a, b);
  }

  /** Where the world transform sends a model-space point: lifted by one,
      rotated about x, pushed five units away from the camera. */
  lemma WorldTransformPoint(c: real, s: real, x: real, y: real, z: real)
    ensures Apply(WorldTransform(c, s), Point(x, y, z))
         == Point(x, c * (y + 1.0) - s * z, s * (y + 1.0) + c * z - 5.0)
  {
    var lift, rot, push := Translate(0.0, 1.0, 0.0), RotX(c, s), Translate(0.0, 0.0, -5.0);
    var p := Point(x, y, z);
    var lifted := Apply(lift, p);
    assert lifted[0] == x && lifted[1] == y + 1.0 && lifted[2] == z && lifted[3] == 1.0;
    var turned := Apply(rot, lifted);
    assert turned[0] == x;
    assert turned[1] == c * (y + 1.0) - s * z;
    assert turned[2] == s * (y + 1.0) + c * z;
    assert turned[3] == 1.0;
    var pushed := Apply(push, turned);
    assert pushed[0] == x;
    assert pushed[1] == c * (y + 1.0) - s * z;
    assert pushed[2] == s * (y + 1.0) + c * z - 5.0;
    assert pushed[3] == 1.0;
    VectorsEqual(pushed, Point(x, c * (y + 1.0) - s * z, s * (y + 1.0) + c * z - 5.0));
    ApplyMul3(push, rot, lift, p);
  }

  /** The model origin lands at (0, c, s - 5). */
  lemma WorldTransformOrigin(c: real, s: real)
    ensures Apply(WorldTransform(c, s), Point(0.0, 0.0, 0.0)) == Point(0.0, c, s - 5.0)
  {
    var lift, rot, push := Translate(0.0, 1.0, 0.0), RotX(c, s), Translate(0.0, 0.0, -5.0);
    var p := Point(0.0, 0.0, 0.0);
    var lifted := Apply(lift, p);
    assert lifted[0] == 0.0 && lifted[1] == 1.0 && lifted[2] == 0.0 && lifted[3] == 1.0;
    var turned := Apply(rot, lifted);
    assert turned[0] == 0.0 && turned[1] == c && turned[2] == s && turned[3] == 1.0;
    var pushed := Apply(push, turned);
    assert pushed[0] == 0.0 && pushed[1] == c && pushed[2] == s - 5.0 && pushed[3] == 1.0;
    VectorsEqual(pushed, Point(0.0, c, s - 5.0));
    ApplyMul3(push, rot, lift, p);
  }

  /** Clearing a nonzero denominator: u·d = v exactly when u = v / d. */
  lemma DivideOut(u: real, v: real, d: real)
    requires d != 0.0
    ensures u * d == v <==> u == v / d
  {
  }

  /** The projection passes x and y through, sets clip w to -z, and sets clip z
      to -f·(z + n)/(f - n). */
  lemma PerspectiveClip(n: real, f: real, x: real, y: real, z: real)
    requires n != f
    ensures Apply(Perspective(n, f), Point(x, y, z)) == [x, y, -f * (z + n) / (f - n), -z]
  {
    var d := f - n;
    var a, b := -f / d, -f * n / d;
    var clip := Apply(Perspective(n, f), Point(x, y, z));
    assert clip[0] == x;
    assert clip[1] == y;
    assert clip[2] == a * z + b;
    assert clip[3] == -z;
    DivideOut(a, -f, d);
    DivideOut(b, -f * n, d);
    assert (a * z + b) * d == a * d * z + b * d;
    DivideOut(a * z + b, -f * (z + n), d);
  }

  /** Depth times the factor -z·(f - n) is -f·(z + n): the divide written
      without division (the factor is positive when z < 0 and n < f). */
  lemma ClipDepthTimes(n: real, f: real, z: real)
    requires n != f && z != 0.0
    ensures ClipDepth(n, f, z) * -z * (f - n) == -f * (z + n)
  {
    PerspectiveClip(n, f, 0.0, 0.0, z);
    var c2 := -f * (z + n) / (f - n);
    DivideOut(c2, -f * (z + n), f - n);
    DivideOut(ClipDepth(n, f, z), c2, -z);
  }

  /** The near plane z = -n maps to depth 0. */
  lemma PerspectiveNearPlane(n: real, f: real)
    requires 0.0 < n < f
    ensures ClipDepth(n, f, -n) == 0.0
  {
    var near := Apply(Perspective(n, f), Point(0.0, 0.0, -n));
    PerspectiveClip(n, f, 0.0, 0.0, -n);
    assert near[2] == -f * (-n + n) / (f - n);
    assert near[2] == 0.0;
  }

  /** The far plane z = -f maps to depth 1. */
  lemma PerspectiveFarPlane(n: real, f: real)
    requires 0.0 < n < f
    ensures ClipDepth(n, f, -f) == 1.0
  {
    var far := Apply(Perspective(n, f), Point(0.0, 0.0, -f));
    PerspectiveClip(n, f, 0.0, 0.0, -f);
    assert far[2] == -f * (-f + n) / (f - n);
    assert f * (f - n) == -f * (-f + n);
    DivideOut(f, -f * (-f + n), f - n);
    assert far[2] == f && far[3] == f;
    DivideOut(1.0, f, f);
  }

  /** Dividing by a positive number keeps the sign and the bound 1. */
  lemma PositiveFactor(u: real, p: real)
    requires p > 0.0 && 0.0 <= u * p <= p
    ensures 0.0 <= u <= 1.0
  {
  }

  /** Every point between the planes gets a depth in [0, 1]. */
  lemma PerspectiveDepthRange(n: real, f: real, z: real)
    requires 0.0 < n < f && -f <= z <= -n
    ensures 0.0 <= ClipDepth(n, f, z) <= 1.0
  {
    ClipDepthTimes(n, f, z);
    var depth, p := ClipDepth(n, f, z), -z * (f - n);
    assert p > 0.0;
    assert depth * p == -f * (z + n);
    assert -f * (z + n) >= 0.0;
    assert -f * (z + n) <= p by {
      assert p - -f * (z + n) == n * (f + z);
    }
    PositiveFactor(depth, p);
  }

  /** The derivation in the comment above `perspective` ends with a = f/(f-n).
      With the code's clip w = -z, a projection built with that coefficient
      sends the near plane z = -n to depth -2f/(f-n), not 0, while the
      code's a = -f/(f-n) sends it to 0. (Under the comment's own
      convention, near plane at z = +n with w = +n, its a would be right.) */
  lemma DerivedSignMissesNear(n: real, f: real)
    requires 0.0 < n < f
    ensures var clip := Apply(Perspective(n, f)[10 := f / (f - n)], Point(0.0, 0.0, -n));
            clip[2] / clip[3] == -2.0 * f / (f - n) != 0.0
    ensures ClipDepth(n, f, -n) == 0.0
  {
    var d := f - n;
    var a, b := f / d, -f * n / d;
    var clip := Apply(Perspective(n, f)[10 := a], Point(0.0, 0.0, -n));
    assert clip[2] == a * -n + b;
    assert clip[3] == n;
    DivideOut(a, f, d);
    DivideOut(b, -f * n, d);
    assert (a * -n + b) * d == -2.0 * f * n;
    DivideOut(a * -n + b, -2.0 * f * n, d);
    var q := -2.0 * f / d;
    DivideOut(q, -2.0 * f, d);
    assert q * n * d == -2.0 * f * n;
    DivideOut(q * n, -2.0 * f * n, d);
    DivideOut(q, a * -n + b, n);
    assert q < 0.0;
    PerspectiveNearPlane(n, f);
  }

  /** The frame's projection puts the near plane 0.1 units away at depth 0
      and the far plane 10 units away at depth 1 (clip z equal to clip w). */
  lemma FrameProjectionPlanes()
    ensures Apply(FrameProjection(), Point(0.0, 0.0, -0.1))[2] == 0.0
    ensures var far := Apply(FrameProjection(), Point(0.0, 0.0, -10.0));
            far[2] == far[3] == 10.0
  {
    PerspectiveClip(0.1, 10.0, 0.0, 0.0, -0.1);
    PerspectiveClip(0.1, 10.0, 0.0, 0.0, -10.0);
  }
}
