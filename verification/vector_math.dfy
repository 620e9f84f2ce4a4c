/** Small-vector and colour arithmetic of vector_math.h, over exact reals.
    Points and vectors are distinct types, as in the C++ class hierarchy;
    the in-place mutators are modelled as functions returning the new value. */
module VectorMath {

  datatype Vector3 = Vector3(x: real, y: real, z: real)
  datatype Point3 = Point3(x: real, y: real, z: real)
  datatype Color = Color(r: real, g: real, b: real)

  const ZeroVector := Vector3(0.0, 0.0, 0.0)

  function Min(a: real, b: real): real { if a < b then a else b }
  function Max(a: real, b: real): real { if a < b then b else a }

  function Negate(v: Vector3): Vector3 { Vector3(-v.x, -v.y, -v.z) }

  /** Vector3::cross: this := op1 x op2. */
  function Cross(a: Vector3, b: Vector3): (c: Vector3)
    ensures Dot(c, a) == 0.0 && Dot(c, b) == 0.0
  {
    Vector3(a.y * b.z - a.z * b.y, a.z * b.x - a.x * b.z, a.x * b.y - a.y * b.x)
  }

  /** Vector3::dot. */
  function Dot(a: Vector3, b: Vector3): (d: real)
    ensures a == b ==> d >= 0.0
  {
    a.x * b.x + a.y * b.y + a.z * b.z
  }

  /** Vector3::add(v1, v2): this := v1 + v2. */
  function Add(a: Vector3, b: Vector3): (c: Vector3)
    ensures a == ZeroVector ==> c == b
    ensures b == ZeroVector ==> c == a
  {
    Vector3(a.x + b.x, a.y + b.y, a.z + b.z)
  }

  /** Vector3::sub(vector): this -= vector; adding the vector back undoes it. */
  function Sub(a: Vector3, b: Vector3): (c: Vector3)
    ensures Add(c, b) == a
    ensures b == ZeroVector ==> c == a
  {
    Vector3(a.x - b.x, a.y - b.y, a.z - b.z)
  }

  /** Vector3::sub(p1, p2): the vector from p2 to p1. */
  function Difference(p1: Point3, p2: Point3): (v: Vector3)
    ensures PointAdd(p2, v) == p1
  {
    Vector3(p1.x - p2.x, p1.y - p2.y, p1.z - p2.z)
  }

  /** Vector3::scaleAdd(scale, vector): this += scale * vector. The C++
      parameter is a Tuple3, so a point's coordinates may be passed too. */
  function ScaleAdd(v: Vector3, scale: real, w: Vector3): (r: Vector3)
    ensures scale == 0.0 ==> r == v
    ensures scale == 1.0 ==> r == Add(v, w)
  {
    assert scale == 1.0 ==> scale * w.x == w.x && scale * w.y == w.y && scale * w.z == w.z;
    Vector3(v.x + scale * w.x, v.y + scale * w.y, v.z + scale * w.z)
  }

  /** Point3::add(point, vector); the one-argument form is PointAdd(this, vector). */
  function PointAdd(p: Point3, v: Vector3): (q: Point3)
    ensures v == ZeroVector ==> q == p
  {
    Point3(v.x + p.x, v.y + p.y, v.z + p.z)
  }

  /** Point3::sub(point, vector); the one-argument form is PointSub(this, vector). */
  function PointSub(p: Point3, v: Vector3): (q: Point3)
    ensures PointAdd(q, v) == p
  {
    Point3(p.x - v.x, p.y - v.y, p.z - v.z)
  }

  /** Point3::scaleAdd(scale, vector): this += scale * vector. */
  function PointScaleAdd(p: Point3, scale: real, v: Vector3): (q: Point3)
    ensures scale == 0.0 ==> q == p
    ensures scale == 1.0 ==> q == PointAdd(p, v)
  {
    assert scale == 1.0 ==> scale * v.x == v.x && scale * v.y == v.y && scale * v.z == v.z;
    Point3(p.x + scale * v.x, p.y + scale * v.y, p.z + scale * v.z)
  }

  /** One component of Color::clamp: max(min(c, hi), lo). A channel in range
      is kept and one out of range goes to the nearer bound; with the bounds
      reversed, lo wins. */
  function ClampComponent(c: real, lo: real, hi: real): (d: real)
    ensures lo <= c <= hi ==> d == c
    ensures lo <= hi && hi < c ==> d == hi
    ensures lo <= hi && c < lo ==> d == lo
    ensures hi < lo ==> d == lo
  {
    Max(Min(c, hi), lo)
  }

  /** Color::clamp(min, max), applied to each channel. */
  function Clamp(c: Color, lo: real, hi: real): (d: Color)
    ensures lo <= hi ==> lo <= d.r <= hi && lo <= d.g <= hi && lo <= d.b <= hi
    ensures lo <= c.r <= hi ==> d.r == c.r
    ensures lo <= c.g <= hi ==> d.g == c.g
    ensures lo <= c.b <= hi ==> d.b == c.b
    ensures lo <= hi && hi < c.r ==> d.r == hi
    ensures lo <= hi && hi < c.g ==> d.g == hi
    ensures lo <= hi && hi < c.b ==> d.b == hi
    ensures lo <= hi && c.r < lo ==> d.r == lo
    ensures lo <= hi && c.g < lo ==> d.g == lo
    ensures lo <= hi && c.b < lo ==> d.b == lo
    ensures hi < lo ==> d == Color(lo, lo, lo)
  {
    Color(ClampComponent(c.r, lo, hi), ClampComponent(c.g, lo, hi), ClampComponent(c.b, lo, hi))
  }

  /** One channel of Color::toInt: (int)(255.0 * clamp(c, 0, 1) + 0.5); the
      operand is non-negative, so truncation toward zero is the floor. */
  function Channel(c: real): (n: int)
    ensures 0 <= n <= 255
    ensures c >= 1.0 ==> n == 255
    ensures c <= 0.0 ==> n == 0
    ensures 0.0 <= c <= 1.0 ==> 255.0 * c - 0.5 < n as real <= 255.0 * c + 0.5
  {
    (255.0 * Max(Min(c, 1.0), 0.0) + 0.5).Floor
  }

  /** Color::toInt: (iR << 16) | (iG << 8) | (iB << 0). Each channel is below
      256, so the shifted fields do not overlap and the bitwise or is their sum
      (PackingIsSum); the result never reaches the sign bit of a 32-bit int. */
  function ToInt(c: Color): (v: int)
    ensures 0 <= v < 0x100_0000
  {
    Channel(c.r) * 0x1_0000 + Channel(c.g) * 0x100 + Channel(c.b)
  }

  /** The bit-level packing of Color::toInt on 32-bit words equals the
      arithmetic sum ToInt uses, for channels that fit in 8 bits. */
  lemma PackingIsSum(r: bv32, g: bv32, b: bv32)
    requires r < 0x100 && g < 0x100 && b < 0x100
    ensures (r << 16) | (g << 8) | (b << 0) == r * 0x1_0000 + g * 0x100 + b
  {
  }

  lemma {:induction false} MulAtLeast(k: int, d: int)
    requires k >= 1 && d > 0
    ensures k * d >= d
    decreases k
  {
    if k > 1 {
      MulAtLeast(k - 1, d);
      assert k * d == (k - 1) * d + d;
    }
  }

  /** Euclidean division is determined by a quotient and an in-range remainder. */
  lemma DivModOf(x: int, d: int, q: int, r: int)
    requires d > 0 && 0 <= r < d && x == q * d + r
    ensures x / d == q && x % d == r
  {
    var q0, r0 := x / d, x % d;
    assert x == q0 * d + r0;
    assert (q - q0) * d == r0 - r;
    if q - q0 >= 1 {
      MulAtLeast(q - q0, d);
    } else if q0 - q >= 1 {
      assert (q0 - q) * d == r - r0;
      MulAtLeast(q0 - q, d);
    }
  }

  /** The three channels can be read back from the packed value. */
  lemma ToIntChannels(c: Color)
    ensures ToInt(c) / 0x1_0000 % 0x100 == Channel(c.r)
    ensures ToInt(c) / 0x100 % 0x100 == Channel(c.g)
    ensures ToInt(c) % 0x100 == Channel(c.b)
  {
    var r, g, b := Channel(c.r), Channel(c.g), Channel(c.b);
    var v := ToInt(c);
    assert v == r * 0x1_0000 + (g * 0x100 + b);
    DivModOf(v, 0x1_0000, r, g * 0x100 + b);
    DivModOf(r, 0x100, 0, r);
    assert v == (r * 0x100 + g) * 0x100 + b;
    DivModOf(v, 0x100, r * 0x100 + g, b);
    DivModOf(r * 0x100 + g, 0x100, r, g);
  }

  /** Clamping an already clamped colour changes nothing. */
  lemma ClampIdempotent(c: Color, lo: real, hi: real)
    ensures Clamp(Clamp(c, lo, hi), lo, hi) == Clamp(c, lo, hi)
  {
  }

  /** toInt saturates: channels at or above 1 pack as 255, at or below 0 as 0. */
  lemma ToIntSaturates(c: Color)
    requires c.r >= 1.0 && c.g >= 1.0 && c.b >= 1.0
    ensures ToInt(c) == 0xFF_FFFF
    ensures ToInt(Color(-c.r, -c.g, -c.b)) == 0
  {
  }

  /** The cross product of the unit axes follows the right-hand rule:
      x cross y = z, y cross z = x, z cross x = y. */
  lemma CrossBasis()
    ensures Cross(Vector3(1.0, 0.0, 0.0), Vector3(0.0, 1.0, 0.0)) == Vector3(0.0, 0.0, 1.0)
    ensures Cross(Vector3(0.0, 1.0, 0.0), Vector3(0.0, 0.0, 1.0)) == Vector3(1.0, 0.0, 0.0)
    ensures Cross(Vector3(0.0, 0.0, 1.0), Vector3(1.0, 0.0, 0.0)) == Vector3(0.0, 1.0, 0.0)
  {
    CrossXY();
    CrossYZ();
    CrossZX();
  }

  lemma CrossXY()
    ensures Cross(Vector3(1.0, 0.0, 0.0), Vector3(0.0, 1.0, 0.0)) == Vector3(0.0, 0.0, 1.0)
  {
  }

  lemma CrossYZ()
    ensures Cross(Vector3(0.0, 1.0, 0.0), Vector3(0.0, 0.0, 1.0)) == Vector3(1.0, 0.0, 0.0)
  {
  }

  lemma CrossZX()
    ensures Cross(Vector3(0.0, 0.0, 1.0), Vector3(1.0, 0.0, 0.0)) == Vector3(0.0, 1.0, 0.0)
  {
  }

  /** Dot with a unit axis reads off that coordinate of the other operand. */
  lemma DotBasis(v: Vector3)
    ensures Dot(v, Vector3(1.0, 0.0, 0.0)) == v.x
    ensures Dot(v, Vector3(0.0, 1.0, 0.0)) == v.y
    ensures Dot(v, Vector3(0.0, 0.0, 1.0)) == v.z
  {
  }

  /** Lagrange's identity: |a x b|^2 == |a|^2 |b|^2 - (a . b)^2. With the
      orthogonality in Cross's contract it fixes a x b up to its sign. */
  lemma CrossLagrange(a: Vector3, b: Vector3)
    ensures Dot(Cross(a, b), Cross(a, b)) == Dot(a, a) * Dot(b, b) - Dot(a, b) * Dot(a, b)
  {
  }

  lemma CrossSelfIsZero(a: Vector3)
    ensures Cross(a, a) == ZeroVector
  {
  }

  lemma CrossAntiCommutes(a: Vector3, b: Vector3)
    ensures Cross(a, b) == Negate(Cross(b, a))
  {
  }

  lemma DotCommutes(a: Vector3, b: Vector3)
    ensures Dot(a, b) == Dot(b, a)
  {
  }

  /** Vector3::sub(p1, p2) followed by Point3::add(p2, v) gives back p1. */
  lemma DifferenceThenPointAdd(p1: Point3, p2: Point3)
    ensures PointAdd(p2, Difference(p1, p2)) == p1
  {
  }

  /** Point3::add(v) followed by Point3::sub(v) restores the point, and the
      other way round. */
  lemma PointAddSubInverse(p: Point3, v: Vector3)
    ensures PointSub(PointAdd(p, v), v) == p
    ensures PointAdd(PointSub(p, v), v) == p
  {
  }

  /** Vector3::add and Vector3::sub undo each other. */
  lemma AddSubInverse(a: Vector3, b: Vector3)
    ensures Sub(Add(a, b), b) == a
    ensures Add(Sub(a, b), b) == a
  {
  }

  /** scaleAdd by zero changes nothing; scaleAdd by one is add; scaleAdd on a
      point moves it by the scaled vector. */
  lemma ScaleAddFacts(v: Vector3, p: Point3, w: Vector3)
    ensures ScaleAdd(v, 0.0, w) == v
    ensures ScaleAdd(v, 1.0, w) == Add(v, w)
    ensures PointScaleAdd(p, 0.0, w) == p
    ensures PointScaleAdd(p, 1.0, w) == PointAdd(p, w)
  {
  }

  /** scaleAdd by s and then by t is scaleAdd by s + t, for a vector and
      for a point. */
  lemma ScaleAddAccumulates(v: Vector3, p: Point3, s: real, t: real, w: Vector3)
    ensures ScaleAdd(ScaleAdd(v, s, w), t, w) == ScaleAdd(v, s + t, w)
    ensures PointScaleAdd(PointScaleAdd(p, s, w), t, w) == PointScaleAdd(p, s + t, w)
  {
  }
}
