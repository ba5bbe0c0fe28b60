/** Three-component vectors, used for points, directions and colours
    (src/vec3.rs). Components are reals in place of f64. */
module Vectors {

  /** A value of `Vec3`; `Point3` and `Color` are the same type in the source. */
  datatype Vec3 = Vec3(x: real, y: real, z: real) {

    /** `Index`: component `e[i]`. Any index other than 0, 1 or 2 is out of
        bounds in the source (a panic), so callers must not pass one. */
    function Index(i: nat): real
      requires i < 3
    {
      if i == 0 then x else if i == 1 then y else z
    }
  }

  const Zero := Vec3(0.0, 0.0, 0.0)

  /** A quotient of reals in which a zero divisor reads as 0. f64 division by
      zero yields an infinity or NaN, which the model does not represent. */
  function Quot(a: real, b: real): (q: real)
    ensures b != 0.0 ==> q * b == a
    ensures b == 0.0 ==> q == 0.0
  {
    if b == 0.0 then 0.0 else a / b
  }

  function LengthSquared(v: Vec3): (l: real)
    ensures 0.0 <= l
  {
    v.x * v.x + v.y * v.y + v.z * v.z
  }

  function Neg(v: Vec3): Vec3 {
    Vec3(-v.x, -v.y, -v.z)
  }

  function Add(u: Vec3, v: Vec3): Vec3 {
    Vec3(u.x + v.x, u.y + v.y, u.z + v.z)
  }

  function Sub(u: Vec3, v: Vec3): Vec3 {
    Vec3(u.x - v.x, u.y - v.y, u.z - v.z)
  }

  /** Componentwise product (`Mul for Vec3`), used to attenuate colours. */
  function Mul(u: Vec3, v: Vec3): Vec3 {
    Vec3(u.x * v.x, u.y * v.y, u.z * v.z)
  }

  /** `f64 * Vec3`. */
  function Scale(s: real, v: Vec3): Vec3 {
    Vec3(s * v.x, s * v.y, s * v.z)
  }

  /** `Vec3 * f64`, which the source computes as `rhs * self`. */
  function ScaleRight(v: Vec3, s: real): Vec3 {
    Scale(s, v)
  }

  /** `Vec3 / f64`, which the source computes as `1.0 / rhs * self`. */
  function Div(v: Vec3, s: real): Vec3 {
    Scale(Quot(1.0, s), v)
  }

  function Dot(u: Vec3, v: Vec3): real {
    u.x * v.x + u.y * v.y + u.z * v.z
  }

  function Cross(u: Vec3, v: Vec3): Vec3 {
    Vec3(u.y * v.z - u.z * v.y,
         u.z * v.x - u.x * v.z,
         u.x * v.y - u.y * v.x)
  }

  /** `length`, given the square root the caller computes with. */
  function Length(v: Vec3, sqrt: real -> real): real {
    sqrt(LengthSquared(v))
  }

  /** `unit_vector`: `v / v.length()`. */
  function UnitVector(v: Vec3, sqrt: real -> real): Vec3 {
    Div(v, Length(v, sqrt))
  }

  /** `Neg`: the negation is the additive inverse, and negating twice
      gives back the vector. */
  lemma NegIsInverse(v: Vec3)
    ensures Add(v, Neg(v)) == Zero
    ensures Neg(Neg(v)) == v
  {
  }

  /** `Add` and `Sub` undo each other. */
  lemma AddSubCancel(a: Vec3, b: Vec3)
    ensures Sub(Add(a, b), b) == a && Sub(Add(a, b), a) == b
    ensures Add(Sub(a, b), b) == a
  {
  }

  /** `Sub`: the difference is zero exactly when the operands are equal. */
  lemma SubZeroIffEqual(u: Vec3, v: Vec3)
    ensures Sub(u, v) == Zero <==> u == v
  {
  }

  /** `Mul for Vec3`: white leaves a colour alone, black absorbs it, and
      the product does not depend on the order of the operands. */
  lemma MulIdentities(u: Vec3, v: Vec3)
    ensures Mul(Vec3(1.0, 1.0, 1.0), v) == v && Mul(v, Vec3(1.0, 1.0, 1.0)) == v
    ensures Mul(Zero, v) == Zero && Mul(v, Zero) == Zero
    ensures Mul(u, v) == Mul(v, u)
  {
  }

  /** `f64 * Vec3` and `Vec3 * f64`: one is the identity, zero annihilates,
      the factors of repeated scaling multiply, and the scalar may stand on
      either side. */
  lemma ScaleIdentities(s: real, t: real, v: Vec3)
    ensures Scale(1.0, v) == v
    ensures Scale(0.0, v) == Zero && Scale(s, Zero) == Zero
    ensures Scale(s, Scale(t, v)) == Scale(s * t, v)
    ensures ScaleRight(v, s) == Scale(s, v)
  {
  }

  /** `Vec3 / f64`: scaling the quotient back by a nonzero divisor restores
      the vector; a zero divisor yields zero in this model. */
  lemma DivIsScaleByInverse(v: Vec3, s: real)
    ensures s != 0.0 ==> Div(v, s) == Scale(1.0 / s, v)
    ensures s != 0.0 ==> Scale(s, Div(v, s)) == v
    ensures s == 0.0 ==> Div(v, s) == Zero
  {
  }

  /** `dot`: a vector dotted with itself is its squared length, the zero
      vector is orthogonal to everything, and the order does not matter. */
  lemma DotSelfIsLengthSquared(u: Vec3, v: Vec3)
    ensures Dot(v, v) == LengthSquared(v)
    ensures 0.0 <= Dot(v, v)
    ensures Dot(v, Zero) == 0.0
    ensures Dot(u, v) == Dot(v, u)
  {
  }

  /** `cross`: the product is orthogonal to both operands, swapping them
      negates it, and a vector crossed with itself is zero. */
  lemma CrossOrthogonal(u: Vec3, v: Vec3)
    ensures Dot(u, Cross(u, v)) == 0.0
    ensures Dot(v, Cross(u, v)) == 0.0
    ensures Cross(u, v) == Neg(Cross(v, u))
    ensures Cross(v, v) == Zero
  {
  }

  /** `unit_vector`: scaling the unit vector back by the length restores
      `v`; the zero vector stays zero. */
  lemma UnitVectorRescales(v: Vec3, sqrt: real -> real)
    ensures Length(v, sqrt) != 0.0 ==> Scale(Length(v, sqrt), UnitVector(v, sqrt)) == v
    ensures v == Zero ==> UnitVector(v, sqrt) == Zero
  {
  }

  lemma IndexReadsComponent(v: Vec3)
    ensures v.Index(0) == v.x && v.Index(1) == v.y && v.Index(2) == v.z
    ensures v == Vec3(v.Index(0), v.Index(1), v.Index(2))
  {
  }

  /** A `Vec3` place that the compound-assignment operators and `IndexMut`
      update in place: the three components live in a fixed-size buffer. */
  class MutableVec3 {
    const e: array<real>

    ghost predicate Valid()
      reads this
    {
      e.Length == 3
    }

    /** The vector currently held. */
    function Value(): Vec3
      reads this, e
      requires Valid()
    {
      Vec3(e[0], e[1], e[2])
    }

    constructor (v: Vec3)
      ensures Valid() && fresh(e)
      ensures Value() == v
    {
      var buf := new real[3];
      buf[0], buf[1], buf[2] := v.x, v.y, v.z;
      e := buf;
    }

    /** `self += rhs`: leaves what `Add` returns. */
    method AddAssign(rhs: Vec3)
      requires Valid()
      modifies e
      ensures Valid()
      ensures Value() == Add(old(Value()), rhs)
    {
      e[0] := e[0] + rhs.x;
      e[1] := e[1] + rhs.y;
      e[2] := e[2] + rhs.z;
    }

    /** `self *= rhs`: leaves what scalar `Mul` returns. */
    method MulAssign(rhs: real)
      requires Valid()
      modifies e
      ensures Valid()
      ensures Value() == ScaleRight(old(Value()), rhs)
    {
      e[0] := e[0] * rhs;
      e[1] := e[1] * rhs;
      e[2] := e[2] * rhs;
    }

    /** `self /= rhs`, written in the source as `*self *= 1.0 / rhs`. */
    method DivAssign(rhs: real)
      requires Valid()
      modifies e
      ensures Valid()
      ensures Value() == Div(old(Value()), rhs)
      ensures rhs != 0.0 ==> Value() == Scale(1.0 / rhs, old(Value()))
    {
      MulAssign(Quot(1.0, rhs));
    }

    /** `self[i] = c` through `IndexMut`: component i becomes c, the others
        are unchanged. */
    method IndexMut(i: nat, c: real)
      requires Valid() && i < 3
      modifies e
      ensures Valid()
      ensures Value().Index(i) == c
      ensures forall j :: 0 <= j < 3 && j != i ==> Value().Index(j) == old(Value()).Index(j)
    {
      e[i] := c;
    }
  }
}
