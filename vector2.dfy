/**
  The `Vector2` helpers: values of two-dimensional vectors, the mutable
  `{x, y}` objects that the helpers update in place, and the pure queries
  on them.  Numbers are modelled as reals.
 */
module Vector2 {

  /** The value held by a `{x, y}` object. */
  datatype Vec = Vec(x: real, y: real)

  const Zero: Vec := Vec(0.0, 0.0)

  function Add(a: Vec, b: Vec): Vec { Vec(a.x + b.x, a.y + b.y) }

  function Sub(a: Vec, b: Vec): Vec { Vec(a.x - b.x, a.y - b.y) }

  function Scale(a: Vec, s: real): Vec { Vec(a.x * s, a.y * s) }

  function Neg(a: Vec): Vec { Vec(-a.x, -a.y) }

  /** `out + arg * scalar`, the value `addVecMultiplyByScalar` leaves in `out`. */
  function AddScaled(out: Vec, arg: Vec, scalar: real): Vec { Add(out, Scale(arg, scalar)) }

  /** `isZero`: both coordinates are exactly zero. */
  predicate IsZero(v: Vec) { v.x == 0.0 && v.y == 0.0 }

  /** The dot product; `moduleSquare(v)` is `Dot(v, v)`. */
  function Dot(a: Vec, b: Vec): real { a.x * b.x + a.y * b.y }

  /** `moduleSquare`: the squared Euclidean length, never negative and zero only for the zero vector. */
  function ModuleSquare(v: Vec): (r: real)
    ensures !(r < 0.0)
    ensures !IsZero(v) ==> r > 0.0
    ensures IsZero(v) ==> r == 0.0
  {
    DotSelf(v, v);
    Dot(v, v)
  }

  /** `sqrt` applied at `m`; the quantifier in `IsSqrt` fires only on this term. */
  function RootAt(sqrt: real -> real, m: real): real { sqrt(m) }

  /** `Math.sqrt` is not available in Dafny; the model receives it as a parameter with this property. */
  ghost predicate IsSqrt(sqrt: real -> real)
  {
    forall m :: !(m < 0.0) ==> !(RootAt(sqrt, m) < 0.0) && RootAt(sqrt, m) * RootAt(sqrt, m) == m
  }

  /** The sign of a square root follows the sign of its argument. */
  lemma {:induction false} SqrtSign(sqrt: real -> real, m: real)
    requires IsSqrt(sqrt) && !(m < 0.0)
    ensures !(RootAt(sqrt, m) < 0.0)
    ensures m > 0.0 ==> RootAt(sqrt, m) > 0.0
    ensures m == 0.0 ==> RootAt(sqrt, m) == 0.0
  {
    var r := RootAt(sqrt, m);
    RootSign(r, r, m);
  }

  /** The root `r` of a non-negative `m`, squared, gives `m` back. */
  lemma {:induction false} SqrtSquared(sqrt: real -> real, m: real, r: real)
    requires IsSqrt(sqrt) && !(m < 0.0) && r == RootAt(sqrt, m)
    ensures r * r == m
  {
  }

  /** `module`: the Euclidean length `Math.sqrt(moduleSquare(v))`. */
  function Module(v: Vec, sqrt: real -> real): real
  {
    RootAt(sqrt, ModuleSquare(v))
  }

  /** `module(v)` is never negative. */
  lemma ModuleNonNegative(v: Vec, sqrt: real -> real)
    requires IsSqrt(sqrt)
    ensures !(Module(v, sqrt) < 0.0)
  {
    SqrtSign(sqrt, ModuleSquare(v));
  }

  /** `module(v)` is positive for a non-zero vector. */
  lemma ModulePositive(v: Vec, sqrt: real -> real)
    requires IsSqrt(sqrt) && !IsZero(v)
    ensures Module(v, sqrt) > 0.0
  {
    SqrtSign(sqrt, ModuleSquare(v));
  }

  /** `module(v)` is zero for the zero vector. */
  lemma ModuleZero(v: Vec, sqrt: real -> real)
    requires IsSqrt(sqrt) && IsZero(v)
    ensures Module(v, sqrt) == 0.0
  {
    SqrtSign(sqrt, ModuleSquare(v));
  }

  /** `module(v)` squared is `moduleSquare(v)`. */
  lemma ModuleIsLength(v: Vec, sqrt: real -> real)
    requires IsSqrt(sqrt)
    ensures Module(v, sqrt) * Module(v, sqrt) == ModuleSquare(v)
  {
    SqrtSquared(sqrt, ModuleSquare(v), Module(v, sqrt));
  }

  /*
    Sign facts about products.  A square is written `a * b` with `a == b`
    so that the solver keeps the two factors apart.
  */

  lemma MulPos(a: real, b: real)
    requires a > 0.0 && b > 0.0
    ensures a * b > 0.0
  {
  }

  lemma DivPos(a: real, b: real)
    requires a > 0.0 && b > 0.0
    ensures a / b > 0.0
  {
  }

  lemma MulNeg(a: real, b: real)
    requires a < 0.0 && b < 0.0
    ensures a * b > 0.0
  {
  }

  lemma {:induction false} SelfProduct(a: real, b: real)
    requires a == b
    ensures !(a * b < 0.0)
    ensures a < 0.0 || a > 0.0 ==> a * b > 0.0
  {
    if a > 0.0 {
      MulPos(a, b);
    } else if a < 0.0 {
      MulNeg(a, b);
    }
  }

  lemma NonZeroSplit(v: Vec)
    ensures !IsZero(v) <==> v.x < 0.0 || v.x > 0.0 || v.y < 0.0 || v.y > 0.0
  {
  }

  lemma {:induction false} SelfDotExpanded(a: Vec, b: Vec)
    requires a == b
    ensures !(a.x * b.x + a.y * b.y < 0.0)
    ensures !IsZero(a) ==> a.x * b.x + a.y * b.y > 0.0
  {
    NonZeroSplit(a);
    SelfProduct(a.x, b.x);
    SelfProduct(a.y, b.y);
  }

  lemma {:induction false} DotSelf(a: Vec, b: Vec)
    requires a == b
    ensures !(Dot(a, b) < 0.0)
    ensures !IsZero(a) ==> Dot(a, b) > 0.0
    ensures IsZero(a) ==> Dot(a, b) == 0.0
  {
    SelfDotExpanded(a, b);
  }

  lemma {:induction false} RootSign(r: real, s: real, m: real)
    requires r == s && !(r < 0.0) && r * s == m
    ensures m > 0.0 ==> r > 0.0
    ensures m == 0.0 ==> r == 0.0
  {
    if r > 0.0 {
      MulPos(r, s);
    }
  }

  /** `addVec` followed by `subVec` with the same argument restores `out` exactly (over the reals). */
  lemma AddSubRoundTrip(out: Vec, arg: Vec)
    ensures Sub(Add(out, arg), arg) == out
    ensures Add(Sub(out, arg), arg) == out
  {
  }

  /** `diff(v1, v2, out)` leaves a zero vector in `out` exactly when `v1 == v2`. */
  lemma DiffIsZeroIff(v1: Vec, v2: Vec)
    ensures IsZero(Sub(v1, v2)) <==> v1 == v2
  {
  }

  /** Adding a scaled vector with a zero scalar or a zero argument leaves `out` unchanged. */
  lemma AddScaledNeutral(out: Vec, arg: Vec, scalar: real)
    ensures AddScaled(out, arg, 0.0) == out
    ensures AddScaled(out, Zero, scalar) == out
    ensures IsZero(arg) ==> AddScaled(out, arg, scalar) == out
  {
  }

  /** Scaling by `s` and by `-s` gives exact negations of each other. */
  lemma ScaleNegated(d: Vec, s: real)
    ensures Scale(d, -s) == Neg(Scale(d, s))
  {
  }

  /** A mutable `{x, y}` object. */
  class Vector2 {
    var x: real
    var y: real

    function Value(): Vec
      reads this
    {
      Vec(x, y)
    }

    constructor (x: real, y: real)
      ensures Value() == Vec(x, y)
    {
      this.x := x;
      this.y := y;
    }
  }

  /** `make(x, y)`: a fresh object with coordinates `x` and `y`. */
  method Make(x: real, y: real) returns (v: Vector2)
    ensures fresh(v) && v.x == x && v.y == y
  {
    v := new Vector2(x, y);
  }

  /** `makeZero()`: a fresh object at the origin. */
  method MakeZero() returns (v: Vector2)
    ensures fresh(v) && v.Value() == Zero && IsZero(v.Value())
  {
    v := Make(0.0, 0.0);
  }

  /** `setToZero(out)`. */
  method SetToZero(out: Vector2)
    modifies out
    ensures out.Value() == Zero && IsZero(out.Value())
  {
    out.x := 0.0;
    out.y := 0.0;
  }

  /** `assign(out, arg)`: `out` takes the coordinates of `arg`, which keeps its own. */
  method Assign(out: Vector2, arg: Vector2)
    modifies out
    ensures out.Value() == old(arg.Value())
    ensures arg.Value() == old(arg.Value())
  {
    out.x := arg.x;
    out.y := arg.y;
  }

  /** `addVecMultiplyByScalar(out, arg, scalar)`; `out` and `arg` may be the same object. */
  method AddVecMultiplyByScalar(out: Vector2, arg: Vector2, scalar: real)
    modifies out
    ensures out.Value() == AddScaled(old(out.Value()), old(arg.Value()), scalar)
    ensures scalar == 0.0 || IsZero(old(arg.Value())) ==> out.Value() == old(out.Value())
  {
    out.x := out.x + arg.x * scalar;
    out.y := out.y + arg.y * scalar;
  }

  /** `addVec(out, arg)`. */
  method AddVec(out: Vector2, arg: Vector2)
    modifies out
    ensures out.Value() == Add(old(out.Value()), old(arg.Value()))
  {
    out.x := out.x + arg.x;
    out.y := out.y + arg.y;
  }

  /** `subVec(out, arg)`. */
  method SubVec(out: Vector2, arg: Vector2)
    modifies out
    ensures out.Value() == Sub(old(out.Value()), old(arg.Value()))
  {
    out.x := out.x - arg.x;
    out.y := out.y - arg.y;
  }

  /** `diff(vec1, vec2, out)`: `out` becomes `vec1 - vec2`; it is zero exactly when the two were equal. */
  method Diff(vec1: Vector2, vec2: Vector2, out: Vector2)
    modifies out
    ensures out.Value() == Sub(old(vec1.Value()), old(vec2.Value()))
    ensures IsZero(out.Value()) <==> old(vec1.Value()) == old(vec2.Value())
  {
    out.x := vec1.x - vec2.x;
    out.y := vec1.y - vec2.y;
  }

  /** `addVec(out, a)` then `subVec(out, a)` on distinct objects restores `out` and leaves `a` alone. */
  method AddThenSub(out: Vector2, a: Vector2)
    requires out != a
    modifies out
    ensures out.Value() == old(out.Value()) && a.Value() == old(a.Value())
  {
    AddVec(out, a);
    SubVec(out, a);
    AddSubRoundTrip(old(out.Value()), a.Value());
  }
}
