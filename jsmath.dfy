/**
 * The numeric primitives the three browser-side engines rely on.
 *
 * `Math.exp`, `Math.log`, `Math.pow`, `Math.sqrt`, `Math.cos`, `Math.sin`,
 * `Math.acos` and `Math.round` are left UNINTERPRETED: they are constants of
 * function type whose values are unknown. A lemma that needs a fact about one
 * of them (Exp(0) = 1, say) takes that fact as a precondition, so nothing is
 * assumed about floating point that a property does not name.
 */
module JsMath {
  import opened Common

  /** The gas constant the engines hard-code, in J/(mol K). */
  const GasConstant: real := 8.314472

  /** `Math.PI` and `Math.LN10`, written as their decimal expansions. */
  const Pi: real := 3.141592653589793
  const Ln10: real := 2.302585092994046

  const Exp: real -> real
  const Log: real -> real
  const Pow: (real, real) -> real
  const Sqrt: real -> real
  const Cos: real -> real
  const Sin: real -> real
  const Acos: real -> real
  /** `Math.round`, only ever applied to values the engines use as array offsets. */
  const Round: real -> int

  /**
   * What `a / 0` evaluates to. JavaScript gives +Infinity, -Infinity or NaN,
   * none of which is a real number, so the model leaves the value unspecified.
   */
  const DivByZero: real -> real

  /** JavaScript division over the reals: exact unless the divisor is zero. */
  function Div(a: real, b: real): real
  {
    if b == 0.0 then DivByZero(a) else a / b
  }

  /**
   * `a * b`. Products of computed values are written through this function
   * where a proof only has to match the same product on both sides.
   */
  function Times(a: real, b: real): real
  {
    a * b
  }

  /** `Math.log(x) / Math.LN10`, the base-10 logarithm as the engines write it. */
  function Log10(x: real): real
  {
    Log(x) / Ln10
  }

  /** `Math.abs`. */
  function Abs(x: real): real
  {
    if x < 0.0 then -x else x
  }

  /** `(x) ? x : d` on a numeric constructor argument: an omitted or zero argument takes the default. */
  function OrDefault(x: Option<real>, d: real): real
  {
    if x.Some? && x.value != 0.0 then x.value else d
  }

  /** A JavaScript exception; the engines only ever raise one by calling a method of `undefined`. */
  datatype JsError = TypeError

  /** The library facts the lemmas may ask for, each true of IEEE Math. */
  ghost predicate ExpOfZero() { Exp(0.0) == 1.0 }
  ghost predicate ExpInvertsLog() { forall x: real :: x > 0.0 ==> Exp(Log(x)) == x }
  ghost predicate PowZeroIsOne() { forall x: real :: Pow(x, 0.0) == 1.0 }
  /** Math.sqrt is a nonnegative square root on nonnegative arguments. */
  ghost predicate SqrtIsRoot()
  {
    forall x: real {:trigger Sqrt(x)} :: 0.0 <= x ==> 0.0 <= Sqrt(x) && Sqrt(x) * Sqrt(x) == x
  }

  /**
   * A number as the density-of-states arrays hold it: a real, or NaN, which
   * also stands for `undefined` (an array hole), since both compare false and
   * turn every sum and product they enter into NaN.
   */
  datatype Num = Val(v: real) | NaN

  function Add(a: Num, b: Num): Num
  {
    if a.Val? && b.Val? then Val(a.v + b.v) else NaN
  }

  function Mul(a: Num, b: Num): Num
  {
    if a.Val? && b.Val? then Val(a.v * b.v) else NaN
  }

  /** `x > 0` in JavaScript: false for NaN and undefined. */
  predicate IsPositive(x: Num)
  {
    x.Val? && x.v > 0.0
  }

  /** `a[i]` of a JavaScript array: past the end it reads `undefined`. */
  function At(a: seq<Num>, i: int): Num
  {
    if 0 <= i < |a| then a[i] else NaN
  }
}
