/**
 * The exact part of the matrix algebra around the least-squares solvers:
 * element-wise normalisation, the damping product, matrix-vector products,
 * sums of squares and powers of ten, over exact reals.
 *
 * Vector operations follow the shape of their operands as numpy would for
 * well-formed input; where two operands differ in length (numpy raises a
 * broadcasting error) they work on the common prefix.
 */
module LinAlg {

  type Vector = seq<real>
  type Matrix = seq<seq<real>>

  /** The magnitude below which a diagonal entry or an R-diagonal counts as zero (1e-14). */
  const SingularTol: real := 1.0e-14

  function Abs(v: real): real { if v < 0.0 then -v else v }

  function Min(a: nat, b: nat): nat { if a <= b then a else b }

  /** Entry (i, j) of `m`, 0.0 outside its shape. */
  function At(m: Matrix, i: int, j: int): real
  {
    if 0 <= i < |m| && 0 <= j < |m[i]| then m[i][j] else 0.0
  }

  predicate NonZero(d: Vector)
  {
    forall i :: 0 <= i < |d| ==> d[i] != 0.0
  }

  /** np.diag(a) */
  function Diag(a: Matrix): (d: Vector)
    ensures |d| == |a|
  {
    seq(|a|, i requires 0 <= i < |a| => At(a, i, i))
  }

  /** Applies a scalar map to every entry, as np.sqrt does to a vector. */
  function MapAll(f: real -> real, v: Vector): (r: Vector)
    ensures |r| == |v| && forall i :: 0 <= i < |v| ==> r[i] == f(v[i])
  {
    seq(|v|, i requires 0 <= i < |v| => f(v[i]))
  }

  /** Sum of squares: the chi-square of a residual vector. */
  function SumSq(v: Vector): (r: real)
    ensures r >= 0.0
  {
    if |v| == 0 then 0.0 else v[0] * v[0] + SumSq(v[1..])
  }

  function Dot(a: Vector, b: Vector): real
  {
    if |a| == 0 || |b| == 0 then 0.0 else a[0] * b[0] + Dot(a[1..], b[1..])
  }

  /** np.inner(a, v) for a matrix `a` and a vector `v`. */
  function MatVec(a: Matrix, v: Vector): (r: Vector)
    ensures |r| == |a|
  {
    seq(|a|, i requires 0 <= i < |a| => Dot(a[i], v))
  }

  /** x + y */
  function Add(x: Vector, y: Vector): (r: Vector)
    ensures |r| == Min(|x|, |y|)
    ensures forall i :: 0 <= i < |r| ==> r[i] == x[i] + y[i]
  {
    seq(Min(|x|, |y|), i requires 0 <= i < Min(|x|, |y|) => x[i] + y[i])
  }

  /** v / d, element by element. */
  function DivBy(v: Vector, d: Vector): (r: Vector)
    requires NonZero(d)
    ensures |r| == Min(|v|, |d|)
    ensures forall i :: 0 <= i < |r| ==> r[i] * d[i] == v[i]
  {
    seq(Min(|v|, |d|), i requires 0 <= i < Min(|v|, |d|) => v[i] / d[i])
  }

  /** a / np.outer(d, d): the n-by-n matrix whose entry (i, j) is a[i][j] / (d[i] * d[j]). */
  function DivOuter(a: Matrix, d: Vector): (r: Matrix)
    requires NonZero(d)
    ensures |r| == |d| && forall i :: 0 <= i < |d| ==> |r[i]| == |d|
    ensures forall i, j :: 0 <= i < |d| && 0 <= j < |d| ==> r[i][j] * (d[i] * d[j]) == At(a, i, j)
  {
    seq(|d|, i requires 0 <= i < |d| =>
      seq(|d|, j requires 0 <= j < |d| => At(a, i, j) / (d[i] * d[j])))
  }

  /**
   * a * (One + eye * lam): the Marquardt damping of the solver. Only the
   * diagonal is scaled, by (1 + lam); every off-diagonal entry is kept.
   */
  function Damp(a: Matrix, lam: real): (r: Matrix)
    ensures |r| == |a| && forall i :: 0 <= i < |a| ==> |r[i]| == |a[i]|
  {
    seq(|a|, i requires 0 <= i < |a| =>
      seq(|a[i]|, j requires 0 <= j < |a[i]| => if i == j then a[i][j] * (1.0 + lam) else a[i][j]))
  }

  /** The damped matrix differs from the undamped one on the diagonal only, and not at all when lam is 0. */
  lemma DampOnlyScalesDiagonal(a: Matrix, lam: real)
    ensures forall i, j :: 0 <= i < |a| && 0 <= j < |a[i]| && i != j ==> Damp(a, lam)[i][j] == a[i][j]
    ensures forall i :: 0 <= i < |a| && i < |a[i]| ==> Damp(a, lam)[i][i] == a[i][i] + lam * a[i][i]
    ensures Damp(a, 0.0) == a
  {
    var z := Damp(a, 0.0);
    forall i | 0 <= i < |a|
      ensures z[i] == a[i]
    {
      assert |z[i]| == |a[i]|;
      forall j | 0 <= j < |a[i]| ensures z[i][j] == a[i][j] {
      }
    }
  }

  /** The sign of a quotient, for the sign of deltaChi2 after a stalled retry loop. */
  lemma NegativeOverPositive(a: real, b: real)
    requires a < 0.0 && b > 0.0
    ensures a / b < 0.0
  {
  }

  /** 10 ** e for a whole exponent. */
  function Pow10(e: int): (r: real)
    ensures r > 0.0
    decreases if e < 0 then -e else e
  {
    if e == 0 then 1.0
    else if e > 0 then 10.0 * Pow10(e - 1)
    else Pow10(e + 1) / 10.0
  }

  /** Multiplying 10**e by ten gives 10**(e+1), whatever the sign of e. */
  lemma {:induction false} Pow10Step(e: int)
    ensures Pow10(e + 1) == Pow10(e) * 10.0
  {
    if e < 0 {
      assert Pow10(e) == Pow10(e + 1) / 10.0;
    }
  }

  /** 10**e exceeds 10 exactly when e exceeds 1. */
  lemma {:induction false} Pow10AboveTen(e: int)
    ensures Pow10(e) > 10.0 <==> e > 1
    ensures e <= 1 ==> Pow10(e) <= 10.0
    decreases if e < 0 then -e else e
  {
    if e > 2 {
      Pow10AboveTen(e - 1);
    } else if e < 0 {
      Pow10AboveTen(e + 1);
    }
  }

  /** The boolean mask np.abs(d) < 1e-14. */
  function SmallMask(d: Vector): (m: seq<bool>)
    ensures |m| == |d| && forall i :: 0 <= i < |d| ==> (m[i] <==> Abs(d[i]) < SingularTol)
  {
    seq(|d|, i requires 0 <= i < |d| => Abs(d[i]) < SingularTol)
  }

  predicate AnyTrue(m: seq<bool>)
  {
    exists i :: 0 <= i < |m| && m[i]
  }

  /** list(np.where(d < 1e-14)[0]) from index k on. */
  function SmallIndicesFrom(d: Vector, k: nat): (r: seq<nat>)
    decreases |d| - k
  {
    if k >= |d| then []
    else if d[k] < SingularTol then [k] + SmallIndicesFrom(d, k + 1)
    else SmallIndicesFrom(d, k + 1)
  }

  /** list(np.where(d < 1e-14)[0]): the ascending indices of the entries below the tolerance. */
  function SmallIndices(d: Vector): seq<nat>
  {
    SmallIndicesFrom(d, 0)
  }

  lemma {:induction false} SmallIndicesFromSpec(d: Vector, k: nat)
    ensures forall i: nat :: i in SmallIndicesFrom(d, k) <==> k <= i < |d| && d[i] < SingularTol
    ensures forall p, q :: 0 <= p < q < |SmallIndicesFrom(d, k)| ==>
      SmallIndicesFrom(d, k)[p] < SmallIndicesFrom(d, k)[q]
    decreases |d| - k
  {
    if k < |d| {
      SmallIndicesFromSpec(d, k + 1);
      var rest := SmallIndicesFrom(d, k + 1);
      forall q | 0 <= q < |rest|
        ensures rest[q] > k
      {
        assert rest[q] in rest;
      }
    }
  }

  /** An index is reported exactly when its entry is below 1e-14, and the report is ascending. */
  lemma SmallIndicesSpec(d: Vector)
    ensures forall i: nat :: i in SmallIndices(d) <==> i < |d| && d[i] < SingularTol
    ensures forall p, q :: 0 <= p < q < |SmallIndices(d)| ==> SmallIndices(d)[p] < SmallIndices(d)[q]
  {
    SmallIndicesFromSpec(d, 0);
  }
}
