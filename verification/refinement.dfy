/**
 * What the two Hessian least-squares solvers of GSASIImath share: the
 * numerical oracles they are given, the result record they return, and the
 * first steps of every refinement cycle (evaluate, test the diagonal for a
 * hard singularity, normalise).
 */
module Refinement {
  import opened Wrappers
  import opened LinAlg
  import opened PseudoInverse

  /**
   * The numerical collaborators of a refinement. `func` and `hess` are the
   * caller's residual and Hessian callbacks (with their extra arguments
   * captured); `sqrt`, `svd` and `qrDiag` (the diagonal of the R factor of
   * nl.qr) stand for the floating-point library routines, which are not
   * modelled.
   */
  datatype Numerics = Numerics(
    func: Vector -> Vector,
    hess: Vector -> (Vector, Matrix),
    sqrt: real -> real,
    svd: Matrix -> SvdOutcome,
    qrDiag: Matrix -> Vector)

  /** The decomposition never reports a negative singular value. */
  ghost predicate Sound(o: Numerics)
  {
    forall a :: SvdSound(o.svd(a))
  }

  /** The 'psing' entry: a boolean mask over the parameters, or a list of parameter indices. */
  datatype Psing = Mask(flags: seq<bool>) | Indices(idx: seq<nat>)

  /** The result dictionary; keys a return statement does not write are Absent. */
  datatype Info = Info(
    numCyc: nat,
    fvec: Vector,
    nfev: nat,
    lamMax: real,
    psing: Psing,
    svd0: int,
    converged: Slot<bool>,
    delChi2: Slot<real>,
    xvec: Slot<Vector>)

  /**
   * Ways a call ends without a result list: the UnboundLocalError of reading
   * Xvec when no cycle ran, the ValueError of np.maximum.reduce on no singular
   * values, and the two floating-point divisions by zero (chisq0 == 0 in
   * deltaChi2; a zero square-rooted diagonal at the final normalisation),
   * which the model stops at rather than carrying inf/NaN on.
   */
  datatype Fault = XvecUnbound | EmptyReduction | ChiSquareZero | DiagonalZero

  /** The list [x, cov or None, info] a solver returns, or the fault it ends in. */
  datatype Outcome = Returned(x: Vector, cov: Option<Matrix>, info: Info) | Raised(fault: Fault)

  /** The state of a cycle after its hard-singularity test. */
  datatype Start =
    | Singular(fvec: Vector, mask: seq<bool>)
    | Normalised(fvec: Vector, chisq0: real, adiag: Vector, yn: Vector, an: Matrix)

  /** A cycle that passed the singularity test: its diagonal roots can be divided by. */
  predicate Ready(c: Start)
  {
    c.Normalised? && NonZero(c.adiag) && c.chisq0 >= 0.0
  }

  /** sqrt(diag(Amat)) */
  function Roots(o: Numerics, a: Matrix): (d: Vector)
    ensures |d| == |a|
  {
    MapAll(o.sqrt, Diag(a))
  }

  /**
   * The start of a cycle at x: residuals and chi-square, the Hessian, the test
   * |sqrt(A[i][i])| < 1e-14, and, when it passes, the normalised gradient and
   * Hessian.
   */
  function StartCycle(o: Numerics, x: Vector): (r: Start)
    ensures r.Normalised? ==> Ready(r)
  {
    var m := o.func(x);
    var (yvec, amat) := o.hess(x);
    var adiag := Roots(o, amat);
    var psing := SmallMask(adiag);
    if AnyTrue(psing) then Singular(m, psing)
    else
      assert forall i :: 0 <= i < |adiag| ==> Abs(adiag[i]) >= SingularTol;
      Normalised(m, SumSq(m), adiag, DivBy(yvec, adiag), DivOuter(amat, adiag))
  }

  /**
   * A cycle stops at a hard singularity exactly when some square-rooted
   * diagonal entry of the Hessian is below 1e-14 in magnitude, and reports
   * those entries as its mask; otherwise it carries chi-square and the
   * Hessian normalised by the outer product of the roots.
   */
  lemma StartCycleSpec(o: Numerics, x: Vector)
    ensures StartCycle(o, x).fvec == o.func(x)
    ensures StartCycle(o, x).Singular? <==>
      exists i :: 0 <= i < |o.hess(x).1| && Abs(Roots(o, o.hess(x).1)[i]) < SingularTol
    ensures StartCycle(o, x).Singular? ==>
      StartCycle(o, x).mask == SmallMask(Roots(o, o.hess(x).1)) && AnyTrue(StartCycle(o, x).mask)
    ensures StartCycle(o, x).Normalised? ==>
      var c := StartCycle(o, x);
      && c.chisq0 == SumSq(o.func(x))
      && c.adiag == Roots(o, o.hess(x).1) && NonZero(c.adiag)
      && c.yn == DivBy(o.hess(x).0, c.adiag)
      && c.an == DivOuter(o.hess(x).1, c.adiag)
  {
  }

  /**
   * The point of the normalisation: when np.sqrt is exact on the Hessian's
   * diagonal, which is not negative for a least-squares Hessian, a cycle that
   * passes the singularity test works on a matrix with unit diagonal, so the
   * damping of HessianLSQ puts exactly 1 + lam on every diagonal entry
   * whatever the scale of the parameters.
   */
  lemma NormalisedUnitDiagonal(o: Numerics, x: Vector, lam: real)
    requires forall v :: v >= 0.0 ==> o.sqrt(v) * o.sqrt(v) == v
    requires forall i :: 0 <= i < |o.hess(x).1| ==> At(o.hess(x).1, i, i) >= 0.0
    ensures var c := StartCycle(o, x);
      c.Normalised? ==>
        && |c.an| == |o.hess(x).1|
        && forall i :: 0 <= i < |c.an| ==> i < |c.an[i]| && c.an[i][i] == 1.0 && Damp(c.an, lam)[i][i] == 1.0 + lam
  {
    StartCycleSpec(o, x);
    var c := StartCycle(o, x);
    if c.Normalised? {
      var a := o.hess(x).1;
      RootsSquare(o, a);
      UnitDiagonalOf(a, c.adiag);
      DampOnlyScalesDiagonal(c.an, lam);
    }
  }

  /** With an exact square root, each root of a non-negative diagonal entry squares back to it. */
  lemma RootsSquare(o: Numerics, a: Matrix)
    requires forall v :: v >= 0.0 ==> o.sqrt(v) * o.sqrt(v) == v
    requires forall i :: 0 <= i < |a| ==> At(a, i, i) >= 0.0
    ensures forall i :: 0 <= i < |a| ==> Roots(o, a)[i] * Roots(o, a)[i] == At(a, i, i)
  {
    var d := Roots(o, a);
    forall i | 0 <= i < |a|
      ensures d[i] * d[i] == At(a, i, i)
    {
      assert d[i] == o.sqrt(At(a, i, i));
    }
  }

  /** Dividing a by the outer product of roots that square to its diagonal leaves a unit diagonal. */
  lemma UnitDiagonalOf(a: Matrix, d: Vector)
    requires NonZero(d) && |d| == |a|
    requires forall i :: 0 <= i < |a| ==> d[i] * d[i] == At(a, i, i)
    ensures forall i :: 0 <= i < |d| ==> DivOuter(a, d)[i][i] == 1.0
  {
    var n := DivOuter(a, d);
    forall i | 0 <= i < |d|
      ensures n[i][i] == 1.0
    {
      assert n[i][i] * (d[i] * d[i]) == At(a, i, i);
      assert d[i] * d[i] == At(a, i, i);
      UnitEntry(n[i][i], d[i], At(a, i, i));
    }
  }

  /** A number that multiplies the square v == d * d of a non-zero d to give v is 1. */
  lemma UnitEntry(q: real, d: real, v: real)
    requires d != 0.0 && d * d == v && q * (d * d) == v
    ensures q == 1.0
  {
    assert (q * d - d) * d == 0.0;
    assert (q - 1.0) * d == 0.0;
  }

  /** What one solve of a cycle computes: a failed decomposition, an empty spectrum, or a step and its chi-square. */
  datatype Step = StepSvdFailed(psing: seq<nat>) | StepEmpty | Evaluated(xvec: Vector, chisq1: real)

  /**
   * The solve of a cycle started as c at x with the matrix a (the normalised
   * Hessian, damped or not): pseudo-invert a, solve for the step, undo the
   * normalisation and evaluate chi-square at x + step. When the decomposition
   * fails, the indices where the R diagonal of a's QR factorisation is below
   * 1e-14 are reported.
   */
  function SolveWith(o: Numerics, x: Vector, c: Start, xtol: real, a: Matrix): Step
    requires Sound(o) && xtol >= 0.0 && Ready(c)
  {
    var p := Pinv(o.svd, a, xtol);
    if p.SvdFailed? then StepSvdFailed(SmallIndices(o.qrDiag(a)))
    else if p.EmptySpectrum? then StepEmpty
    else
      var xvec := DivBy(MatVec(p.res, c.yn), c.adiag);
      Evaluated(xvec, SumSq(o.func(Add(x, xvec))))
  }
}
