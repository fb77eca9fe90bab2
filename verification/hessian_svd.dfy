/**
 * GSASIImath.HessianSVD: the undamped variant of the Hessian least-squares
 * refinement. Every cycle solves the normalised Hessian once, with no
 * damping and no retry; the trial point's chi-square is only used for the
 * convergence test, and the parameters themselves are never moved.
 */
module FixedStepSolver {
  import opened Wrappers
  import opened LinAlg
  import opened PseudoInverse
  import opened Refinement
  import DampedSolver

  /** What the one solve of a cycle at parameters x, started as c, computes. */
  type Solve = (Vector, Start) -> Step

  /**
   * The solve of HessianSVD: the normalised Hessian, undamped. It is only
   * ever made for a cycle start that passed the singularity test; any other
   * start is given an empty result.
   */
  function SvdSolver(o: Numerics, xtol: real): Solve
    requires Sound(o) && xtol >= 0.0
  {
    (x: Vector, c: Start) => if Ready(c) then SolveWith(o, x, c, xtol, c.an) else StepEmpty
  }

  /**
   * The covariance step after the cycles (lines 336-354). It matches the one
   * of HessianLSQ except that lamMax is 0, no 'Xvec' key is written, and the
   * QR singular list of the failure branch is taken of the normalised matrix.
   */
  function SvdFinal(o: Numerics, x: Vector, icycle: nat, nfev: nat, converged: bool, deltaChi2: real,
                    xtol: real, maxcyc: int): (r: Outcome)
    requires Sound(o) && xtol >= 0.0
    ensures r.Returned? ==> r.x == x && r.info.numCyc == icycle && r.info.nfev == nfev + 1 && r.info.lamMax == 0.0
    ensures r.Returned? && r.cov.Some? ==>
      r.info.svd0 >= 0 && r.info.psing == Indices([]) &&
      r.info.converged == Present(converged) && r.info.delChi2 == Present(deltaChi2)
    ensures r.Returned? && r.cov.None? ==> r.info.svd0 == -1 && r.info.converged.Absent? && r.info.delChi2.Absent?
    ensures r.Returned? ==> r.info.xvec.Absent? && r.info.fvec == o.func(x) && NonZero(Roots(o, o.hess(x).1))
    ensures r == Raised(DiagonalZero) <==> !NonZero(Roots(o, o.hess(x).1))
    ensures NonZero(Roots(o, o.hess(x).1)) ==>
      var p := Pinv(o.svd, DivOuter(o.hess(x).1, Roots(o, o.hess(x).1)), xtol);
      && (r == Raised(EmptyReduction) <==> p.EmptySpectrum?)
      && (p.Inverse? ==> r.Returned? && r.cov.Some?)
      && (p.SvdFailed? ==> r.Returned? && r.cov.None?)
    ensures r.Returned? && r.cov.Some? && NonZero(Roots(o, o.hess(x).1)) ==>
      var adiag := Roots(o, o.hess(x).1);
      var p := Pinv(o.svd, DivOuter(o.hess(x).1, adiag), xtol);
      p.Inverse? && r.info.svd0 == p.nzero && r.cov.value == DivOuter(p.res, adiag)
    ensures r.Returned? && r.cov.None? && NonZero(Roots(o, o.hess(x).1)) ==>
      var an := DivOuter(o.hess(x).1, Roots(o, o.hess(x).1));
      Pinv(o.svd, an, xtol).SvdFailed? && r.info.psing == Indices(if maxcyc != 0 then SmallIndices(o.qrDiag(an)) else [])
    ensures r.Raised? ==> r.fault != XvecUnbound
  {
    var m := o.func(x);
    var amat := o.hess(x).1;
    var adiag := Roots(o, amat);
    if !NonZero(adiag) then Raised(DiagonalZero)
    else
      var an := DivOuter(amat, adiag);
      var p := Pinv(o.svd, an, xtol);
      if p.Inverse? then
        Returned(x, Some(DivOuter(p.res, adiag)),
          Info(icycle, m, nfev + 1, 0.0, Indices([]), p.nzero, Present(converged), Present(deltaChi2), Absent))
      else if p.SvdFailed? then
        Returned(x, None,
          Info(icycle, m, nfev + 1, 0.0, Indices(if maxcyc != 0 then SmallIndices(o.qrDiag(an)) else []),
            -1, Absent, Absent, Absent))
      else Raised(EmptyReduction)
  }

  /** The cycles from `icycle` on, at the parameters x, which no cycle changes. */
  function SvdCycles(o: Numerics, solve: Solve, x: Vector, icycle: nat, nfev: nat, deltaChi2: real,
                     ftol: real, xtol: real, maxcyc: int): Outcome
    requires Sound(o) && xtol >= 0.0
    decreases maxcyc - icycle, 2
  {
    if icycle >= maxcyc then SvdFinal(o, x, icycle, nfev, false, deltaChi2, xtol, maxcyc)
    else SvdOneCycle(o, solve, x, icycle, nfev, ftol, xtol, maxcyc)
  }

  /** Cycle `icycle` < maxcyc (lines 299-334) and everything after it. */
  function SvdOneCycle(o: Numerics, solve: Solve, x: Vector, icycle: nat, nfev: nat, ftol: real, xtol: real, maxcyc: int): Outcome
    requires Sound(o) && xtol >= 0.0 && icycle < maxcyc
    decreases maxcyc - icycle, 1
  {
    var c := StartCycle(o, x);
    if c.Singular? then
      Returned(x, None, Info(icycle, c.fvec, nfev + 1, 0.0, Mask(c.mask), -1, Absent, Absent, Absent))
    else SvdAfterSolve(o, solve, x, icycle, nfev, c, solve(x, c), ftol, xtol, maxcyc)
  }

  /** The rest of cycle `icycle` once its one solve has ended as s. */
  function SvdAfterSolve(o: Numerics, solve: Solve, x: Vector, icycle: nat, nfev: nat, c: Start, s: Step,
                         ftol: real, xtol: real, maxcyc: int): Outcome
    requires Sound(o) && xtol >= 0.0 && c.Normalised? && icycle < maxcyc
    decreases maxcyc - icycle, 0
  {
    if s.StepSvdFailed? then
      Returned(x, None, Info(icycle, c.fvec, nfev + 1, 0.0, Indices(s.psing), -1, Absent, Absent, Absent))
    else if s.StepEmpty? then Raised(EmptyReduction)
    else if c.chisq0 == 0.0 then Raised(ChiSquareZero)
    else
      var d := (c.chisq0 - s.chisq1) / c.chisq0;
      if d < ftol then SvdFinal(o, x, icycle, nfev + 2, true, d, xtol, maxcyc)
      else SvdCycles(o, solve, x, icycle + 1, nfev + 2, d, ftol, xtol, maxcyc)
  }

  /** HessianSVD(func, x0, Hess, ftol=ftol, xtol=xtol, maxcyc=maxcyc) */
  function HessianSvdSpec(o: Numerics, x0: Vector, ftol: real, xtol: real, maxcyc: int): Outcome
    requires Sound(o) && xtol >= 0.0
  {
    SvdCycles(o, SvdSolver(o, xtol), x0, 0, 0, -10.0, ftol, xtol, maxcyc)
  }

  /** The undamped solve is the damped solver's trial at lam == 0: scaling the diagonal by 1 + 0 changes nothing. */
  lemma UndampedIsDampedAtZero(o: Numerics, x: Vector, c: Start, xtol: real)
    requires Sound(o) && xtol >= 0.0 && Ready(c)
    ensures SvdSolver(o, xtol)(x, c) == DampedSolver.TrialMaker(o, xtol)(x, c, 0.0)
  {
    DampOnlyScalesDiagonal(c.an, 0.0);
  }

  /**
   * Whether a cycle at x hands over to the next one: no hard singularity, a
   * successful solve, and a relative chi-square change at or above ftol.
   * Since x never changes, every cycle of a call decides this alike.
   */
  predicate Continues(o: Numerics, solve: Solve, x: Vector, ftol: real)
  {
    var c := StartCycle(o, x);
    c.Normalised? &&
    var s := solve(x, c);
    s.Evaluated? && c.chisq0 != 0.0 && (c.chisq0 - s.chisq1) / c.chisq0 >= ftol
  }

  /**
   * From cycle icycle on: the returned parameters are x, lamMax is 0, and
   * every completed cycle costs exactly two evaluations, the converging one
   * two and the final evaluation one more.
   */
  lemma {:induction false} SvdCyclesKeepX(o: Numerics, solve: Solve, x: Vector, icycle: nat, nfev: nat, deltaChi2: real,
                                          ftol: real, xtol: real, maxcyc: int)
    requires Sound(o) && xtol >= 0.0
    ensures var r := SvdCycles(o, solve, x, icycle, nfev, deltaChi2, ftol, xtol, maxcyc);
      r.Returned? ==>
        && r.x == x && r.info.lamMax == 0.0 && icycle <= r.info.numCyc
        && (r.info.nfev == nfev + 2 * (r.info.numCyc - icycle) + 1 ||
            r.info.nfev == nfev + 2 * (r.info.numCyc - icycle) + 3)
        && (r.cov.None? ==> r.info.svd0 == -1)
    ensures SvdCycles(o, solve, x, icycle, nfev, deltaChi2, ftol, xtol, maxcyc) != Raised(XvecUnbound)
    decreases maxcyc - icycle
  {
    if icycle < maxcyc {
      var c := StartCycle(o, x);
      assert SvdCycles(o, solve, x, icycle, nfev, deltaChi2, ftol, xtol, maxcyc)
          == SvdOneCycle(o, solve, x, icycle, nfev, ftol, xtol, maxcyc);
      if c.Normalised? {
        var s := solve(x, c);
        assert SvdOneCycle(o, solve, x, icycle, nfev, ftol, xtol, maxcyc)
            == SvdAfterSolve(o, solve, x, icycle, nfev, c, s, ftol, xtol, maxcyc);
        if s.Evaluated? && c.chisq0 != 0.0 {
          var d := (c.chisq0 - s.chisq1) / c.chisq0;
          if d >= ftol {
            SvdCyclesKeepX(o, solve, x, icycle + 1, nfev + 2, d, ftol, xtol, maxcyc);
          }
        }
      }
    }
  }

  /**
   * Once a cycle at x has handed over, every later cycle does too, so the
   * refinement runs until the cycles are exhausted: a returned result
   * reports num cyc == maxcyc and Converged False.
   */
  lemma {:induction false} ContinuingRunsOut(o: Numerics, solve: Solve, x: Vector, icycle: nat, nfev: nat, deltaChi2: real,
                                             ftol: real, xtol: real, maxcyc: int)
    requires Sound(o) && xtol >= 0.0 && icycle <= maxcyc && Continues(o, solve, x, ftol)
    ensures var r := SvdCycles(o, solve, x, icycle, nfev, deltaChi2, ftol, xtol, maxcyc);
      r.Returned? ==> r.info.numCyc == maxcyc && (r.cov.Some? ==> r.info.converged == Present(false))
    decreases maxcyc - icycle
  {
    if icycle < maxcyc {
      var c := StartCycle(o, x);
      var s := solve(x, c);
      assert SvdCycles(o, solve, x, icycle, nfev, deltaChi2, ftol, xtol, maxcyc)
          == SvdAfterSolve(o, solve, x, icycle, nfev, c, s, ftol, xtol, maxcyc);
      ContinuingRunsOut(o, solve, x, icycle + 1, nfev + 2, (c.chisq0 - s.chisq1) / c.chisq0, ftol, xtol, maxcyc);
    }
  }

  /**
   * When the first cycle at x does not hand over, the refinement ends in
   * that cycle: a returned result reports the cycle count it started with.
   */
  lemma StopsAtFirst(o: Numerics, solve: Solve, x: Vector, icycle: nat, nfev: nat, deltaChi2: real,
                     ftol: real, xtol: real, maxcyc: int)
    requires Sound(o) && xtol >= 0.0 && icycle < maxcyc && !Continues(o, solve, x, ftol)
    ensures var r := SvdCycles(o, solve, x, icycle, nfev, deltaChi2, ftol, xtol, maxcyc);
      r.Returned? ==> r.info.numCyc == icycle
  {
    var c := StartCycle(o, x);
    if c.Normalised? {
      assert SvdCycles(o, solve, x, icycle, nfev, deltaChi2, ftol, xtol, maxcyc)
          == SvdAfterSolve(o, solve, x, icycle, nfev, c, solve(x, c), ftol, xtol, maxcyc);
    }
  }

  /**
   * The two early returns of a cycle keep x, give no covariance and report
   * SVD0 == -1 and lamMax 0, after the one evaluation at the cycle start: a
   * square-rooted diagonal entry below 1e-14 returns the mask of such
   * entries; a failed decomposition of the normalised Hessian returns the
   * indices where the R diagonal of its QR factorisation is below 1e-14.
   */
  lemma SvdEarlyExits(o: Numerics, x: Vector, icycle: nat, nfev: nat, ftol: real, xtol: real, maxcyc: int)
    requires Sound(o) && xtol >= 0.0 && icycle < maxcyc
    ensures var r := SvdOneCycle(o, SvdSolver(o, xtol), x, icycle, nfev, ftol, xtol, maxcyc);
      StartCycle(o, x).Singular? ==>
        r == Returned(x, None, Info(icycle, o.func(x), nfev + 1, 0.0, Mask(SmallMask(Roots(o, o.hess(x).1))),
                                    -1, Absent, Absent, Absent))
    ensures var r := SvdOneCycle(o, SvdSolver(o, xtol), x, icycle, nfev, ftol, xtol, maxcyc);
      var c := StartCycle(o, x);
      c.Normalised? && Pinv(o.svd, c.an, xtol).SvdFailed? ==>
        r == Returned(x, None, Info(icycle, o.func(x), nfev + 1, 0.0, Indices(SmallIndices(o.qrDiag(c.an))),
                                    -1, Absent, Absent, Absent))
  {
    StartCycleSpec(o, x);
  }

  /**
   * Which fault, if any, ends the cycles from `icycle` < maxcyc at x. Since x
   * never changes, every cycle meets the same normalised Hessian: the chi-square
   * division fails exactly when it inverts and chisq0 is 0, the empty-spectrum
   * error happens exactly when its spectrum is empty, and the covariance step
   * reached after a successful inversion never meets a zero root.
   */
  lemma SvdCyclesFaults(o: Numerics, x: Vector, icycle: nat, nfev: nat, deltaChi2: real,
                        ftol: real, xtol: real, maxcyc: int)
    requires Sound(o) && xtol >= 0.0 && icycle < maxcyc
    ensures var r := SvdCycles(o, SvdSolver(o, xtol), x, icycle, nfev, deltaChi2, ftol, xtol, maxcyc);
      var c := StartCycle(o, x);
      && r != Raised(DiagonalZero)
      && (r == Raised(ChiSquareZero) <==> c.Normalised? && Pinv(o.svd, c.an, xtol).Inverse? && c.chisq0 == 0.0)
      && (r == Raised(EmptyReduction) <==> c.Normalised? && Pinv(o.svd, c.an, xtol).EmptySpectrum?)
  {
    var solve := SvdSolver(o, xtol);
    var c := StartCycle(o, x);
    assert SvdCycles(o, solve, x, icycle, nfev, deltaChi2, ftol, xtol, maxcyc)
        == SvdOneCycle(o, solve, x, icycle, nfev, ftol, xtol, maxcyc);
    if c.Normalised? {
      var s := solve(x, c);
      assert s == SolveWith(o, x, c, xtol, c.an);
      assert SvdOneCycle(o, solve, x, icycle, nfev, ftol, xtol, maxcyc)
          == SvdAfterSolve(o, solve, x, icycle, nfev, c, s, ftol, xtol, maxcyc);
      if Pinv(o.svd, c.an, xtol).Inverse? && c.chisq0 != 0.0 {
        SvdInvertingReturns(o, x, icycle, nfev, deltaChi2, ftol, xtol, maxcyc);
      }
    }
  }

  /**
   * Cycles at a point whose normalised Hessian inverts and whose chi-square is
   * not 0 end in a returned result: every cycle hands over or converges, and
   * the covariance step inverts the same matrix.
   */
  lemma {:induction false} SvdInvertingReturns(o: Numerics, x: Vector, icycle: nat, nfev: nat, deltaChi2: real,
                                               ftol: real, xtol: real, maxcyc: int)
    requires Sound(o) && xtol >= 0.0
    requires StartCycle(o, x).Normalised? && Pinv(o.svd, StartCycle(o, x).an, xtol).Inverse?
    requires StartCycle(o, x).chisq0 != 0.0
    ensures SvdCycles(o, SvdSolver(o, xtol), x, icycle, nfev, deltaChi2, ftol, xtol, maxcyc).Returned?
    decreases maxcyc - icycle
  {
    var solve := SvdSolver(o, xtol);
    if icycle >= maxcyc {
      SvdFinalAfterInverse(o, x, icycle, nfev, false, deltaChi2, xtol, maxcyc);
    } else {
      var c := StartCycle(o, x);
      var s := solve(x, c);
      assert s == SolveWith(o, x, c, xtol, c.an);
      assert SvdCycles(o, solve, x, icycle, nfev, deltaChi2, ftol, xtol, maxcyc)
          == SvdAfterSolve(o, solve, x, icycle, nfev, c, s, ftol, xtol, maxcyc);
      var d := (c.chisq0 - s.chisq1) / c.chisq0;
      if d < ftol {
        SvdFinalAfterInverse(o, x, icycle, nfev + 2, true, d, xtol, maxcyc);
      } else {
        SvdInvertingReturns(o, x, icycle + 1, nfev + 2, d, ftol, xtol, maxcyc);
      }
    }
  }

  /** The covariance step at a point whose cycle start inverted its normalised Hessian returns the covariance. */
  lemma SvdFinalAfterInverse(o: Numerics, x: Vector, icycle: nat, nfev: nat, converged: bool, deltaChi2: real,
                             xtol: real, maxcyc: int)
    requires Sound(o) && xtol >= 0.0
    requires StartCycle(o, x).Normalised? && Pinv(o.svd, StartCycle(o, x).an, xtol).Inverse?
    ensures var r := SvdFinal(o, x, icycle, nfev, converged, deltaChi2, xtol, maxcyc);
      r.Returned? && r.cov.Some?
  {
    StartCycleSpec(o, x);
  }

  /**
   * A whole call: x0 is returned unchanged with lamMax 0; since every cycle
   * repeats the first, the cycle count is 0 or maxcyc, and the evaluation
   * count is 2 * num cyc + 1, or 2 * num cyc + 3 when the last cycle
   * converged; the unbound-local error of HessianLSQ cannot occur.
   */
  lemma HessianSvdResult(o: Numerics, x0: Vector, ftol: real, xtol: real, maxcyc: int)
    requires Sound(o) && xtol >= 0.0
    ensures var r := HessianSvdSpec(o, x0, ftol, xtol, maxcyc);
      && (r.Returned? ==>
            && r.x == x0 && r.info.lamMax == 0.0
            && (r.info.numCyc == 0 || r.info.numCyc == maxcyc)
            && (r.info.nfev == 2 * r.info.numCyc + 1 || r.info.nfev == 2 * r.info.numCyc + 3)
            && (r.cov.None? ==> r.info.svd0 == -1))
      && r != Raised(XvecUnbound)
    ensures var r := HessianSvdSpec(o, x0, ftol, xtol, maxcyc);
      var a := o.hess(x0).1;
      var c := StartCycle(o, x0);
      && (r == Raised(DiagonalZero) <==> maxcyc <= 0 && !NonZero(Roots(o, a)))
      && (r == Raised(ChiSquareZero) <==>
            0 < maxcyc && c.Normalised? && Pinv(o.svd, c.an, xtol).Inverse? && c.chisq0 == 0.0)
      && (r == Raised(EmptyReduction) <==>
            if 0 < maxcyc then c.Normalised? && Pinv(o.svd, c.an, xtol).EmptySpectrum?
            else NonZero(Roots(o, a)) && Pinv(o.svd, DivOuter(a, Roots(o, a)), xtol).EmptySpectrum?)
  {
    var solve := SvdSolver(o, xtol);
    SvdCyclesKeepX(o, solve, x0, 0, 0, -10.0, ftol, xtol, maxcyc);
    if 0 < maxcyc {
      SvdCyclesFaults(o, x0, 0, 0, -10.0, ftol, xtol, maxcyc);
      if Continues(o, solve, x0, ftol) {
        ContinuingRunsOut(o, solve, x0, 0, 0, -10.0, ftol, xtol, maxcyc);
      } else {
        StopsAtFirst(o, solve, x0, 0, 0, -10.0, ftol, xtol, maxcyc);
      }
    }
  }

  /**
   * With maxcyc <= 0 no cycle runs: the call returns exactly when the roots of
   * the Hessian diagonal at x0 are non-zero and the normalised Hessian has a
   * non-empty spectrum, and then gives x0 after one evaluation, at cycle 0,
   * with the covariance exactly when the inversion succeeds.
   */
  lemma SvdNoCycles(o: Numerics, x0: Vector, ftol: real, xtol: real, maxcyc: int)
    requires Sound(o) && xtol >= 0.0 && maxcyc <= 0
    ensures var r := HessianSvdSpec(o, x0, ftol, xtol, maxcyc);
      var a := o.hess(x0).1;
      && (r.Returned? <==> NonZero(Roots(o, a)) && !Pinv(o.svd, DivOuter(a, Roots(o, a)), xtol).EmptySpectrum?)
      && (r.Returned? ==>
            (r.cov.Some? <==> Pinv(o.svd, DivOuter(a, Roots(o, a)), xtol).Inverse?))
    ensures var r := HessianSvdSpec(o, x0, ftol, xtol, maxcyc);
      && (r.Returned? ==> r.x == x0 && r.info.numCyc == 0 && r.info.nfev == 1 && r.info.lamMax == 0.0)
      && (r.Returned? && r.cov.Some? ==> r.info.converged == Present(false) && r.info.delChi2 == Present(-10.0))
      && (r.Raised? ==> r.fault == DiagonalZero || r.fault == EmptyReduction)
  {
  }

  /** HessianSVD's outer loop (lines 299-334), with x0 fixed throughout. */
  method HessianSVD(o: Numerics, x0: Vector, ftol: real, xtol: real, maxcyc: int) returns (r: Outcome)
    requires Sound(o) && xtol >= 0.0
    ensures r == HessianSvdSpec(o, x0, ftol, xtol, maxcyc)
  {
    var solve := SvdSolver(o, xtol);
    var converged := false;
    var deltaChi2 := -10.0;
    var icycle: nat := 0;
    var nfev: nat := 0;
    while icycle < maxcyc
      invariant !converged
      invariant SvdCycles(o, solve, x0, icycle, nfev, deltaChi2, ftol, xtol, maxcyc) == HessianSvdSpec(o, x0, ftol, xtol, maxcyc)
      decreases maxcyc - icycle
    {
      ghost var nfev_ := nfev;
      nfev := nfev + 1;
      var c := StartCycle(o, x0);
      if c.Singular? {
        return Returned(x0, None, Info(icycle, c.fvec, nfev, 0.0, Mask(c.mask), -1, Absent, Absent, Absent));
      }
      var s := solve(x0, c);
      assert HessianSvdSpec(o, x0, ftol, xtol, maxcyc) == SvdAfterSolve(o, solve, x0, icycle, nfev_, c, s, ftol, xtol, maxcyc);
      if s.StepSvdFailed? {
        return Returned(x0, None, Info(icycle, c.fvec, nfev, 0.0, Indices(s.psing), -1, Absent, Absent, Absent));
      }
      if s.StepEmpty? {
        return Raised(EmptyReduction);
      }
      nfev := nfev + 1;
      if c.chisq0 == 0.0 {
        return Raised(ChiSquareZero);
      }
      deltaChi2 := (c.chisq0 - s.chisq1) / c.chisq0;
      if deltaChi2 < ftol {
        converged := true;
        break;
      }
      icycle := icycle + 1;
    }
    r := SvdFinal(o, x0, icycle, nfev, converged, deltaChi2, xtol, maxcyc);
  }
}
