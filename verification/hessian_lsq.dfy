/**
 * GSASIImath.HessianLSQ: Levenberg-Marquardt refinement with SVD
 * regularisation and multiplicative damping of the normalised diagonal.
 *
 * The damping factor is always a power of ten, 10**lamda times ten to the
 * number of rejections minus the number of acceptances, so the specification
 * carries its exponent e and the solver's real lam equals Pow10(e).
 *
 * The specification of the loops is stated for any trial function (what one
 * trial at parameters x, cycle start c and damping lam computes); the solver
 * uses TrialMaker, the damped solve. The bookkeeping lemmas therefore hold
 * whatever the numerics of a trial return.
 */
module DampedSolver {
  import opened Wrappers
  import opened LinAlg
  import opened PseudoInverse
  import opened Refinement

  /** What one trial at parameters x, cycle start c and damping lam computes. */
  type Trial = (Vector, Start, real) -> Step

  /** How the retry loop of one cycle ends; `trials` counts func evaluations at trial points. */
  datatype TrialEnd =
    | Accepted(x: Vector, chisq1: real, xvec: Vector, trials: nat)
    | Stalled(chisq1: real, xvec: Vector, trials: nat)
    | TrialSvdFailed(psing: seq<nat>, trials: nat)
    | TrialEmpty

  /** The bound on the number of trials a retry loop entered with lam == 10**e can make. */
  function MaxTrials(e: int): nat
  {
    if e <= 0 then 2 - e else 1
  }

  /**
   * The exponent of lam after a retry loop entered with 10**e that made
   * `trials` trials: one x10 per rejection and one /10 for the acceptance.
   */
  function ExpAfter(e: int, t: TrialEnd): int
  {
    match t
    case Accepted(_, _, _, k) => e + k - 2
    case Stalled(_, _, k) => e + k
    case _ => e
  }

  /**
   * One trial at damping lam: the normalised Hessian with its diagonal scaled
   * by (1 + lam), solved for a step whose chi-square is evaluated at x + step.
   */
  function TrialStep(o: Numerics, x: Vector, c: Start, xtol: real, lam: real): Step
    requires Sound(o) && xtol >= 0.0 && Ready(c)
  {
    SolveWith(o, x, c, xtol, Damp(c.an, lam))
  }

  /**
   * The trials of HessianLSQ. They are only ever made for a cycle start that
   * passed the singularity test; any other start is given an empty result.
   */
  function TrialMaker(o: Numerics, xtol: real): Trial
    requires Sound(o) && xtol >= 0.0
  {
    (x: Vector, c: Start, lam: real) => if Ready(c) then TrialStep(o, x, c, xtol, lam) else StepEmpty
  }

  /**
   * The retry loop of one cycle at x started as c, entered with lam == 10**e,
   * acceptance bound chitol and `done` trials already made.
   */
  function Trials(trial: Trial, x: Vector, c: Start, e: int, chitol: real, done: nat): TrialEnd
    requires c.Normalised?
    decreases if e <= 1 then 2 - e else 0
  {
    match trial(x, c, Pow10(e))
    case StepSvdFailed(psing) => TrialSvdFailed(psing, done)
    case StepEmpty => TrialEmpty
    case Evaluated(xvec, chisq1) =>
      if chisq1 > c.chisq0 * (1.0 + chitol) then
        Pow10AboveTen(e + 1);
        if Pow10(e + 1) > 10.0 then Stalled(chisq1, xvec, done + 1)
        else Trials(trial, x, c, e + 1, chitol * 2.0, done + 1)
      else Accepted(Add(x, xvec), chisq1, xvec, done + 1)
  }

  /**
   * An acceptance moves x by the step of its last trial; every ending that
   * evaluated a trial point counts at least one trial.
   */
  lemma {:induction false} TrialsShape(trial: Trial, x: Vector, c: Start, e: int, chitol: real, done: nat)
    requires c.Normalised?
    ensures var r := Trials(trial, x, c, e, chitol, done);
      && (r.Accepted? ==> r.x == Add(x, r.xvec) && done < r.trials)
      && (r.Stalled? ==> done < r.trials)
      && (r.TrialSvdFailed? ==> done <= r.trials)
    decreases if e <= 1 then 2 - e else 0
  {
    var s := trial(x, c, Pow10(e));
    if s.Evaluated? && s.chisq1 > c.chisq0 * (1.0 + chitol) {
      Pow10AboveTen(e + 1);
      if Pow10(e + 1) <= 10.0 {
        TrialsShape(trial, x, c, e + 1, chitol * 2.0, done + 1);
      }
    }
  }

  /** chitol after n rejected trials: doubled n times (line 209). */
  function Doubled(t: real, n: nat): real
    decreases n
  {
    if n == 0 then t else Doubled(t * 2.0, n - 1)
  }

  /** Each rejection doubles the tolerance the previous trial was held to, as `chitol *= 2` does. */
  lemma {:induction false} DoubledStep(t: real, n: nat)
    ensures Doubled(t, n + 1) == 2.0 * Doubled(t, n)
    decreases n
  {
    if n > 0 {
      DoubledStep(t * 2.0, n - 1);
    }
  }

  /**
   * The acceptance rule at the last trial of a retry loop entered with chitol:
   * after n rejections the tolerance is chitol doubled n times; an acceptance
   * met the bound chisq0 * (1 + that tolerance) and a stall exceeded it.
   */
  lemma {:induction false} TrialsTolerance(trial: Trial, x: Vector, c: Start, e: int, chitol: real, done: nat)
    requires c.Normalised?
    ensures var r := Trials(trial, x, c, e, chitol, done);
      && (r.Accepted? ==> done < r.trials && r.chisq1 <= c.chisq0 * (1.0 + Doubled(chitol, r.trials - done - 1)))
      && (r.Stalled? ==> done < r.trials && r.chisq1 > c.chisq0 * (1.0 + Doubled(chitol, r.trials - done - 1)))
    decreases if e <= 1 then 2 - e else 0
  {
    var s := trial(x, c, Pow10(e));
    if s.Evaluated? && s.chisq1 > c.chisq0 * (1.0 + chitol) {
      Pow10AboveTen(e + 1);
      if Pow10(e + 1) <= 10.0 {
        TrialsTolerance(trial, x, c, e + 1, chitol * 2.0, done + 1);
      }
    }
  }

  /**
   * The j-th trial of a retry loop entered with lam == 10**e and tolerance
   * chitol was rejected: it evaluated a point whose chi-square exceeded
   * chisq0 * (1 + chitol doubled j times).
   */
  predicate RejectedAt(trial: Trial, x: Vector, c: Start, e: int, chitol: real, j: nat)
    requires c.Normalised?
  {
    var s := trial(x, c, Pow10(e + j));
    s.Evaluated? && s.chisq1 > c.chisq0 * (1.0 + Doubled(chitol, j))
  }

  /**
   * Every trial of a retry loop before its last one, and every trial before a
   * failed decomposition, was rejected.
   */
  lemma {:induction false} TrialsRejected(trial: Trial, x: Vector, c: Start, e: int, chitol: real, done: nat)
    requires c.Normalised?
    ensures var r := Trials(trial, x, c, e, chitol, done);
      !r.TrialEmpty? ==>
        forall j: nat :: done + j + (if r.TrialSvdFailed? then 0 else 1) < r.trials ==> RejectedAt(trial, x, c, e, chitol, j)
    decreases if e <= 1 then 2 - e else 0
  {
    var s := trial(x, c, Pow10(e));
    if s.Evaluated? && s.chisq1 > c.chisq0 * (1.0 + chitol) {
      Pow10AboveTen(e + 1);
      if Pow10(e + 1) <= 10.0 {
        var r := Trials(trial, x, c, e + 1, chitol * 2.0, done + 1);
        assert Trials(trial, x, c, e, chitol, done) == r;
        TrialsRejected(trial, x, c, e + 1, chitol * 2.0, done + 1);
        if !r.TrialEmpty? {
          forall j: nat | done + j + (if r.TrialSvdFailed? then 0 else 1) < r.trials
            ensures RejectedAt(trial, x, c, e, chitol, j)
          {
            if j == 0 {
              assert Doubled(chitol, j) == chitol && e + j == e;
            } else {
              var k: nat := j - 1;
              assert RejectedAt(trial, x, c, e + 1, chitol * 2.0, k);
              assert e + 1 + k == e + j;
              assert Doubled(chitol, j) == Doubled(chitol * 2.0, k);
            }
          }
        }
      }
    }
  }

  /**
   * The lam of a retry loop entered with 10**(e - done): its last trial was
   * made at lam == 10**(e - done + trials - 1), and the loop leaves lam / 10
   * after an acceptance and lam * 10 after a stall.
   */
  lemma {:induction false} TrialsLambda(trial: Trial, x: Vector, c: Start, e: int, chitol: real, done: nat)
    requires c.Normalised?
    ensures var r := Trials(trial, x, c, e, chitol, done);
      (r.Accepted? || r.Stalled?) ==>
        var lam := Pow10(e + (r.trials - done) - 1);
        && trial(x, c, lam).Evaluated? && trial(x, c, lam).xvec == r.xvec && trial(x, c, lam).chisq1 == r.chisq1
        && Pow10(ExpAfter(e - done, r)) == (if r.Accepted? then lam / 10.0 else lam * 10.0)
    decreases if e <= 1 then 2 - e else 0
  {
    var s := trial(x, c, Pow10(e));
    if s.Evaluated? {
      if s.chisq1 > c.chisq0 * (1.0 + chitol) {
        Pow10AboveTen(e + 1);
        if Pow10(e + 1) <= 10.0 {
          TrialsLambda(trial, x, c, e + 1, chitol * 2.0, done + 1);
        } else {
          Pow10Step(e);
        }
      } else {
        Pow10Step(e - 1);
      }
    }
  }

  /**
   * The retry loop ends: entered with lam == 10**e it makes at most
   * MaxTrials(e) trials, and a stall leaves lam above 10.
   */
  lemma {:induction false} TrialsBound(trial: Trial, x: Vector, c: Start, e: int, chitol: real, done: nat)
    requires c.Normalised?
    ensures var r := Trials(trial, x, c, e, chitol, done);
      && (r.Stalled? ==> e + (r.trials - done) > 1 && Pow10(e + (r.trials - done)) > 10.0)
      && ((r.Accepted? || r.Stalled?) ==> done < r.trials <= done + MaxTrials(e))
    decreases if e <= 1 then 2 - e else 0
  {
    var s := trial(x, c, Pow10(e));
    if s.Evaluated? && s.chisq1 > c.chisq0 * (1.0 + chitol) {
      Pow10AboveTen(e + 1);
      if Pow10(e + 1) <= 10.0 {
        TrialsBound(trial, x, c, e + 1, chitol * 2.0, done + 1);
      }
    }
  }

  /**
   * With a non-negative chisq0 and tolerance a stall only follows a trial that
   * raised chi-square: the bound chisq0 * (1 + chitol) is never below chisq0.
   */
  lemma {:induction false} TrialsStallRaises(trial: Trial, x: Vector, c: Start, e: int, chitol: real, done: nat)
    requires c.Normalised? && c.chisq0 >= 0.0 && chitol >= 0.0
    ensures var r := Trials(trial, x, c, e, chitol, done);
      r.Stalled? ==> r.chisq1 > c.chisq0
    decreases if e <= 1 then 2 - e else 0
  {
    var s := trial(x, c, Pow10(e));
    if s.Evaluated? && s.chisq1 > c.chisq0 * (1.0 + chitol) {
      Pow10AboveTen(e + 1);
      assert c.chisq0 * (1.0 + chitol) == c.chisq0 + c.chisq0 * chitol;
      assert c.chisq0 * chitol >= 0.0;
      if Pow10(e + 1) <= 10.0 {
        TrialsStallRaises(trial, x, c, e + 1, chitol * 2.0, done + 1);
      }
    }
  }

  /** The covariance step after the cycles. */
  function Final(o: Numerics, x: Vector, icycle: nat, nfev: nat, lamMax: real, converged: bool,
                 deltaChi2: real, xvec: Option<Vector>, xtol: real, maxcyc: int): (r: Outcome)
    requires Sound(o) && xtol >= 0.0
    ensures r.Returned? ==> r.x == x && r.info.numCyc == icycle && r.info.nfev == nfev + 1 && r.info.lamMax == lamMax
    ensures r.Returned? && r.cov.Some? ==>
      xvec.Some? && r.info.svd0 >= 0 && r.info.psing == Indices([]) &&
      r.info.converged == Present(converged) && r.info.delChi2 == Present(deltaChi2)
    ensures r.Returned? && r.cov.None? ==>
      r.info.svd0 == -1 && r.info.converged.Absent? && r.info.delChi2.Absent? && r.info.xvec.Null?
    ensures r.Returned? ==> r.info.fvec == o.func(x) && NonZero(Roots(o, o.hess(x).1))
    ensures r == Raised(DiagonalZero) <==> !NonZero(Roots(o, o.hess(x).1))
    ensures NonZero(Roots(o, o.hess(x).1)) ==>
      var p := Pinv(o.svd, DivOuter(o.hess(x).1, Roots(o, o.hess(x).1)), xtol);
      && (r == Raised(EmptyReduction) <==> p.EmptySpectrum?)
      && (p.Inverse? && xvec.Some? ==> r.Returned? && r.cov.Some?)
      && (p.SvdFailed? ==> r.Returned? && r.cov.None?)
    ensures r.Returned? && r.cov.Some? && NonZero(Roots(o, o.hess(x).1)) ==>
      var adiag := Roots(o, o.hess(x).1);
      var p := Pinv(o.svd, DivOuter(o.hess(x).1, adiag), xtol);
      && p.Inverse? && r.info.svd0 == p.nzero && r.cov.value == DivOuter(p.res, adiag)
      && r.info.xvec == Present(xvec.value)
    ensures r.Returned? && r.cov.None? && NonZero(Roots(o, o.hess(x).1)) ==>
      Pinv(o.svd, DivOuter(o.hess(x).1, Roots(o, o.hess(x).1)), xtol).SvdFailed? &&
      r.info.psing == Indices(if maxcyc != 0 then SmallIndices(o.qrDiag(o.hess(x).1)) else [])
    ensures r == Raised(XvecUnbound) <==>
      xvec.None? && NonZero(Roots(o, o.hess(x).1)) &&
      Pinv(o.svd, DivOuter(o.hess(x).1, Roots(o, o.hess(x).1)), xtol).Inverse?
  {
    var m := o.func(x);
    var amat := o.hess(x).1;
    var adiag := Roots(o, amat);
    if !NonZero(adiag) then Raised(DiagonalZero)
    else
      var p := Pinv(o.svd, DivOuter(amat, adiag), xtol);
      if p.Inverse? then
        if xvec.None? then Raised(XvecUnbound)
        else Returned(x, Some(DivOuter(p.res, adiag)),
          Info(icycle, m, nfev + 1, lamMax, Indices([]), p.nzero, Present(converged), Present(deltaChi2), Present(xvec.value)))
      else if p.SvdFailed? then
        Returned(x, None,
          Info(icycle, m, nfev + 1, lamMax, Indices(if maxcyc != 0 then SmallIndices(o.qrDiag(amat)) else []),
            -1, Absent, Absent, Null))
      else Raised(EmptyReduction)
  }

  /** The outer loop from cycle `icycle` on, at parameters x with lam == 10**e. */
  function Cycles(o: Numerics, trial: Trial, x: Vector, icycle: nat, nfev: nat, e: int, lamMax: real, deltaChi2: real,
                  xvec: Option<Vector>, ftol: real, xtol: real, maxcyc: int): Outcome
    requires Sound(o) && xtol >= 0.0
    decreases maxcyc - icycle, 2
  {
    if icycle >= maxcyc then Final(o, x, icycle, nfev, lamMax, false, deltaChi2, xvec, xtol, maxcyc)
    else OneCycle(o, trial, x, icycle, nfev, e, lamMax, ftol, xtol, maxcyc)
  }

  /** Cycle `icycle` < maxcyc and everything after it; chitol starts at ftol. */
  function OneCycle(o: Numerics, trial: Trial, x: Vector, icycle: nat, nfev: nat, e: int, lamMax: real,
                    ftol: real, xtol: real, maxcyc: int): Outcome
    requires Sound(o) && xtol >= 0.0 && icycle < maxcyc
    decreases maxcyc - icycle, 1
  {
    var c := StartCycle(o, x);
    if c.Singular? then
      Returned(x, None, Info(icycle, c.fvec, nfev + 1, lamMax, Mask(c.mask), -1, Absent, Absent, Absent))
    else
      AfterTrials(o, trial, x, icycle, nfev, e, lamMax, c, Trials(trial, x, c, e, ftol, 0), ftol, xtol, maxcyc)
  }

  /**
   * The rest of cycle `icycle` once its retry loop has ended as t: the
   * failure returns, lamMax updated with the lam left by the loop, the
   * convergence test on deltaChi2, and the next cycle.
   */
  function AfterTrials(o: Numerics, trial: Trial, x: Vector, icycle: nat, nfev: nat, e: int, lamMax: real,
                       c: Start, t: TrialEnd, ftol: real, xtol: real, maxcyc: int): Outcome
    requires Sound(o) && xtol >= 0.0 && c.Normalised? && icycle < maxcyc
    decreases maxcyc - icycle, 0
  {
    if t.TrialSvdFailed? then
      Returned(x, None, Info(icycle, c.fvec, nfev + 1 + t.trials, lamMax, Indices(t.psing), -1, Absent, Absent, Absent))
    else if t.TrialEmpty? then Raised(EmptyReduction)
    else if c.chisq0 == 0.0 then Raised(ChiSquareZero)
    else
      var x' := if t.Accepted? then t.x else x;
      var lamMax' := Max(lamMax, Pow10(ExpAfter(e, t)));
      var d := (c.chisq0 - t.chisq1) / c.chisq0;
      if d < ftol then Final(o, x', icycle, nfev + 1 + t.trials, lamMax', true, d, Some(t.xvec), xtol, maxcyc)
      else Cycles(o, trial, x', icycle + 1, nfev + 1 + t.trials, ExpAfter(e, t), lamMax', d, Some(t.xvec), ftol, xtol, maxcyc)
  }

  /** A cycle whose retry loop accepted or stalled and did not converge hands over to the next cycle. */
  lemma AfterTrialsContinues(o: Numerics, trial: Trial, x: Vector, icycle: nat, nfev: nat, e: int, lamMax: real,
                             c: Start, t: TrialEnd, ftol: real, xtol: real, maxcyc: int)
    requires Sound(o) && xtol >= 0.0 && c.Normalised? && icycle < maxcyc
    requires (t.Accepted? || t.Stalled?) && c.chisq0 != 0.0 && (c.chisq0 - t.chisq1) / c.chisq0 >= ftol
    ensures AfterTrials(o, trial, x, icycle, nfev, e, lamMax, c, t, ftol, xtol, maxcyc)
         == Cycles(o, trial, if t.Accepted? then t.x else x, icycle + 1, nfev + 1 + t.trials, ExpAfter(e, t),
                   Max(lamMax, Pow10(ExpAfter(e, t))), (c.chisq0 - t.chisq1) / c.chisq0, Some(t.xvec), ftol, xtol, maxcyc)
  {
  }

  /** A cycle whose retry loop accepted or stalled and met the tolerance goes to the covariance step. */
  lemma AfterTrialsConverges(o: Numerics, trial: Trial, x: Vector, icycle: nat, nfev: nat, e: int, lamMax: real,
                             c: Start, t: TrialEnd, ftol: real, xtol: real, maxcyc: int)
    requires Sound(o) && xtol >= 0.0 && c.Normalised? && icycle < maxcyc
    requires (t.Accepted? || t.Stalled?) && c.chisq0 != 0.0 && (c.chisq0 - t.chisq1) / c.chisq0 < ftol
    ensures AfterTrials(o, trial, x, icycle, nfev, e, lamMax, c, t, ftol, xtol, maxcyc)
         == Final(o, if t.Accepted? then t.x else x, icycle, nfev + 1 + t.trials,
                  Max(lamMax, Pow10(ExpAfter(e, t))), true, (c.chisq0 - t.chisq1) / c.chisq0, Some(t.xvec), xtol, maxcyc)
  {
  }

  /**
   * One cycle entered with lam == 10**e whose retry loop accepted or stalled:
   * its last trial was made at lam == 10**(e + trials - 1), and lamMax takes
   * the lam left after the loop's last update (lam / 10 on acceptance, lam * 10
   * on a stall), which is also the lam the next cycle starts from.
   */
  lemma CycleLambda(o: Numerics, trial: Trial, x: Vector, icycle: nat, nfev: nat, e: int, lamMax: real,
                    ftol: real, xtol: real, maxcyc: int)
    requires Sound(o) && xtol >= 0.0 && icycle < maxcyc
    ensures var c := StartCycle(o, x);
      var t := if c.Normalised? then Trials(trial, x, c, e, ftol, 0) else TrialEmpty;
      (t.Accepted? || t.Stalled?) && c.chisq0 != 0.0 ==>
        var lam := Pow10(e + t.trials - 1);
        var next := if t.Accepted? then lam / 10.0 else lam * 10.0;
        var d := (c.chisq0 - t.chisq1) / c.chisq0;
        var r := OneCycle(o, trial, x, icycle, nfev, e, lamMax, ftol, xtol, maxcyc);
        && trial(x, c, lam).Evaluated? && trial(x, c, lam).xvec == t.xvec
        && (d < ftol && r.Returned? ==> r.info.lamMax == Max(lamMax, next))
        && (d >= ftol ==>
              Pow10(ExpAfter(e, t)) == next &&
              r == Cycles(o, trial, if t.Accepted? then Add(x, t.xvec) else x, icycle + 1, nfev + 1 + t.trials,
                          ExpAfter(e, t), Max(lamMax, next), d, Some(t.xvec), ftol, xtol, maxcyc))
  {
    var c := StartCycle(o, x);
    if c.Normalised? {
      var t := Trials(trial, x, c, e, ftol, 0);
      TrialsLambda(trial, x, c, e, ftol, 0);
      TrialsShape(trial, x, c, e, ftol, 0);
      if (t.Accepted? || t.Stalled?) && c.chisq0 != 0.0 {
        if (c.chisq0 - t.chisq1) / c.chisq0 < ftol {
          AfterTrialsConverges(o, trial, x, icycle, nfev, e, lamMax, c, t, ftol, xtol, maxcyc);
        } else {
          AfterTrialsContinues(o, trial, x, icycle, nfev, e, lamMax, c, t, ftol, xtol, maxcyc);
        }
      }
    }
  }

  /** HessianLSQ(func, x0, Hess, ftol=ftol, xtol=xtol, maxcyc=maxcyc, lamda=lamda) */
  function HessianLsqSpec(o: Numerics, x0: Vector, ftol: real, xtol: real, maxcyc: int, lamda: int): Outcome
    requires Sound(o) && xtol >= 0.0
  {
    Cycles(o, TrialMaker(o, xtol), x0, 0, 0, lamda, Pow10(lamda), -10.0, None, ftol, xtol, maxcyc)
  }

  /**
   * The retry loop of one cycle started as c at x, entered with lam == 10**e
   * and nfev evaluations made so far.
   */
  method RetryLoop(trial: Trial, x: Vector, c: Start, ftol: real, lam: real, ghost e: int, nfev: nat)
    returns (t: TrialEnd, lam': real, nfev': nat)
    requires c.Normalised? && lam == Pow10(e)
    ensures t == Trials(trial, x, c, e, ftol, 0)
    ensures (t.Accepted? || t.Stalled?) ==> lam' == Pow10(ExpAfter(e, t))
    ensures !t.TrialEmpty? ==> nfev' == nfev + t.trials
  {
    lam' := lam;
    nfev' := nfev;
    var chitol := ftol;
    ghost var e' := e;
    ghost var k: nat := 0;
    ghost var t0 := Trials(trial, x, c, e, ftol, 0);
    while true
      invariant lam' == Pow10(e') && nfev' == nfev + k && e' == e + k
      invariant Trials(trial, x, c, e', chitol, k) == t0
      decreases if e' <= 1 then 2 - e' else 0
    {
      var s := trial(x, c, lam');
      if s.StepSvdFailed? {
        return TrialSvdFailed(s.psing, nfev' - nfev), lam', nfev';
      }
      if s.StepEmpty? {
        return TrialEmpty, lam', nfev';
      }
      var xvec, chisq1 := s.xvec, s.chisq1;
      nfev' := nfev' + 1;
      if chisq1 > c.chisq0 * (1.0 + chitol) {
        Pow10Step(e');
        Pow10AboveTen(e' + 1);
        lam' := lam' * 10.0;
      } else {
        Pow10Step(e' - 1);
        return Accepted(Add(x, xvec), chisq1, xvec, nfev' - nfev), lam' / 10.0, nfev';
      }
      if lam' > 10.0 {
        return Stalled(chisq1, xvec, nfev' - nfev), lam', nfev';
      }
      chitol := chitol * 2.0;
      e', k := e' + 1, k + 1;
    }
  }

  /**
   * The cycle count of the outer loop from cycle icycle on: the returned count
   * never passes maxcyc, the Converged flag is True only for a cycle before
   * maxcyc whose deltaChi2 met the tolerance and False only when the cycles
   * ran out, and every return without a covariance reports SVD0 == -1.
   */
  lemma {:induction false} CyclesCount(o: Numerics, trial: Trial, x: Vector, icycle: nat, nfev: nat, e: int,
                                       lamMax: real, deltaChi2: real, xvec: Option<Vector>,
                                       ftol: real, xtol: real, maxcyc: int)
    requires Sound(o) && xtol >= 0.0
    ensures var r := Cycles(o, trial, x, icycle, nfev, e, lamMax, deltaChi2, xvec, ftol, xtol, maxcyc);
      r.Returned? ==>
        && icycle <= r.info.numCyc
        && (icycle <= maxcyc ==> r.info.numCyc <= maxcyc)
        && (r.cov.None? ==> r.info.svd0 == -1)
        && (r.info.converged == Present(true) ==>
              r.info.numCyc < maxcyc && r.info.delChi2.Present? && r.info.delChi2.value < ftol)
        && (r.info.converged == Present(false) ==> r.info.numCyc >= maxcyc)
    decreases maxcyc - icycle
  {
    if icycle < maxcyc {
      var c := StartCycle(o, x);
      if c.Normalised? {
        var t := Trials(trial, x, c, e, ftol, 0);
        assert Cycles(o, trial, x, icycle, nfev, e, lamMax, deltaChi2, xvec, ftol, xtol, maxcyc)
            == AfterTrials(o, trial, x, icycle, nfev, e, lamMax, c, t, ftol, xtol, maxcyc);
        if (t.Accepted? || t.Stalled?) && c.chisq0 != 0.0 {
          var d := (c.chisq0 - t.chisq1) / c.chisq0;
          if d >= ftol {
            AfterTrialsContinues(o, trial, x, icycle, nfev, e, lamMax, c, t, ftol, xtol, maxcyc);
            CyclesCount(o, trial, if t.Accepted? then t.x else x, icycle + 1, nfev + 1 + t.trials, ExpAfter(e, t),
              Max(lamMax, Pow10(ExpAfter(e, t))), d, Some(t.xvec), ftol, xtol, maxcyc);
          } else {
            AfterTrialsConverges(o, trial, x, icycle, nfev, e, lamMax, c, t, ftol, xtol, maxcyc);
          }
        }
      }
    }
  }

  /** Where the residual evaluations of the outer loop happen: at cycle starts and at trial points. */
  datatype Effort = Effort(starts: nat, trials: nat)

  /**
   * The evaluations the cycles from icycle on make before the covariance
   * step: one at the start of each cycle entered (line 171) and one at each
   * trial point of its retry loop (line 196).
   */
  function Spent(o: Numerics, trial: Trial, x: Vector, icycle: nat, e: int, ftol: real, maxcyc: int): Effort
    decreases maxcyc - icycle
  {
    if icycle >= maxcyc then Effort(0, 0)
    else
      var c := StartCycle(o, x);
      if c.Singular? then Effort(1, 0)
      else
        var t := Trials(trial, x, c, e, ftol, 0);
        if t.TrialEmpty? then Effort(1, 0)
        else if t.TrialSvdFailed? || c.chisq0 == 0.0 || (c.chisq0 - t.chisq1) / c.chisq0 < ftol then Effort(1, t.trials)
        else
          var rest := Spent(o, trial, if t.Accepted? then t.x else x, icycle + 1, ExpAfter(e, t), ftol, maxcyc);
          Effort(1 + rest.starts, t.trials + rest.trials)
  }

  /**
   * The parameters at which the cycles from icycle on stop: the start of the
   * cycle that returns early or raises, or the point the covariance step is
   * taken at.
   */
  function EndPoint(o: Numerics, trial: Trial, x: Vector, icycle: nat, e: int, ftol: real, maxcyc: int): Vector
    decreases maxcyc - icycle
  {
    if icycle >= maxcyc then x
    else
      var c := StartCycle(o, x);
      if c.Singular? then x
      else
        var t := Trials(trial, x, c, e, ftol, 0);
        if !(t.Accepted? || t.Stalled?) || c.chisq0 == 0.0 then x
        else
          var x' := if t.Accepted? then t.x else x;
          if (c.chisq0 - t.chisq1) / c.chisq0 < ftol then x'
          else EndPoint(o, trial, x', icycle + 1, ExpAfter(e, t), ftol, maxcyc)
  }

  /**
   * The exact evaluation count of the outer loop from cycle icycle on: one
   * per cycle start, one per trial point, and one for the covariance step
   * unless a cycle returned early (the early returns write no 'Xvec' key).
   * Every cycle entered advances the count, except the one that returns
   * early or converges.
   */
  lemma {:induction false} CyclesEvaluations(o: Numerics, trial: Trial, x: Vector, icycle: nat, nfev: nat, e: int,
                                             lamMax: real, deltaChi2: real, xvec: Option<Vector>,
                                             ftol: real, xtol: real, maxcyc: int)
    requires Sound(o) && xtol >= 0.0
    ensures var r := Cycles(o, trial, x, icycle, nfev, e, lamMax, deltaChi2, xvec, ftol, xtol, maxcyc);
      var w := Spent(o, trial, x, icycle, e, ftol, maxcyc);
      r.Returned? ==>
        && r.info.nfev == nfev + w.starts + w.trials + (if r.info.xvec.Absent? then 0 else 1)
        && (r.info.xvec.Absent? ==> r.info.numCyc + 1 == icycle + w.starts)
        && (r.info.converged == Present(true) ==> r.info.numCyc + 1 == icycle + w.starts)
        && (r.info.converged == Present(false) ==> r.info.numCyc == icycle + w.starts)
    decreases maxcyc - icycle
  {
    if icycle < maxcyc {
      var c := StartCycle(o, x);
      if c.Normalised? {
        var t := Trials(trial, x, c, e, ftol, 0);
        assert Cycles(o, trial, x, icycle, nfev, e, lamMax, deltaChi2, xvec, ftol, xtol, maxcyc)
            == AfterTrials(o, trial, x, icycle, nfev, e, lamMax, c, t, ftol, xtol, maxcyc);
        if (t.Accepted? || t.Stalled?) && c.chisq0 != 0.0 {
          var d := (c.chisq0 - t.chisq1) / c.chisq0;
          if d >= ftol {
            AfterTrialsContinues(o, trial, x, icycle, nfev, e, lamMax, c, t, ftol, xtol, maxcyc);
            CyclesEvaluations(o, trial, if t.Accepted? then t.x else x, icycle + 1, nfev + 1 + t.trials, ExpAfter(e, t),
              Max(lamMax, Pow10(ExpAfter(e, t))), d, Some(t.xvec), ftol, xtol, maxcyc);
          } else {
            AfterTrialsConverges(o, trial, x, icycle, nfev, e, lamMax, c, t, ftol, xtol, maxcyc);
          }
        }
      }
    }
  }

  /**
   * What a fault of the cycles from icycle on says about the point where they
   * stop: the division by chisq0 fails only at a cycle start whose chi-square
   * is 0, the zero-diagonal division only at a covariance step with a zero
   * root, the empty reduction only where the roots are non-zero, and the
   * unbound Xvec only when no cycle ran; a returned result carries that point.
   */
  lemma {:induction false} CyclesFaults(o: Numerics, trial: Trial, x: Vector, icycle: nat, nfev: nat, e: int,
                                        lamMax: real, deltaChi2: real, xvec: Option<Vector>,
                                        ftol: real, xtol: real, maxcyc: int)
    requires Sound(o) && xtol >= 0.0
    ensures var r := Cycles(o, trial, x, icycle, nfev, e, lamMax, deltaChi2, xvec, ftol, xtol, maxcyc);
      var p := EndPoint(o, trial, x, icycle, e, ftol, maxcyc);
      && (r.Returned? ==> r.x == p)
      && (r == Raised(ChiSquareZero) ==> StartCycle(o, p).Normalised? && StartCycle(o, p).chisq0 == 0.0)
      && (r == Raised(DiagonalZero) ==> !NonZero(Roots(o, o.hess(p).1)))
      && (r == Raised(EmptyReduction) ==> NonZero(Roots(o, o.hess(p).1)))
      && (r == Raised(XvecUnbound) ==> xvec.None? && icycle >= maxcyc)
    decreases maxcyc - icycle
  {
    if icycle < maxcyc {
      var c := StartCycle(o, x);
      StartCycleSpec(o, x);
      if c.Normalised? {
        var t := Trials(trial, x, c, e, ftol, 0);
        TrialsShape(trial, x, c, e, ftol, 0);
        assert Cycles(o, trial, x, icycle, nfev, e, lamMax, deltaChi2, xvec, ftol, xtol, maxcyc)
            == AfterTrials(o, trial, x, icycle, nfev, e, lamMax, c, t, ftol, xtol, maxcyc);
        if (t.Accepted? || t.Stalled?) && c.chisq0 != 0.0 {
          var d := (c.chisq0 - t.chisq1) / c.chisq0;
          if d >= ftol {
            AfterTrialsContinues(o, trial, x, icycle, nfev, e, lamMax, c, t, ftol, xtol, maxcyc);
            CyclesFaults(o, trial, if t.Accepted? then t.x else x, icycle + 1, nfev + 1 + t.trials, ExpAfter(e, t),
              Max(lamMax, Pow10(ExpAfter(e, t))), d, Some(t.xvec), ftol, xtol, maxcyc);
          } else {
            AfterTrialsConverges(o, trial, x, icycle, nfev, e, lamMax, c, t, ftol, xtol, maxcyc);
          }
        }
      }
    }
  }

  /**
   * The cost of the outer loop from cycle icycle on: every cycle that hands
   * over to the next costs at least two evaluations (its start and at least
   * one trial point), the final evaluation one more, and lamMax never
   * decreases.
   */
  lemma {:induction false} CyclesEffort(o: Numerics, trial: Trial, x: Vector, icycle: nat, nfev: nat, e: int,
                                        lamMax: real, deltaChi2: real, xvec: Option<Vector>,
                                        ftol: real, xtol: real, maxcyc: int)
    requires Sound(o) && xtol >= 0.0
    ensures var r := Cycles(o, trial, x, icycle, nfev, e, lamMax, deltaChi2, xvec, ftol, xtol, maxcyc);
      r.Returned? ==>
        && icycle <= r.info.numCyc
        && r.info.nfev >= nfev + 2 * (r.info.numCyc - icycle) + 1
        && r.info.lamMax >= lamMax
    decreases maxcyc - icycle
  {
    if icycle < maxcyc {
      var c := StartCycle(o, x);
      if c.Normalised? {
        var t := Trials(trial, x, c, e, ftol, 0);
        TrialsShape(trial, x, c, e, ftol, 0);
        assert Cycles(o, trial, x, icycle, nfev, e, lamMax, deltaChi2, xvec, ftol, xtol, maxcyc)
            == AfterTrials(o, trial, x, icycle, nfev, e, lamMax, c, t, ftol, xtol, maxcyc);
        if (t.Accepted? || t.Stalled?) && c.chisq0 != 0.0 {
          var d := (c.chisq0 - t.chisq1) / c.chisq0;
          if d >= ftol {
            AfterTrialsContinues(o, trial, x, icycle, nfev, e, lamMax, c, t, ftol, xtol, maxcyc);
            CyclesEffort(o, trial, if t.Accepted? then t.x else x, icycle + 1, nfev + 1 + t.trials, ExpAfter(e, t),
              Max(lamMax, Pow10(ExpAfter(e, t))), d, Some(t.xvec), ftol, xtol, maxcyc);
          } else {
            AfterTrialsConverges(o, trial, x, icycle, nfev, e, lamMax, c, t, ftol, xtol, maxcyc);
          }
        }
      }
    }
  }

  /** The bookkeeping of a whole call, from cycle 0 with no evaluations and lamMax == 10**lamda. */
  lemma HessianLsqBookkeeping(o: Numerics, x0: Vector, ftol: real, xtol: real, maxcyc: int, lamda: int)
    requires Sound(o) && xtol >= 0.0
    ensures var r := HessianLsqSpec(o, x0, ftol, xtol, maxcyc, lamda);
      r.Returned? ==>
        && (maxcyc >= 0 ==> r.info.numCyc <= maxcyc)
        && r.info.nfev >= 2 * r.info.numCyc + 1
        && r.info.lamMax >= Pow10(lamda)
        && (r.cov.None? ==> r.info.svd0 == -1)
        && (r.info.converged == Present(true) ==>
              r.info.numCyc < maxcyc && r.info.delChi2.Present? && r.info.delChi2.value < ftol)
        && (r.info.converged == Present(false) ==> r.info.numCyc >= maxcyc)
    ensures var r := HessianLsqSpec(o, x0, ftol, xtol, maxcyc, lamda);
      var w := Spent(o, TrialMaker(o, xtol), x0, 0, lamda, ftol, maxcyc);
      r.Returned? ==> r.info.nfev == w.starts + w.trials + (if r.info.xvec.Absent? then 0 else 1)
  {
    var trial := TrialMaker(o, xtol);
    CyclesCount(o, trial, x0, 0, 0, lamda, Pow10(lamda), -10.0, None, ftol, xtol, maxcyc);
    CyclesEffort(o, trial, x0, 0, 0, lamda, Pow10(lamda), -10.0, None, ftol, xtol, maxcyc);
    CyclesEvaluations(o, trial, x0, 0, 0, lamda, Pow10(lamda), -10.0, None, ftol, xtol, maxcyc);
  }

  /**
   * With maxcyc <= 0 no cycle runs and no covariance is ever returned: the
   * covariance step reads Xvec, which only a cycle binds, so a successful
   * final inversion ends in the unbound-local error; the call returns exactly
   * when the final inversion fails, and then gives x0 after the one final
   * evaluation, with the QR singular list only when maxcyc is non-zero.
   */
  lemma NoCyclesNoCovariance(o: Numerics, x0: Vector, ftol: real, xtol: real, maxcyc: int, lamda: int)
    requires Sound(o) && xtol >= 0.0 && maxcyc <= 0
    ensures var r := HessianLsqSpec(o, x0, ftol, xtol, maxcyc, lamda);
      && (r.Returned? ==>
            r.cov.None? && r.x == x0 && r.info.numCyc == 0 && r.info.nfev == 1 && r.info.svd0 == -1 &&
            r.info.converged.Absent? && r.info.xvec.Null? && (maxcyc == 0 ==> r.info.psing == Indices([])))
      && (r == Raised(XvecUnbound) <==>
            NonZero(Roots(o, o.hess(x0).1)) &&
            Pinv(o.svd, DivOuter(o.hess(x0).1, Roots(o, o.hess(x0).1)), xtol).Inverse?)
    ensures var r := HessianLsqSpec(o, x0, ftol, xtol, maxcyc, lamda);
      var a := o.hess(x0).1;
      r.Returned? <==> NonZero(Roots(o, a)) && Pinv(o.svd, DivOuter(a, Roots(o, a)), xtol).SvdFailed?
  {
  }

  /**
   * The faults of a whole refinement, located at the parameters where its
   * cycles stop: ChiSquareZero only at a cycle start whose chi-square is 0,
   * DiagonalZero only at a covariance step with a zero root, and the unbound
   * Xvec only when maxcyc <= 0.
   */
  lemma HessianLsqFaults(o: Numerics, x0: Vector, ftol: real, xtol: real, maxcyc: int, lamda: int)
    requires Sound(o) && xtol >= 0.0
    ensures var r := HessianLsqSpec(o, x0, ftol, xtol, maxcyc, lamda);
      var p := EndPoint(o, TrialMaker(o, xtol), x0, 0, lamda, ftol, maxcyc);
      && (r.Returned? ==> r.x == p)
      && (r == Raised(ChiSquareZero) ==> StartCycle(o, p).Normalised? && StartCycle(o, p).chisq0 == 0.0)
      && (r == Raised(DiagonalZero) ==> !NonZero(Roots(o, o.hess(p).1)))
      && (r == Raised(EmptyReduction) ==> NonZero(Roots(o, o.hess(p).1)))
      && (r == Raised(XvecUnbound) ==> maxcyc <= 0)
  {
    CyclesFaults(o, TrialMaker(o, xtol), x0, 0, 0, lamda, Pow10(lamda), -10.0, None, ftol, xtol, maxcyc);
  }

  /**
   * A cycle whose retry loop stalls (lam passed 10 without an acceptance)
   * with chisq0 > 0 and ftol >= 0 has a negative deltaChi2, so it counts as
   * converged: the refinement goes to the covariance step with x unchanged
   * instead of starting another cycle.
   */
  lemma StallConverges(o: Numerics, trial: Trial, x: Vector, icycle: nat, nfev: nat, e: int, lamMax: real,
                       ftol: real, xtol: real, maxcyc: int, c: Start, t: TrialEnd)
    requires Sound(o) && xtol >= 0.0 && icycle < maxcyc && ftol >= 0.0
    requires c.Normalised? && c.chisq0 > 0.0
    requires t == Trials(trial, x, c, e, ftol, 0) && t.Stalled?
    ensures (c.chisq0 - t.chisq1) / c.chisq0 < 0.0
    ensures AfterTrials(o, trial, x, icycle, nfev, e, lamMax, c, t, ftol, xtol, maxcyc)
         == Final(o, x, icycle, nfev + 1 + t.trials, Max(lamMax, Pow10(e + t.trials)), true,
                  (c.chisq0 - t.chisq1) / c.chisq0, Some(t.xvec), xtol, maxcyc)
  {
    TrialsStallRaises(trial, x, c, e, ftol, 0);
    NegativeOverPositive(c.chisq0 - t.chisq1, c.chisq0);
    AfterTrialsConverges(o, trial, x, icycle, nfev, e, lamMax, c, t, ftol, xtol, maxcyc);
  }

  /**
   * The two early exits of a cycle return the current x without a covariance
   * and with SVD0 == -1: a square-rooted diagonal entry below 1e-14 returns
   * the mask of such entries after the one evaluation at the cycle start; a
   * failed decomposition in the retry loop returns the QR singular list after
   * the evaluations of the trials made so far.
   */
  lemma EarlyExits(o: Numerics, trial: Trial, x: Vector, icycle: nat, nfev: nat, e: int, lamMax: real,
                   ftol: real, xtol: real, maxcyc: int)
    requires Sound(o) && xtol >= 0.0 && icycle < maxcyc
    ensures var r := OneCycle(o, trial, x, icycle, nfev, e, lamMax, ftol, xtol, maxcyc);
      StartCycle(o, x).Singular? ==>
        r == Returned(x, None, Info(icycle, o.func(x), nfev + 1, lamMax, Mask(SmallMask(Roots(o, o.hess(x).1))),
                                    -1, Absent, Absent, Absent))
    ensures var c := StartCycle(o, x);
      var r := OneCycle(o, trial, x, icycle, nfev, e, lamMax, ftol, xtol, maxcyc);
      c.Normalised? && Trials(trial, x, c, e, ftol, 0).TrialSvdFailed? ==>
        && r.Returned? && r.x == x && r.cov.None? && r.info.svd0 == -1
        && r.info.nfev == nfev + 1 + Trials(trial, x, c, e, ftol, 0).trials
        && r.info.psing == Indices(Trials(trial, x, c, e, ftol, 0).psing)
  {
    StartCycleSpec(o, x);
  }

  /** What one pass of the outer loop body ends in. */
  datatype CycleEnd =
    | Stop(r: Outcome)
    | Converged(x: Vector, nfev: nat, lamMax: real, deltaChi2: real, xvec: Vector)
    | Continue(x: Vector, nfev: nat, lam: real, lamMax: real, deltaChi2: real, xvec: Vector)

  /**
   * One pass of the outer loop body: a return of the solver, a convergence,
   * or the state the next cycle starts from, with lam == 10**e'.
   */
  method RunCycle(o: Numerics, trial: Trial, x: Vector, icycle: nat, nfev: nat, lam: real, ghost e: int,
                  lamMax: real, ftol: real, xtol: real, maxcyc: int)
    returns (r: CycleEnd, ghost e': int)
    requires Sound(o) && xtol >= 0.0 && icycle < maxcyc && lam == Pow10(e)
    ensures r.Stop? ==> r.r == OneCycle(o, trial, x, icycle, nfev, e, lamMax, ftol, xtol, maxcyc)
    ensures r.Converged? ==>
      OneCycle(o, trial, x, icycle, nfev, e, lamMax, ftol, xtol, maxcyc) ==
      Final(o, r.x, icycle, r.nfev, r.lamMax, true, r.deltaChi2, Some(r.xvec), xtol, maxcyc)
    ensures r.Continue? ==>
      r.lam == Pow10(e') &&
      OneCycle(o, trial, x, icycle, nfev, e, lamMax, ftol, xtol, maxcyc) ==
      Cycles(o, trial, r.x, icycle + 1, r.nfev, e', r.lamMax, r.deltaChi2, Some(r.xvec), ftol, xtol, maxcyc)
  {
    e' := e;
    var c := StartCycle(o, x);
    if c.Singular? {
      return Stop(Returned(x, None, Info(icycle, c.fvec, nfev + 1, lamMax, Mask(c.mask), -1, Absent, Absent, Absent))), e';
    }
    var t, lam', nfev' := RetryLoop(trial, x, c, ftol, lam, e, nfev + 1);
    if t.TrialSvdFailed? {
      return Stop(Returned(x, None, Info(icycle, c.fvec, nfev', lamMax, Indices(t.psing), -1, Absent, Absent, Absent))), e';
    }
    if t.TrialEmpty? {
      return Stop(Raised(EmptyReduction)), e';
    }
    e' := ExpAfter(e, t);
    var x' := if t.Accepted? then t.x else x;
    var lamMax' := Max(lamMax, lam');
    if c.chisq0 == 0.0 {
      return Stop(Raised(ChiSquareZero)), e';
    }
    var deltaChi2 := (c.chisq0 - t.chisq1) / c.chisq0;
    if deltaChi2 < ftol {
      AfterTrialsConverges(o, trial, x, icycle, nfev, e, lamMax, c, t, ftol, xtol, maxcyc);
      return Converged(x', nfev', lamMax', deltaChi2, t.xvec), e';
    }
    AfterTrialsContinues(o, trial, x, icycle, nfev, e, lamMax, c, t, ftol, xtol, maxcyc);
    return Continue(x', nfev', lam', lamMax', deltaChi2, t.xvec), e';
  }

  /** The solver itself: the outer loop over cycles, threading x, nfev, lam and lamMax. */
  method HessianLSQ(o: Numerics, x0: Vector, ftol: real, xtol: real, maxcyc: int, lamda: int) returns (r: Outcome)
    requires Sound(o) && xtol >= 0.0
    ensures r == HessianLsqSpec(o, x0, ftol, xtol, maxcyc, lamda)
  {
    var trial := TrialMaker(o, xtol);
    var converged := false;
    var deltaChi2 := -10.0;
    var x := x0;
    var icycle: nat := 0;
    var lam := Pow10(lamda);
    ghost var e := lamda;
    var lamMax := lam;
    var nfev: nat := 0;
    var lastXvec: Option<Vector> := None;
    while icycle < maxcyc
      invariant lam == Pow10(e) && !converged
      invariant Cycles(o, trial, x, icycle, nfev, e, lamMax, deltaChi2, lastXvec, ftol, xtol, maxcyc)
             == HessianLsqSpec(o, x0, ftol, xtol, maxcyc, lamda)
      decreases maxcyc - icycle
    {
      var step;
      step, e := RunCycle(o, trial, x, icycle, nfev, lam, e, lamMax, ftol, xtol, maxcyc);
      match step
      case Stop(out) =>
        return out;
      case Converged(x', nfev', lamMax', d, xv) =>
        x, nfev, lamMax, deltaChi2, lastXvec := x', nfev', lamMax', d, Some(xv);
        converged := true;
        break;
      case Continue(x', nfev', lam', lamMax', d, xv) =>
        x, nfev, lam, lamMax, deltaChi2, lastXvec := x', nfev', lam', lamMax', d, Some(xv);
        icycle := icycle + 1;
    }
    r := Final(o, x, icycle, nfev, lamMax, converged, deltaChi2, lastXvec, xtol, maxcyc);
  }
}
