/**
 * The SVD-thresholded pseudo-inverse used by both least-squares solvers
 * (GSASIImath.pinv). The decomposition itself is an oracle handed in by the
 * caller; what is modelled exactly is what pinv does with its output: the
 * cutoff rcond * max(s), the reciprocal-or-zero rule, the count of zeros and
 * the product V . diag(s+) . U^T.
 */
module PseudoInverse {
  import opened LinAlg

  /** What nl.svd returns: the factors u, s, vt, or a LinAlgError when it does not converge. */
  datatype SvdOutcome = Factors(u: Matrix, s: Vector, vt: Matrix) | NoConvergence

  /**
   * The outcome of pinv: the pseudo-inverse and its number of zeroed singular
   * values; the LinAlgError of the decomposition; or the ValueError numpy raises
   * when the maximum of an empty list of singular values is taken.
   */
  datatype PinvResult = Inverse(res: Matrix, nzero: int) | SvdFailed | EmptySpectrum

  /** Singular values are never negative. */
  predicate SvdSound(f: SvdOutcome)
  {
    f.Factors? ==> forall k :: 0 <= k < |f.s| ==> f.s[k] >= 0.0
  }

  /** np.maximum.reduce(s) */
  function MaxOf(s: Vector): (m: real)
    requires |s| > 0
    ensures m in s && forall k :: 0 <= k < |s| ==> s[k] <= m
  {
    if |s| == 1 then s[0]
    else
      var rest := MaxOf(s[1..]);
      assert forall k :: 1 <= k < |s| ==> s[k] == s[1..][k - 1];
      if s[0] >= rest then s[0] else rest
  }

  /** cutoff = rcond * np.maximum.reduce(s) */
  function Cutoff(s: Vector, rcond: real): (c: real)
    requires |s| > 0 && rcond >= 0.0 && forall k :: 0 <= k < |s| ==> s[k] >= 0.0
    ensures c >= 0.0
  {
    rcond * MaxOf(s)
  }

  /** np.where(s > cutoff, 1./s, 0.) */
  function Reciprocals(s: Vector, cutoff: real): (r: Vector)
    requires cutoff >= 0.0
    ensures |r| == |s|
    ensures forall k :: 0 <= k < |s| && s[k] > cutoff ==> r[k] > 0.0 && r[k] * s[k] == 1.0
    ensures forall k :: 0 <= k < |s| && s[k] <= cutoff ==> r[k] == 0.0
  {
    seq(|s|, k requires 0 <= k < |s| => if s[k] > cutoff then 1.0 / s[k] else 0.0)
  }

  /** np.count_nonzero(r) */
  function CountNonzero(r: Vector): nat
  {
    if |r| == 0 then 0 else (if r[0] != 0.0 then 1 else 0) + CountNonzero(r[1..])
  }

  /** The number of singular values at or below the cutoff. */
  function CutCount(s: Vector, cutoff: real): nat
  {
    if |s| == 0 then 0 else (if s[0] <= cutoff then 1 else 0) + CutCount(s[1..], cutoff)
  }

  /** Every value of s is kept or cut, so the nonzero reciprocals and the cut values add up to n. */
  lemma {:induction false} KeptPlusCut(s: Vector, cutoff: real)
    requires cutoff >= 0.0
    ensures CountNonzero(Reciprocals(s, cutoff)) + CutCount(s, cutoff) == |s|
  {
    if |s| > 0 {
      KeptPlusCut(s[1..], cutoff);
      assert Reciprocals(s, cutoff)[1..] == Reciprocals(s[1..], cutoff);
    }
  }

  /** No value is cut exactly when every value exceeds the cutoff. */
  lemma {:induction false} CutCountZero(s: Vector, cutoff: real)
    ensures CutCount(s, cutoff) == 0 <==> forall k :: 0 <= k < |s| ==> s[k] > cutoff
    ensures CutCount(s, cutoff) <= |s|
  {
    if |s| > 0 {
      CutCountZero(s[1..], cutoff);
      assert forall k :: 1 <= k < |s| ==> s[k] == s[1..][k - 1];
    }
  }

  /** Term k of entry (i, j) of V . diag(sinv) . U^T, summed from k on. */
  function ProductFrom(u: Matrix, sinv: Vector, vt: Matrix, i: int, j: int, k: nat): real
    decreases |sinv| - k
  {
    if k >= |sinv| then 0.0
    else At(vt, k, i) * sinv[k] * At(u, j, k) + ProductFrom(u, sinv, vt, i, j, k + 1)
  }

  /** np.dot(vt.T, s[:, nxs] * u.T) for n-by-n factors. */
  function Product(u: Matrix, sinv: Vector, vt: Matrix, n: nat): (r: Matrix)
    ensures |r| == n && forall i :: 0 <= i < n ==> |r[i]| == n
  {
    seq(n, i requires 0 <= i < n => seq(n, j requires 0 <= j < n => ProductFrom(u, sinv, vt, i, j, 0)))
  }

  /** pinv(a, rcond), with the decomposition supplied by `svd`. */
  function Pinv(svd: Matrix -> SvdOutcome, a: Matrix, rcond: real): (r: PinvResult)
    requires rcond >= 0.0 && SvdSound(svd(a))
    ensures r.SvdFailed? <==> svd(a).NoConvergence?
    ensures r.EmptySpectrum? <==> svd(a).Factors? && |svd(a).s| == 0
    ensures r.Inverse? ==> |r.res| == |a| && (forall i :: 0 <= i < |a| ==> |r.res[i]| == |a|) && 0 <= r.nzero <= |svd(a).s|
    ensures r.Inverse? ==> r.nzero == CutCount(svd(a).s, Cutoff(svd(a).s, rcond))
    ensures r.Inverse? ==> (r.nzero == 0 <==> forall k :: 0 <= k < |svd(a).s| ==> svd(a).s[k] > Cutoff(svd(a).s, rcond))
  {
    var f := svd(a);
    if f.NoConvergence? then SvdFailed
    else if |f.s| == 0 then EmptySpectrum
    else
      var cutoff := Cutoff(f.s, rcond);
      var sinv := Reciprocals(f.s, cutoff);
      KeptPlusCut(f.s, cutoff);
      CutCountZero(f.s, cutoff);
      Inverse(Product(f.u, sinv, f.vt, |a|), |f.s| - CountNonzero(sinv))
  }

  lemma {:induction false} ProductFromAllCut(u: Matrix, sinv: Vector, vt: Matrix, i: int, j: int, k: nat)
    requires forall m :: 0 <= m < |sinv| ==> sinv[m] == 0.0
    ensures ProductFrom(u, sinv, vt, i, j, k) == 0.0
    decreases |sinv| - k
  {
    if k < |sinv| {
      ProductFromAllCut(u, sinv, vt, i, j, k + 1);
    }
  }

  /**
   * When no singular value exceeds the cutoff (a zero matrix, say), every
   * value is counted as a zero and the pseudo-inverse is the zero matrix.
   */
  lemma PinvAllCut(svd: Matrix -> SvdOutcome, a: Matrix, rcond: real)
    requires rcond >= 0.0 && SvdSound(svd(a)) && svd(a).Factors? && |svd(a).s| > 0
    requires forall k :: 0 <= k < |svd(a).s| ==> svd(a).s[k] <= Cutoff(svd(a).s, rcond)
    ensures Pinv(svd, a, rcond).Inverse?
    ensures Pinv(svd, a, rcond).nzero == |svd(a).s|
    ensures forall i, j :: 0 <= i < |a| && 0 <= j < |a| ==> Pinv(svd, a, rcond).res[i][j] == 0.0
  {
    var f := svd(a);
    var cutoff := Cutoff(f.s, rcond);
    var sinv := Reciprocals(f.s, cutoff);
    var res := Product(f.u, sinv, f.vt, |a|);
    assert Pinv(svd, a, rcond) == Inverse(res, |f.s| - CountNonzero(sinv));
    CutCountAll(f.s, cutoff);
    forall i, j | 0 <= i < |a| && 0 <= j < |a|
      ensures res[i][j] == 0.0
    {
      ProductFromAllCut(f.u, sinv, f.vt, i, j, 0);
    }
  }

  lemma {:induction false} CutCountAll(s: Vector, cutoff: real)
    requires forall k :: 0 <= k < |s| ==> s[k] <= cutoff
    ensures CutCount(s, cutoff) == |s|
  {
    if |s| > 0 {
      assert forall k :: 1 <= k < |s| ==> s[k] == s[1..][k - 1];
      CutCountAll(s[1..], cutoff);
    }
  }
}
