/**
 * GSASIImath.getVCov: the variance-covariance sub-matrix for a chosen set of
 * refined variables, read out of the full matrix of the last refinement.
 * A name that is not among the refined variables gets zero rows and columns.
 */
module Covariance {
  import opened Wrappers
  import opened LinAlg
  import opened Lists

  /**
   * The full matrix belongs to the variable list it was saved with: it is
   * square, one row and column per refined variable.
   */
  predicate Matches(varyList: seq<string>, cov: Matrix)
  {
    |cov| == |varyList| && forall i :: 0 <= i < |cov| ==> |cov[i]| == |varyList|
  }

  /** Entry (i1, i2) of the result: the covariance of the two names, or 0.0 when either is not refined. */
  function Entry(varyNames: seq<string>, varyList: seq<string>, cov: Matrix, i1: nat, i2: nat): real
    requires Matches(varyList, cov) && i1 < |varyNames| && i2 < |varyNames|
  {
    match (IndexOf(varyList, varyNames[i1]), IndexOf(varyList, varyNames[i2]))
    case (Some(a), Some(b)) => cov[a][b]
    case _ => 0.0
  }

  /** getVCov(varyNames, varyList, covMatrix): fills a fresh n-by-n matrix entry by entry, row by row. */
  method GetVCov(varyNames: seq<string>, varyList: seq<string>, cov: Matrix) returns (vcov: array2<real>)
    requires Matches(varyList, cov)
    ensures vcov.Length0 == |varyNames| && vcov.Length1 == |varyNames|
    ensures forall i1, i2 :: 0 <= i1 < |varyNames| && 0 <= i2 < |varyNames| ==>
      vcov[i1, i2] == Entry(varyNames, varyList, cov, i1, i2)
  {
    var n := |varyNames|;
    vcov := new real[n, n]((_, _) => 0.0);
    var i1 := 0;
    while i1 < n
      invariant 0 <= i1 <= n
      invariant forall p, q :: 0 <= p < i1 && 0 <= q < n ==> vcov[p, q] == Entry(varyNames, varyList, cov, p, q)
    {
      var i2 := 0;
      while i2 < n
        invariant 0 <= i2 <= n
        invariant forall p, q :: 0 <= p < i1 && 0 <= q < n ==> vcov[p, q] == Entry(varyNames, varyList, cov, p, q)
        invariant forall q :: 0 <= q < i2 ==> vcov[i1, q] == Entry(varyNames, varyList, cov, i1, q)
      {
        var a := IndexOf(varyList, varyNames[i1]);
        var b := IndexOf(varyList, varyNames[i2]);
        if a.Some? && b.Some? {
          vcov[i1, i2] := cov[a.value][b.value];
        } else {
          vcov[i1, i2] := 0.0;
        }
        i2 := i2 + 1;
      }
      i1 := i1 + 1;
    }
  }

  /** A name that is not refined has a zero row and a zero column. */
  lemma UnrefinedIsZero(varyNames: seq<string>, varyList: seq<string>, cov: Matrix, i1: nat, i2: nat)
    requires Matches(varyList, cov) && i1 < |varyNames| && i2 < |varyNames|
    requires varyNames[i1] !in varyList || varyNames[i2] !in varyList
    ensures Entry(varyNames, varyList, cov, i1, i2) == 0.0
  {
  }

  /**
   * A pair of refined names gets the full matrix's entry at the first
   * positions of those names in the variable list.
   */
  lemma RefinedIsRead(varyNames: seq<string>, varyList: seq<string>, cov: Matrix, i1: nat, i2: nat, a: nat, b: nat)
    requires Matches(varyList, cov) && i1 < |varyNames| && i2 < |varyNames| && a < |varyList| && b < |varyList|
    requires varyList[a] == varyNames[i1] && forall j :: 0 <= j < a ==> varyList[j] != varyNames[i1]
    requires varyList[b] == varyNames[i2] && forall j :: 0 <= j < b ==> varyList[j] != varyNames[i2]
    ensures Entry(varyNames, varyList, cov, i1, i2) == cov[a][b]
  {
    FirstIndex(varyList, varyNames[i1], a);
    FirstIndex(varyList, varyNames[i2], b);
  }

  /** A symmetric full matrix gives a symmetric sub-matrix. */
  lemma EntrySymmetric(varyNames: seq<string>, varyList: seq<string>, cov: Matrix, i1: nat, i2: nat)
    requires Matches(varyList, cov) && i1 < |varyNames| && i2 < |varyNames|
    requires forall a, b :: 0 <= a < |cov| && 0 <= b < |cov| ==> cov[a][b] == cov[b][a]
    ensures Entry(varyNames, varyList, cov, i1, i2) == Entry(varyNames, varyList, cov, i2, i1)
  {
  }

  /** Asking for all refined variables, each named once, in their own order gives back the full matrix. */
  lemma AllNamesGiveFullMatrix(varyList: seq<string>, cov: Matrix, i1: nat, i2: nat)
    requires Matches(varyList, cov) && i1 < |varyList| && i2 < |varyList|
    requires forall p, q :: 0 <= p < q < |varyList| ==> varyList[p] != varyList[q]
    ensures Entry(varyList, varyList, cov, i1, i2) == cov[i1][i2]
  {
    FirstIndex(varyList, varyList[i1], i1);
    FirstIndex(varyList, varyList[i2], i2);
  }
}
