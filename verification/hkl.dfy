/**
 * GSASIImath.adjHKLmax: rounds the maximum Miller indices of a Fourier map
 * grid up to multiples the grid needs for the Laue symmetry: 6, 6, 4 for the
 * trigonal and hexagonal classes, 4, 4, 4 otherwise.
 */
module HklLimits {

  /** The Laue classes whose a and b grid counts must be multiples of 6. */
  predicate Hexagonal(laue: string)
  {
    laue in ["3", "3m1", "31m", "6/m", "6/mmm"]
  }

  /** The multiple the grid count along axis k (0, 1 or 2) is rounded up to. */
  function Period(laue: string, k: nat): (m: int)
    ensures m == 4 || m == 6
    ensures m == 6 <==> Hexagonal(laue) && k < 2
  {
    if Hexagonal(laue) && k < 2 then 6 else 4
  }

  /** Multiplying by a positive m keeps the order of the factors; MultipleDivides rests on it. */
  lemma ScaleMonotone(p: int, q: int, m: int)
    requires m > 0
    ensures p <= q <==> p * m <= q * m
  {
    if p <= q {
      assert q * m - p * m == (q - p) * m;
    } else {
      assert p * m - q * m == (p - q) * m;
    }
  }

  /**
   * A multiple of m leaves no remainder and divides back to its factor; the
   * rounding lemmas below use it to show that a rounded maximum stays put.
   */
  lemma MultipleDivides(q: int, m: int)
    requires m > 0
    ensures (q * m) / m == q && (q * m) % m == 0
  {
    var d, r := (q * m) / m, (q * m) % m;
    assert q * m == d * m + r && 0 <= r < m;
    if d < q {
      ScaleMonotone(d + 1, q, m);
    } else if d > q {
      ScaleMonotone(q + 1, d, m);
    }
  }

  /** The rounded value is the multiple -floor(-h / m) * m, at most m - 1 above h. */
  lemma RoundUpFacts(h: int, m: int)
    requires m > 0
    ensures var r := -((-h) / m) * m;
      r % m == 0 && h <= r < h + m && r == (-((-h) / m)) * m
  {
    var d := (-h) / m;
    assert -h == d * m + (-h) % m;
    assert -(d * m) == (-d) * m;
    MultipleDivides(-d, m);
  }

  /** int(math.ceil(h / m)) * m: the least multiple of m that is at least h. */
  function RoundUp(h: int, m: int): (r: int)
    requires m > 0
    ensures r % m == 0 && h <= r < h + m
  {
    RoundUpFacts(h, m);
    -((-h) / m) * m
  }

  /** Rounding up gives the least multiple of m at or above h. */
  lemma RoundUpLeast(h: int, m: int, q: int)
    requires m > 0 && h <= q * m
    ensures RoundUp(h, m) <= q * m
  {
    RoundUpFacts(h, m);
    var p := -((-h) / m);
    assert (q + 1) * m == q * m + m;
    ScaleMonotone(q + 1, p, m);
    ScaleMonotone(p, q, m);
  }

  /** A multiple of m is left alone. */
  lemma RoundUpKeepsMultiple(h: int, m: int)
    requires m > 0 && h % m == 0
    ensures RoundUp(h, m) == h
  {
    assert h == (h / m) * m;
    RoundUpLeast(h, m, h / m);
  }

  /** Rounding twice is rounding once. */
  lemma RoundUpIdempotent(h: int, m: int)
    requires m > 0
    ensures RoundUp(RoundUp(h, m), m) == RoundUp(h, m)
  {
    RoundUpKeepsMultiple(RoundUp(h, m), m);
  }

  /** The adjusted maxima, as a function of the old ones. */
  function Adjusted(laue: string, hmax: seq<int>): (r: seq<int>)
    requires |hmax| >= 3
    ensures |r| == |hmax|
    ensures forall k :: 0 <= k < 3 ==> r[k] % Period(laue, k) == 0 && hmax[k] <= r[k] < hmax[k] + Period(laue, k)
    ensures r[3..] == hmax[3..]
  {
    [RoundUp(hmax[0], Period(laue, 0)), RoundUp(hmax[1], Period(laue, 1)), RoundUp(hmax[2], Period(laue, 2))] + hmax[3..]
  }

  /** Adjusting grid maxima that were already adjusted changes nothing. */
  lemma AdjustedIdempotent(laue: string, hmax: seq<int>)
    requires |hmax| >= 3
    ensures Adjusted(laue, Adjusted(laue, hmax)) == Adjusted(laue, hmax)
  {
    var a := Adjusted(laue, hmax);
    forall k | 0 <= k < 3
      ensures RoundUp(a[k], Period(laue, k)) == a[k]
    {
      RoundUpKeepsMultiple(a[k], Period(laue, k));
    }
  }

  /** adjHKLmax(SGData, Hmax): rounds the first three entries of Hmax in place. */
  method AdjHklMax(laue: string, hmax: array<int>)
    requires hmax.Length >= 3
    modifies hmax
    ensures hmax[..] == Adjusted(laue, old(hmax[..]))
  {
    var a, b := 6, 4;
    if !Hexagonal(laue) {
      a := 4;
    }
    hmax[0] := -((-hmax[0]) / a) * a;
    hmax[1] := -((-hmax[1]) / a) * a;
    hmax[2] := -((-hmax[2]) / b) * b;
  }
}
