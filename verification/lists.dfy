/**
 * Python's list.index on sequences of strings, shared by the covariance
 * lookup and the recent-files list.
 */
module Lists {
  import opened Wrappers

  /** list.index(x): the position of the first occurrence of x, or None for the ValueError. */
  function IndexOf(xs: seq<string>, x: string): (r: Option<nat>)
    ensures r.None? <==> x !in xs
    ensures r.Some? ==> r.value < |xs| && xs[r.value] == x && forall j :: 0 <= j < r.value ==> xs[j] != x
  {
    if |xs| == 0 then None
    else if xs[0] == x then Some(0)
    else match IndexOf(xs[1..], x)
      case None => None
      case Some(i) => Some(i + 1)
  }

  /** The first position of x is the one IndexOf reports. */
  lemma FirstIndex(xs: seq<string>, x: string, a: nat)
    requires a < |xs| && xs[a] == x && forall j :: 0 <= j < a ==> xs[j] != x
    ensures IndexOf(xs, x) == Some(a)
  {
    assert x in xs;
  }
}
