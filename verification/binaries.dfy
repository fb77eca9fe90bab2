/**
 * The choice of a binary distribution by numpy version, in
 * GSASIIpath.DownloadG2Binaries and GSASIIpath.SetBinaryPath. Versions are
 * the integers of intver; the list of available versions is the sorted list
 * of the keys of a dictionary, so it is strictly increasing.
 */
module BinaryChoice {
  import opened Wrappers

  predicate StrictlySorted(vs: seq<int>)
  {
    forall i, j :: 0 <= i < j < |vs| ==> vs[i] < vs[j]
  }

  /** The largest available version at or below `cur`, if any. */
  function AtMost(vs: seq<int>, cur: int): (r: Option<int>)
    ensures r.None? <==> forall i :: 0 <= i < |vs| ==> vs[i] > cur
    ensures r.Some? ==> r.value in vs && r.value <= cur && forall i :: 0 <= i < |vs| && vs[i] <= cur ==> vs[i] <= r.value
  {
    if |vs| == 0 then None
    else
      var rest := AtMost(vs[1..], cur);
      assert forall i :: 1 <= i < |vs| ==> vs[i] == vs[1..][i - 1];
      if vs[0] <= cur && (rest.None? || rest.value < vs[0]) then Some(vs[0]) else rest
  }

  /** The smallest available version above `cur`, if any. */
  function Above(vs: seq<int>, cur: int): (r: Option<int>)
    ensures r.None? <==> forall i :: 0 <= i < |vs| ==> vs[i] <= cur
    ensures r.Some? ==> r.value in vs && r.value > cur && forall i :: 0 <= i < |vs| && vs[i] > cur ==> r.value <= vs[i]
  {
    if |vs| == 0 then None
    else
      var rest := Above(vs[1..], cur);
      assert forall i :: 1 <= i < |vs| ==> vs[i] == vs[1..][i - 1];
      if vs[0] > cur && (rest.None? || vs[0] < rest.value) then Some(vs[0]) else rest
  }

  /**
   * The distribution DownloadG2Binaries picks for numpy version inpver: none
   * when no binaries are listed; the oldest when inpver is older than all of
   * them; the newest when inpver is at or past it; otherwise the newest one
   * not newer than inpver.
   */
  method SelectDistVersion(vs: seq<int>, inpver: int) returns (vsel: Option<int>)
    requires StrictlySorted(vs)
    ensures vsel.None? <==> |vs| == 0
    ensures |vs| > 0 && inpver < vs[0] ==> vsel == Some(vs[0])
    ensures |vs| > 0 && inpver >= vs[0] ==> vsel == AtMost(vs, inpver)
  {
    if |vs| == 0 {
      return None;
    }
    var lo, hi := vs[0], vs[|vs| - 1];
    if inpver < lo {
      return Some(lo);
    }
    if inpver >= hi {
      return Some(hi);
    }
    var sel := lo;
    var i := 0;
    while i < |vs|
      invariant 0 <= i <= |vs|
      invariant forall k :: 0 <= k < i ==> vs[k] <= inpver
      invariant i > 0 ==> sel == vs[i - 1]
      invariant i == 0 ==> sel == lo
    {
      if vs[i] <= inpver {
        sel := vs[i];
      } else {
        break;
      }
      i := i + 1;
    }
    FloorOfSorted(vs, inpver, i);
    return Some(sel);
  }

  /** In a sorted list, every entry from the first one above cur onwards is above cur. */
  lemma RestAbove(vs: seq<int>, cur: int, i: nat)
    requires StrictlySorted(vs) && i < |vs| && vs[i] > cur
    ensures forall k :: i <= k < |vs| ==> vs[k] > cur
  {
    forall k | i < k < |vs|
      ensures vs[k] > cur
    {
      assert vs[i] < vs[k];
    }
  }

  /**
   * In a sorted list whose first i entries are at or below cur and whose
   * next entry, if any, is above it, the largest entry at or below cur is the
   * i-th, and the smallest above it the (i+1)-th.
   */
  lemma FloorOfSorted(vs: seq<int>, cur: int, i: nat)
    requires StrictlySorted(vs) && i <= |vs|
    requires forall k :: 0 <= k < i ==> vs[k] <= cur
    requires i < |vs| ==> vs[i] > cur
    ensures i > 0 ==> AtMost(vs, cur) == Some(vs[i - 1])
    ensures i == 0 ==> AtMost(vs, cur).None?
    ensures i < |vs| ==> Above(vs, cur) == Some(vs[i])
    ensures i == |vs| ==> Above(vs, cur).None?
  {
    if i < |vs| {
      RestAbove(vs, cur, i);
    }
    FloorIs(vs, cur, i);
    CeilingIs(vs, cur, i);
  }

  lemma FloorIs(vs: seq<int>, cur: int, i: nat)
    requires StrictlySorted(vs) && i <= |vs|
    requires forall k :: 0 <= k < i ==> vs[k] <= cur
    requires forall k :: i <= k < |vs| ==> vs[k] > cur
    ensures i > 0 ==> AtMost(vs, cur) == Some(vs[i - 1])
    ensures i == 0 ==> AtMost(vs, cur).None?
  {
    if i > 0 {
      var r := AtMost(vs, cur).value;
      assert vs[i - 1] <= r;
    }
  }

  lemma CeilingIs(vs: seq<int>, cur: int, i: nat)
    requires StrictlySorted(vs) && i <= |vs|
    requires forall k :: 0 <= k < i ==> vs[k] <= cur
    requires forall k :: i <= k < |vs| ==> vs[k] > cur
    ensures i < |vs| ==> Above(vs, cur) == Some(vs[i])
    ensures i == |vs| ==> Above(vs, cur).None?
  {
    if i < |vs| {
      assert vs[i] > cur;
      var r := Above(vs, cur).value;
      assert r <= vs[i];
    }
  }

  /**
   * The loop of SetBinaryPath: vmin is the newest version not newer than
   * inpver, vmax the oldest newer one; either is None when there is none.
   */
  method BracketVersions(vs: seq<int>, inpver: int) returns (vmin: Option<int>, vmax: Option<int>)
    requires StrictlySorted(vs)
    ensures vmin == AtMost(vs, inpver)
    ensures vmax == Above(vs, inpver)
  {
    vmin, vmax := None, None;
    var i := 0;
    while i < |vs|
      invariant 0 <= i <= |vs|
      invariant forall k :: 0 <= k < i ==> vs[k] <= inpver
      invariant vmin == if i == 0 then None else Some(vs[i - 1])
      invariant vmax.None?
    {
      if vs[i] <= inpver {
        vmin := Some(vs[i]);
      } else if vs[i] > inpver {
        vmax := Some(vs[i]);
        break;
      }
      i := i + 1;
    }
    FloorOfSorted(vs, inpver, i);
  }

  /**
   * The chosen distribution is always one that is listed, and when inpver is
   * not older than every listing it is never newer than inpver.
   */
  lemma SelectionListed(vs: seq<int>, inpver: int)
    requires |vs| > 0 && StrictlySorted(vs)
    ensures inpver >= vs[0] ==> AtMost(vs, inpver).Some? && AtMost(vs, inpver).value in vs && AtMost(vs, inpver).value <= inpver
    ensures inpver >= vs[|vs| - 1] ==> AtMost(vs, inpver) == Some(vs[|vs| - 1])
  {
    if inpver >= vs[|vs| - 1] {
      FloorOfSorted(vs, inpver, |vs|);
    }
  }
}
