/**
 * GSASIIpath.commonPath: whether two directories lie on one path, one being
 * the other or inside it. A path is given by its components as
 * GSASIIpath.fullsplit lists them: the root first, then one name per level.
 */
module PathPrefix {

  /** Whether one component list is a prefix of the other (`<=` is Dafny's sequence prefix). */
  predicate Shares(a: seq<string>, b: seq<string>)
  {
    a <= b || b <= a
  }

  /**
   * The loop of commonPath over zip(a, b): it compares components pairwise
   * until the shorter list ends and answers False at the first difference.
   */
  method CommonPath(a: seq<string>, b: seq<string>) returns (r: bool)
    ensures r <==> Shares(a, b)
  {
    var i := 0;
    while i < |a| && i < |b|
      invariant 0 <= i <= |a| && i <= |b|
      invariant a[..i] == b[..i]
    {
      if a[i] != b[i] {
        assert a[..i + 1] != b[..i + 1] by {
          assert a[..i + 1][i] == a[i] && b[..i + 1][i] == b[i];
        }
        PrefixesAgree(a, b, i + 1);
        return false;
      }
      assert a[..i + 1] == a[..i] + [a[i]] && b[..i + 1] == b[..i] + [b[i]];
      i := i + 1;
    }
    if i == |a| {
      assert a[..i] == a;
    } else {
      assert b[..i] == b;
    }
    return true;
  }

  /** Two lists that share a path agree on every common position. */
  lemma PrefixesAgree(a: seq<string>, b: seq<string>, n: nat)
    requires n <= |a| && n <= |b| && a[..n] != b[..n]
    ensures !Shares(a, b)
  {
  }

  /** Sharing a path does not depend on the order of the arguments, and every path shares one with itself. */
  lemma SharesSymmetric(a: seq<string>, b: seq<string>)
    ensures Shares(a, b) <==> Shares(b, a)
    ensures Shares(a, a)
  {
  }

  /**
   * The components fullsplit(d) lists: those of os.path.dirname(d), so a
   * path below the root loses its last name.
   */
  function DirnameParts(p: seq<string>): (r: seq<string>)
    ensures |p| >= 2 ==> r == p[..|p| - 1]
    ensures |p| < 2 ==> r == p
  {
    if |p| >= 2 then p[..|p| - 1] else p
  }

  /** commonPath(dir1, dir2) as written: the comparison runs on the dirname components. */
  predicate CommonPathAsWritten(p1: seq<string>, p2: seq<string>)
  {
    Shares(DirnameParts(p1), DirnameParts(p2))
  }

  /** Two sibling directories are reported as sharing a path, because their common parent is all that is compared. */
  lemma SiblingsShareAsWritten()
    ensures CommonPathAsWritten(["/", "a", "b", "c", "d"], ["/", "a", "b", "c", "e"])
    ensures CommonPathAsWritten(["/", "opt", "conda"], ["/", "usr"])
  {
    assert DirnameParts(["/", "a", "b", "c", "d"]) == ["/", "a", "b", "c"];
    assert DirnameParts(["/", "a", "b", "c", "e"]) == ["/", "a", "b", "c"];
    assert DirnameParts(["/", "opt", "conda"]) == ["/", "opt"];
    assert DirnameParts(["/", "usr"]) == ["/"];
  }

  /**
   * The comparison on the directories' own components, which CommonPath
   * models: a directory shares a path with its subdirectories, and two
   * different subdirectories of one parent do not.
   */
  lemma DirectoriesCompared()
    ensures Shares(["/", "a", "b", "c"], ["/", "a", "b", "c", "d"])
    ensures !Shares(["/", "a", "b", "c", "d"], ["/", "a", "b", "c", "e"])
    ensures !Shares(["/", "opt", "conda"], ["/", "usr"])
  {
    assert ["/", "a", "b", "c", "d"][..4] == ["/", "a", "b", "c"];
    assert ["/", "a", "b", "c", "d"][4] != ["/", "a", "b", "c", "e"][4];
    assert ["/", "opt", "conda"][1] != ["/", "usr"][1];
  }
}
