/**
 * GSASIIpath.SetConfigValue and GSASIIpath.addPrevGPX: merging new settings
 * into the configuration dictionary, and keeping the list of the five most
 * recently used project files.
 */
module ConfigSettings {
  import opened Wrappers
  import opened LinAlg
  import opened Lists

  /** A configuration value. Python's cross-type equalities (True == 1) are not modelled. */
  datatype Datum = NoneValue | Text(s: string) | Number(n: int) | Flag(b: bool)

  /** An entry of the dictionary handed to SetConfigValue: a tuple, or a list [default, value]. */
  datatype Param = TupleParam(items: seq<Datum>) | ListParam(default: Datum, value: Datum)

  /** What SetConfigValue stores for a key: a tuple whole, or the value of a list. */
  datatype Stored = Whole(items: seq<Datum>) | Single(d: Datum)

  /**
   * Whether a parameter leaves a stored value: a tuple always does; a list
   * only when its value is not None, not '' and differs from its default.
   */
  predicate Kept(p: Param)
  {
    p.TupleParam? || (p.value != NoneValue && p.value != Text("") && p.value != p.default)
  }

  function StoredOf(p: Param): Stored
  {
    if p.TupleParam? then Whole(p.items) else Single(p.value)
  }

  /** The dictionary after merging `parm` into `prior`. */
  function Merged(prior: map<string, Stored>, parm: map<string, Param>): (r: map<string, Stored>)
    ensures forall k :: k in parm ==> (k in r <==> Kept(parm[k]))
    ensures forall k :: k in parm && Kept(parm[k]) ==> r[k] == StoredOf(parm[k])
    ensures forall k :: k !in parm ==> (k in r <==> k in prior)
    ensures forall k :: k !in parm && k in prior ==> r[k] == prior[k]
  {
    map k | k in prior.Keys + parm.Keys && (k in parm ==> Kept(parm[k])) :: if k in parm then StoredOf(parm[k]) else prior[k]
  }

  /** Merging the same settings twice is merging them once. */
  lemma MergeIdempotent(prior: map<string, Stored>, parm: map<string, Param>)
    ensures Merged(Merged(prior, parm), parm) == Merged(prior, parm)
  {
  }

  /**
   * A list whose value equals its default, or is None or '', removes any
   * value stored for its key before, whatever that was.
   */
  lemma DefaultClears(prior: map<string, Stored>, parm: map<string, Param>, k: string)
    requires k in parm && parm[k].ListParam?
    requires parm[k].value == parm[k].default || parm[k].value == NoneValue || parm[k].value == Text("")
    ensures k !in Merged(prior, parm)
  {
  }

  /** The global configuration dictionary. */
  class ConfigDict {
    var entries: map<string, Stored>

    constructor(initial: map<string, Stored>)
      ensures entries == initial
    {
      entries := initial;
    }

    /** SetConfigValue(parmdict): every key of parmdict is deleted, then stored again if it is kept. */
    method SetConfigValue(parmdict: map<string, Param>)
      modifies this
      ensures entries == Merged(old(entries), parmdict)
    {
      var todo := parmdict.Keys;
      ghost var done: map<string, Param> := map[];
      while todo != {}
        invariant todo <= parmdict.Keys && done.Keys == parmdict.Keys - todo
        invariant forall k :: k in done ==> done[k] == parmdict[k]
        invariant entries == Merged(old(entries), done)
        decreases todo
      {
        var key :| key in todo;
        Store(key, parmdict[key]);
        MergeStep(old(entries), done, key, parmdict[key]);
        todo := todo - {key};
        done := done[key := parmdict[key]];
      }
      assert done == parmdict;
    }

    /** One round of SetConfigValue's loop: delete var, then store it again if it is kept. */
    method Store(key: string, p: Param)
      modifies this
      ensures entries == Merged(old(entries), map[key := p])
    {
      if key in entries {
        entries := entries - {key};
      }
      if p.TupleParam? {
        entries := entries[key := Whole(p.items)];
      } else if p.value != NoneValue && p.value != Text("") && p.default != p.value {
        entries := entries[key := Single(p.value)];
      }
      StoreOne(old(entries), key, p);
    }
  }

  /** Deleting a key and storing it again if kept is merging a one-key dictionary. */
  lemma StoreOne(prior: map<string, Stored>, key: string, p: Param)
    ensures Merged(prior, map[key := p]) == if Kept(p) then (prior - {key})[key := StoredOf(p)] else prior - {key}
  {
  }

  /** Merging one more key after a partial merge is merging the larger dictionary. */
  lemma MergeStep(prior: map<string, Stored>, done: map<string, Param>, key: string, p: Param)
    requires key !in done
    ensures Merged(Merged(prior, done), map[key := p]) == Merged(prior, done[key := p])
  {
  }

  /** The list after addPrevGPX(fil) moves or inserts fil at the front, for a key that is present. */
  function RemoveFirst(xs: seq<string>, x: string): (r: seq<string>)
    ensures x !in xs ==> r == xs
    ensures x in xs ==> |r| == |xs| - 1
    ensures x in xs ==> exists p :: 0 <= p < |xs| && xs[p] == x && x !in xs[..p] && r == xs[..p] + xs[p + 1..]
  {
    match IndexOf(xs, x)
    case None => xs
    case Some(p) =>
      assert x !in xs[..p];
      xs[..p] + xs[p + 1..]
  }

  /**
   * The recent-files list after opening fil: unchanged when fil is already
   * first; otherwise fil, then the prior list without its first occurrence of
   * fil, cut to five entries.
   */
  function Recent(fil: string, files: seq<string>): seq<string>
  {
    if |files| > 0 && files[0] == fil then files
    else
      var moved := [fil] + RemoveFirst(files, fil);
      moved[..Min(5, |moved|)]
  }

  /**
   * fil ends up first; a list that changed holds at most five entries, one
   * more than before when fil was new and as many when it was moved, up to
   * that bound; every other entry comes from the prior list.
   */
  lemma RecentShape(fil: string, files: seq<string>)
    ensures var r := Recent(fil, files);
      && |r| > 0 && r[0] == fil
      && (r != files ==> |r| == Min(5, if fil in files then |files| else |files| + 1))
      && forall x :: x in r ==> x == fil || x in files
  {
    var r := Recent(fil, files);
    if !(|files| > 0 && files[0] == fil) {
      var rest := RemoveFirst(files, fil);
      forall x | x in r
        ensures x == fil || x in files
      {
        var i :| 0 <= i < |r| && r[i] == x;
        if i > 0 {
          assert x == rest[i - 1];
          RemoveFirstFrom(files, fil, i - 1);
        }
      }
    }
  }

  /** Every entry left by RemoveFirst was in the list. */
  lemma RemoveFirstFrom(xs: seq<string>, x: string, i: nat)
    requires i < |RemoveFirst(xs, x)|
    ensures RemoveFirst(xs, x)[i] in xs
  {
    var k := IndexOf(xs, x);
    if k.Some? {
      DropFrom(xs, k.value, i);
    }
  }

  lemma DropFrom(xs: seq<string>, p: nat, i: nat)
    requires p < |xs| && i < |xs| - 1
    ensures (xs[..p] + xs[p + 1..])[i] == if i < p then xs[i] else xs[i + 1]
  {
  }

  /** Opening the same file twice in a row is opening it once. */
  lemma RecentIdempotent(fil: string, files: seq<string>)
    ensures Recent(fil, Recent(fil, files)) == Recent(fil, files)
  {
    RecentShape(fil, files);
  }

  predicate Distinct(xs: seq<string>)
  {
    forall i, j :: 0 <= i < j < |xs| ==> xs[i] != xs[j]
  }

  /** A list without repeats stays without repeats: fil is not left behind a second time. */
  lemma RecentDistinct(fil: string, files: seq<string>)
    requires Distinct(files)
    ensures Distinct(Recent(fil, files))
  {
    var r := Recent(fil, files);
    if !(|files| > 0 && files[0] == fil) {
      var rest := RemoveFirst(files, fil);
      var moved := [fil] + rest;
      RemoveFirstDistinct(files, fil);
      forall i, j | 0 <= i < j < |moved|
        ensures moved[i] != moved[j]
      {
        if i == 0 {
          assert moved[j] == rest[j - 1];
        } else {
          assert moved[i] == rest[i - 1] && moved[j] == rest[j - 1];
        }
      }
      assert forall i :: 0 <= i < |r| ==> r[i] == moved[i];
    }
  }

  /** Removing the first occurrence from a list without repeats removes every occurrence. */
  lemma RemoveFirstDistinct(xs: seq<string>, x: string)
    requires Distinct(xs)
    ensures Distinct(RemoveFirst(xs, x)) && x !in RemoveFirst(xs, x)
  {
    var i := IndexOf(xs, x);
    if i.Some? {
      DropDistinct(xs, i.value);
    }
  }

  /** Dropping the entry at p from a list without repeats leaves a list without repeats and without that entry. */
  lemma DropDistinct(xs: seq<string>, p: nat)
    requires Distinct(xs) && p < |xs|
    ensures Distinct(xs[..p] + xs[p + 1..]) && xs[p] !in xs[..p] + xs[p + 1..]
  {
    var r := xs[..p] + xs[p + 1..];
    assert forall i :: 0 <= i < p ==> r[i] == xs[i];
    assert forall i :: p <= i < |r| ==> r[i] == xs[i + 1];
  }

  /**
   * The 'previous_GPX_files' entry of a configuration dictionary, by its
   * value element: Absent when the key is missing, Null when it is None.
   */
  class PreviousFiles {
    var slot: Slot<seq<string>>

    constructor(initial: Slot<seq<string>>)
      ensures slot == initial
    {
      slot := initial;
    }

    /**
     * addPrevGPX(fil, configDict), with fil already absolute: nothing without
     * the key; a None list is replaced by [] first.
     */
    method AddPrevGpx(fil: string)
      modifies this
      ensures old(slot).Absent? ==> slot == old(slot)
      ensures old(slot).Null? ==> slot == Present([fil])
      ensures old(slot).Present? ==> slot == Present(Recent(fil, old(slot).value))
    {
      if slot.Absent? {
        return;
      }
      var files: seq<string> := [];
      if slot.Present? {
        var pos := IndexOf(slot.value, fil);
        if pos == Some(0) {
          return;
        }
        files := slot.value;
        if pos.Some? {
          files := files[..pos.value] + files[pos.value + 1..];
        }
      }
      files := [fil] + files;
      slot := Present(files[..Min(5, |files|)]);
    }
  }
}
