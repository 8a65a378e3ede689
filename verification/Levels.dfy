/** The files of each level, the key hull of a compaction's inputs, the bottommost test and the
    per-level cursor that answers "can this key still exist below the output level?". */
module Levels {
  import opened Records

  datatype FileMeta = FileMeta(number: nat, smallest: Key, largest: Key)

  datatype InputLevel = InputLevel(level: nat, files: seq<FileMeta>)

  datatype Compaction = Compaction(
    levels: seq<seq<FileMeta>>,
    inputs: seq<InputLevel>,
    outputLevel: nat,
    universal: bool)

  predicate Holds(f: FileMeta, k: Key) {
    f.smallest <= k <= f.largest
  }

  predicate Overlaps(f: FileMeta, lo: Key, hi: Key) {
    f.smallest <= hi && lo <= f.largest
  }

  /** Files above level 0: each range is proper and ranges follow one another.  Neighbours may share
      one user key, because versions of a key can be spread over two files. */
  predicate SortedLevel(files: seq<FileMeta>) {
    && (forall i :: 0 <= i < |files| ==> files[i].smallest <= files[i].largest)
    && (forall i, j :: 0 <= i < j < |files| ==> files[i].largest <= files[j].smallest)
  }

  predicate WellFormed(c: Compaction) {
    && c.outputLevel < |c.levels|
    && (forall lvl :: 0 < lvl < |c.levels| ==> SortedLevel(c.levels[lvl]))
    && (forall i :: 0 <= i < |c.inputs| ==>
          if c.inputs[i].level > 0 then SortedLevel(c.inputs[i].files)
          else forall j :: 0 <= j < |c.inputs[i].files| ==> c.inputs[i].files[j].smallest <= c.inputs[i].files[j].largest)
    && (exists i :: 0 <= i < |c.inputs| && c.inputs[i].files != [])
    && (c.inputs[0].level == 0 ==> c.inputs[0].files != [] && c.levels[0] != [])
  }

  // ---- The hull of the inputs ----

  ghost predicate InputFile(inputs: seq<InputLevel>, f: FileMeta) {
    exists i :: 0 <= i < |inputs| && f in inputs[i].files
  }

  /** The tightest interval around all input files. */
  ghost predicate IsHull(inputs: seq<InputLevel>, lo: Key, hi: Key) {
    && (forall f :: InputFile(inputs, f) ==> lo <= f.smallest && f.largest <= hi)
    && (exists f :: InputFile(inputs, f) && f.smallest == lo)
    && (exists f :: InputFile(inputs, f) && f.largest == hi)
  }

  ghost predicate PrefixHull(inputs: seq<InputLevel>, initialized: bool, lo: Key, hi: Key) {
    if initialized then IsHull(inputs, lo, hi) else forall f :: !InputFile(inputs, f)
  }

  lemma InputFileSnoc(inputs: seq<InputLevel>, last: InputLevel)
    ensures forall f :: InputFile(inputs + [last], f) <==> InputFile(inputs, f) || f in last.files
  {
    var all := inputs + [last];
    assert all[|inputs|] == last;
    forall f ensures InputFile(all, f) <==> InputFile(inputs, f) || f in last.files {
      if InputFile(inputs, f) {
        var i :| 0 <= i < |inputs| && f in inputs[i].files;
        assert all[i] == inputs[i];
      }
    }
  }

  /** Adding a level whose files lie in [a, b], with both ends attained, widens the hull. */
  lemma HullSnoc(inputs: seq<InputLevel>, last: InputLevel, initialized: bool, lo: Key, hi: Key, a: Key, b: Key)
    requires PrefixHull(inputs, initialized, lo, hi)
    requires forall f :: f in last.files ==> a <= f.smallest && f.largest <= b
    requires (exists f :: f in last.files && f.smallest == a) && (exists f :: f in last.files && f.largest == b)
    ensures IsHull(inputs + [last],
                   if !initialized || a < lo then a else lo, if !initialized || b > hi then b else hi)
  {
    InputFileSnoc(inputs, last);
  }

  /** Bounds of one level's files: every file matters in level 0, only the first and the last above it. */
  method LevelBounds(l: InputLevel) returns (a: Key, b: Key)
    requires l.files != [] && (l.level > 0 ==> SortedLevel(l.files))
    ensures forall f :: f in l.files ==> a <= f.smallest && f.largest <= b
    ensures exists f :: f in l.files && f.smallest == a
    ensures exists f :: f in l.files && f.largest == b
  {
    a, b := l.files[0].smallest, l.files[|l.files| - 1].largest;
    if l.level == 0 {
      b := l.files[0].largest;
      for j := 1 to |l.files|
        invariant forall m :: 0 <= m < j ==> a <= l.files[m].smallest && l.files[m].largest <= b
        invariant exists f :: f in l.files && f.smallest == a
        invariant exists f :: f in l.files && f.largest == b
      {
        if l.files[j].smallest < a { a := l.files[j].smallest; }
        if l.files[j].largest > b { b := l.files[j].largest; }
      }
    }
  }

  method GetBoundaryKeys(inputs: seq<InputLevel>) returns (lo: Key, hi: Key)
    requires forall i :: 0 <= i < |inputs| && inputs[i].level > 0 ==> SortedLevel(inputs[i].files)
    requires exists i :: 0 <= i < |inputs| && inputs[i].files != []
    ensures IsHull(inputs, lo, hi)
  {
    var initialized := false;
    lo, hi := 0.0, 0.0;
    for i := 0 to |inputs|
      invariant PrefixHull(inputs[..i], initialized, lo, hi)
      invariant initialized <==> exists j :: 0 <= j < i && inputs[j].files != []
    {
      assert inputs[..i + 1] == inputs[..i] + [inputs[i]];
      if inputs[i].files == [] {
        InputFileSnoc(inputs[..i], inputs[i]);
      } else {
        var a, b := LevelBounds(inputs[i]);
        HullSnoc(inputs[..i], inputs[i], initialized, lo, hi, a, b);
        if !initialized || a < lo { lo := a; }
        if !initialized || b > hi { hi := b; }
        initialized := true;
      }
    }
    assert inputs[..|inputs|] == inputs;
  }

  // ---- The bottommost test ----

  /** The oldest level-0 file is among the inputs, or level 0 is not an input level. */
  predicate ReachesOldestLevel0(c: Compaction)
    requires WellFormed(c)
  {
    c.inputs[0].level == 0 ==>
      c.inputs[0].files[|c.inputs[0].files| - 1] == c.levels[0][|c.levels[0]| - 1]
  }

  /** No deeper file overlaps the hull; with output level 0 there is no deeper file at all. */
  ghost predicate NothingBelow(c: Compaction, lo: Key, hi: Key) {
    forall lvl :: c.outputLevel < lvl < |c.levels| ==> LevelClear(c, lvl, lo, hi)
  }

  ghost predicate LevelClear(c: Compaction, lvl: nat, lo: Key, hi: Key)
    requires lvl < |c.levels|
  {
    forall i :: 0 <= i < |c.levels[lvl]| ==> c.outputLevel > 0 && !Overlaps(c.levels[lvl][i], lo, hi)
  }

  method OverlapInLevel(files: seq<FileMeta>, lo: Key, hi: Key) returns (b: bool)
    requires SortedLevel(files) && lo <= hi
    ensures b <==> exists i :: 0 <= i < |files| && Overlaps(files[i], lo, hi)
  {
    // First file whose largest key is not before `lo`.
    var index := 0;
    while index < |files| && files[index].largest < lo
      invariant index <= |files|
      invariant forall i :: 0 <= i < index ==> files[i].largest < lo
    {
      index := index + 1;
    }
    if index >= |files| { return false; }
    b := files[index].smallest <= hi;
    if b { assert Overlaps(files[index], lo, hi); }
  }

  method IsBottommostLevel(c: Compaction) returns (b: bool, lo: Key, hi: Key)
    requires WellFormed(c)
    ensures IsHull(c.inputs, lo, hi)
    ensures b <==> ReachesOldestLevel0(c) && NothingBelow(c, lo, hi)
  {
    lo, hi := GetBoundaryKeys(c.inputs);
    if c.inputs[0].level == 0 && c.inputs[0].files[|c.inputs[0].files| - 1] != c.levels[0][|c.levels[0]| - 1] {
      return false, lo, hi;
    }
    assert lo <= hi by {
      var f :| InputFile(c.inputs, f) && f.smallest == lo;
      assert f.smallest <= f.largest;
    }
    for lvl := c.outputLevel + 1 to |c.levels|
      invariant forall l :: c.outputLevel < l < lvl ==> LevelClear(c, l, lo, hi)
    {
      if |c.levels[lvl]| > 0 {
        if c.outputLevel == 0 {
          assert !LevelClear(c, lvl, lo, hi) by { assert Holds(c.levels[lvl][0], c.levels[lvl][0].smallest); }
          return false, lo, hi;
        }
        var overlap := OverlapInLevel(c.levels[lvl], lo, hi);
        if overlap {
          assert !LevelClear(c, lvl, lo, hi);
          return false, lo, hi;
        }
      }
    }
    b := true;
  }

  // ---- KeyNotExistsBeyondOutputLevel ----

  /** The stateless answer: no file of a deeper level spans the key. */
  ghost predicate AbsentBelow(c: Compaction, k: Key) {
    forall lvl, i :: c.outputLevel < lvl < |c.levels| && 0 <= i < |c.levels[lvl]| ==> !Holds(c.levels[lvl][i], k)
  }

  /** Level-style answers for every key of a bottommost compaction. */
  lemma BottommostKeyAbsentBelow(c: Compaction, lo: Key, hi: Key, k: Key)
    requires NothingBelow(c, lo, hi) && lo <= k <= hi
    ensures AbsentBelow(c, k)
  {
    forall lvl, i | c.outputLevel < lvl < |c.levels| && 0 <= i < |c.levels[lvl]|
      ensures !Holds(c.levels[lvl][i], k)
    {
      assert LevelClear(c, lvl, lo, hi);
    }
  }

  /** Files the cursors have passed end before `k`. */
  ghost predicate CursorsFit(c: Compaction, ptrs: seq<nat>, k: Key) {
    && |ptrs| == |c.levels|
    && (forall lvl :: c.outputLevel < lvl < |c.levels| ==> ptrs[lvl] <= |c.levels[lvl]|)
    && (forall lvl, i :: c.outputLevel < lvl < |c.levels| && 0 <= i < ptrs[lvl] && i < |c.levels[lvl]| ==>
                           c.levels[lvl][i].largest < k)
  }

  lemma CursorsFitLater(c: Compaction, ptrs: seq<nat>, k: Key, k': Key)
    requires CursorsFit(c, ptrs, k) && k <= k'
    ensures CursorsFit(c, ptrs, k')
  {
  }

  method KeyNotExistsBeyondOutputLevel(c: Compaction, bottommost: bool, k: Key, ptrs: array<nat>)
    returns (absent: bool)
    requires WellFormed(c)
    requires CursorsFit(c, ptrs[..], k)
    modifies ptrs
    ensures CursorsFit(c, ptrs[..], k)
    ensures absent <==> if c.universal then bottommost else AbsentBelow(c, k)
  {
    if c.universal { return bottommost; }
    for lvl := c.outputLevel + 1 to |c.levels|
      invariant CursorsFit(c, ptrs[..], k)
      invariant forall l, i :: c.outputLevel < l < lvl && 0 <= i < |c.levels[l]| ==> !Holds(c.levels[l][i], k)
    {
      var files := c.levels[lvl];
      while ptrs[lvl] < |files|
        invariant CursorsFit(c, ptrs[..], k)
        invariant ptrs[lvl] <= |files|
        decreases |files| - ptrs[lvl]
      {
        var f := files[ptrs[lvl]];
        if k <= f.largest {
          if f.smallest <= k {
            assert Holds(c.levels[lvl][ptrs[lvl]], k);
            return false;
          }
          break;
        }
        ptrs[lvl] := ptrs[lvl] + 1;
      }
      assert forall i :: 0 <= i < |files| ==> !Holds(files[i], k);
    }
    absent := true;
  }

  /** Any run of queries with non-decreasing keys gets, from the remembered cursors, exactly the
      answers of a full scan. */
  method AnswerAll(c: Compaction, bottommost: bool, keys: seq<Key>) returns (answers: seq<bool>)
    requires WellFormed(c)
    requires forall i, j :: 0 <= i < j < |keys| ==> keys[i] <= keys[j]
    ensures |answers| == |keys|
    ensures forall i :: 0 <= i < |keys| ==>
                          (answers[i] <==> if c.universal then bottommost else AbsentBelow(c, keys[i]))
  {
    var ptrs := new nat[|c.levels|](_ => 0);
    answers := [];
    for n := 0 to |keys|
      invariant |answers| == n
      invariant n < |keys| ==> CursorsFit(c, ptrs[..], keys[n])
      invariant forall i :: 0 <= i < n ==>
                              (answers[i] <==> if c.universal then bottommost else AbsentBelow(c, keys[i]))
    {
      var a := KeyNotExistsBeyondOutputLevel(c, bottommost, keys[n], ptrs);
      answers := answers + [a];
      if n + 1 < |keys| { CursorsFitLater(c, ptrs[..], keys[n], keys[n + 1]); }
    }
  }
}
