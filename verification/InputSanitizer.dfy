/** Completing a user-supplied set of input files.  The result is the least set that contains the
    user's files and is closed under key overlap across levels. */
module InputSanitizer {
  import opened Records

  datatype SstFile = SstFile(number: nat, smallest: Key, largest: Key, beingCompacted: bool)

  type Levels = seq<seq<SstFile>>

  ghost predicate WellFormed(levels: Levels, out: nat) {
    && out < |levels|
    && (forall l, i :: 0 <= l < |levels| && 0 <= i < |levels[l]| ==> levels[l][i].smallest <= levels[l][i].largest)
    && (forall l, i, j :: 0 < l < |levels| && 0 <= i < j < |levels[l]| ==> levels[l][i].largest <= levels[l][j].smallest)
    && (forall l, i, l', i' ::
          0 <= l < |levels| && 0 <= i < |levels[l]| && 0 <= l' < |levels| && 0 <= i' < |levels[l']| ==>
            (levels[l][i].number == levels[l'][i'].number ==> l == l' && i == i'))
  }

  /** File `i` of level `l` exists and is chosen. */
  predicate Chosen(levels: Levels, s: set<nat>, l: nat, i: nat) {
    l < |levels| && i < |levels[l]| && levels[l][i].number in s
  }

  /** The files `a` and `b` span keys that `g` touches. */
  predicate Spanned(a: SstFile, g: SstFile, b: SstFile) {
    a.smallest <= g.largest && g.smallest <= b.largest
  }

  /** Whatever touches the key hull of chosen files of levels up to `m` is chosen at level m > 0. */
  ghost predicate ClosedUnderOverlap(levels: Levels, out: nat, s: set<nat>, below: nat)
    requires out < |levels|
  {
    forall la: nat, a: nat, lb: nat, b: nat, m: nat, g: nat ::
      && Chosen(levels, s, la, a) && Chosen(levels, s, lb, b) && la < below && lb < below
      && la <= m && lb <= m && 0 < m <= out && g < |levels[m]|
      && Spanned(levels[la][a], levels[m][g], levels[lb][b])
      ==> Chosen(levels, s, m, g)
  }

  /** Level 0 is ordered by age: everything between two chosen files is chosen. */
  ghost predicate Level0Contiguous(levels: Levels, s: set<nat>) {
    forall a: nat, f: nat, b: nat :: Chosen(levels, s, 0, a) && Chosen(levels, s, 0, b) && a <= f <= b ==>
                                       Chosen(levels, s, 0, f)
  }

  ghost predicate Closed(levels: Levels, out: nat, s: set<nat>)
    requires out < |levels|
  {
    ClosedUnderOverlap(levels, out, s, out + 1) && Level0Contiguous(levels, s)
  }

  /** A file that no closed superset of the user's files can leave out. */
  ghost predicate Needed(levels: Levels, out: nat, user: set<nat>, n: nat)
    requires out < |levels|
  {
    forall t: set<nat> :: user <= t && Closed(levels, out, t) ==> n in t
  }

  // ---- HaveOverlappingKeyRanges ----

  /** The source's case analysis is interval overlap. */
  predicate HaveOverlappingKeyRanges(a: SstFile, b: SstFile)
    requires a.smallest <= a.largest && b.smallest <= b.largest
    ensures HaveOverlappingKeyRanges(a, b) <==> a.smallest <= b.largest && b.smallest <= a.largest
  {
    if a.smallest >= b.smallest && a.smallest <= b.largest then true
    else if a.smallest < b.smallest && a.largest >= b.smallest then true
    else if a.largest <= b.largest && a.largest >= b.smallest then true
    else a.largest > b.largest && a.smallest <= b.largest
  }

  // ---- Progress of the main loop ----

  /** [lo, hi] is the key hull of the chosen files of levels below `l`. */
  ghost predicate Hull(levels: Levels, s: set<nat>, l: nat, lo: Key, hi: Key) {
    && (forall k: nat, i: nat :: k < l && Chosen(levels, s, k, i) ==> lo <= levels[k][i].smallest && levels[k][i].largest <= hi)
    && (exists k: nat, i: nat :: k < l && Chosen(levels, s, k, i) && levels[k][i].smallest == lo)
    && (exists k: nat, i: nat :: k < l && Chosen(levels, s, k, i) && levels[k][i].largest == hi)
  }

  ghost predicate NoneChosen(levels: Levels, s: set<nat>, l: nat) {
    forall k: nat, i: nat :: k < l ==> !Chosen(levels, s, k, i)
  }

  ghost predicate Progress(levels: Levels, out: nat, user: set<nat>, s: set<nat>, l: nat, isFirst: bool, lo: Key, hi: Key)
    requires out < |levels| && l <= out + 1
  {
    && user <= s && (forall n :: n in s ==> Needed(levels, out, user, n))
    && (if isFirst then Hull(levels, s, l, lo, hi) else NoneChosen(levels, s, l))
    && ClosedUnderOverlap(levels, out, s, l) && (l > 0 ==> Level0Contiguous(levels, s))
    && (forall k: nat, i: nat :: k < l && Chosen(levels, s, k, i) ==> !levels[k][i].beingCompacted)
  }

  /** A file of this level that must be chosen is being compacted: no closed choice can work. */
  ghost predicate Blocked(levels: Levels, out: nat, user: set<nat>)
    requires out < |levels|
  {
    exists l: nat, i: nat :: l <= out && i < |levels[l]| && levels[l][i].beingCompacted
                             && Needed(levels, out, user, levels[l][i].number)
  }

  // ---- Steps of one iteration ----

  method FindIncluded(levels: Levels, s: set<nat>, l: nat) returns (found: bool, first: nat, last: nat)
    requires l < |levels|
    ensures found ==> first <= last < |levels[l]| && Chosen(levels, s, l, first) && Chosen(levels, s, l, last)
    ensures forall i :: 0 <= i < |levels[l]| && Chosen(levels, s, l, i) ==> found && first <= i <= last
  {
    found, first, last := false, 0, 0;
    for f := 0 to |levels[l]|
      invariant found ==> first <= last < f && Chosen(levels, s, l, first) && Chosen(levels, s, l, last)
      invariant forall i :: 0 <= i < f && Chosen(levels, s, l, i) ==> found && first <= i <= last
    {
      if levels[l][f].number in s {
        if !found { first := f; }
        found, last := true, f;
      }
    }
  }

  lemma NeededByOverlap(levels: Levels, out: nat, user: set<nat>, la: nat, a: nat, lb: nat, b: nat, m: nat, g: nat)
    requires WellFormed(levels, out) && la <= m && lb <= m && 0 < m <= out
    requires a < |levels[la]| && b < |levels[lb]| && g < |levels[m]|
    requires Needed(levels, out, user, levels[la][a].number) && Needed(levels, out, user, levels[lb][b].number)
    requires Spanned(levels[la][a], levels[m][g], levels[lb][b])
    ensures Needed(levels, out, user, levels[m][g].number)
  {
  }

  /** Above level 0, also take neighbours that share a user key with the chosen range. */
  method ExpandTouching(levels: Levels, out: nat, ghost user: set<nat>, l: nat, first0: nat, last0: nat)
    returns (first: nat, last: nat)
    requires WellFormed(levels, out) && 0 < l <= out && first0 <= last0 < |levels[l]|
    requires Needed(levels, out, user, levels[l][first0].number) && Needed(levels, out, user, levels[l][last0].number)
    ensures first <= first0 && last0 <= last < |levels[l]|
    ensures Needed(levels, out, user, levels[l][first].number) && Needed(levels, out, user, levels[l][last].number)
    ensures first > 0 ==> levels[l][first - 1].largest < levels[l][first].smallest
    ensures last + 1 < |levels[l]| ==> levels[l][last].largest < levels[l][last + 1].smallest
  {
    hide Needed;
    var files := levels[l];
    first, last := first0, last0;
    while first > 0 && files[first - 1].largest >= files[first].smallest
      invariant first <= first0 && Needed(levels, out, user, files[first].number)
    {
      NeededByOverlap(levels, out, user, l, first, l, first, l, first - 1);
      first := first - 1;
    }
    while last < |files| - 1 && files[last + 1].smallest <= files[last].largest
      invariant last0 <= last < |files| && Needed(levels, out, user, files[last].number)
    {
      NeededByOverlap(levels, out, user, l, last, l, last, l, last + 1);
      last := last + 1;
    }
  }

  /** Everything from `first` to `last` is needed. */
  lemma NeededBetween(levels: Levels, out: nat, user: set<nat>, l: nat, first: nat, last: nat, f: nat)
    requires WellFormed(levels, out) && l <= out && first <= f <= last < |levels[l]|
    requires Needed(levels, out, user, levels[l][first].number) && Needed(levels, out, user, levels[l][last].number)
    ensures Needed(levels, out, user, levels[l][f].number)
  {
    if l > 0 {
      if first < f { assert levels[l][first].largest <= levels[l][f].smallest; }
      if f < last { assert levels[l][f].largest <= levels[l][last].smallest; }
      NeededByOverlap(levels, out, user, l, first, l, last, l, f);
    } else {
      forall t: set<nat> | user <= t && Closed(levels, out, t) ensures levels[0][f].number in t {
        assert Chosen(levels, t, 0, first) && Chosen(levels, t, 0, last);
        assert Chosen(levels, t, 0, f);
      }
    }
  }

  /** `n` names one of the files `first..last`. */
  ghost predicate FromRange(levels: Levels, l: nat, first: nat, last: nat, n: nat)
    requires l < |levels| && last < |levels[l]|
  {
    exists i: nat :: first <= i <= last && levels[l][i].number == n
  }

  method IncludeRange(levels: Levels, out: nat, ghost user: set<nat>, s: set<nat>, l: nat, first: nat, last: nat)
    returns (ok: bool, s': set<nat>)
    requires WellFormed(levels, out) && l <= out && first <= last < |levels[l]|
    requires Needed(levels, out, user, levels[l][first].number) && Needed(levels, out, user, levels[l][last].number)
    ensures !ok ==> Blocked(levels, out, user)
    ensures ok ==> s <= s' && forall i :: first <= i <= last ==> Chosen(levels, s', l, i) && !levels[l][i].beingCompacted
    ensures forall n :: n in s' - s ==> FromRange(levels, l, first, last, n) && Needed(levels, out, user, n)
  {
    hide Needed;
    s' := s;
    for f := first to last + 1
      invariant s <= s' && forall i :: first <= i < f ==> Chosen(levels, s', l, i) && !levels[l][i].beingCompacted
      invariant forall n :: n in s' - s ==> FromRange(levels, l, first, last, n) && Needed(levels, out, user, n)
    {
      NeededBetween(levels, out, user, l, first, last, f);
      if levels[l][f].beingCompacted { return false, s'; }
      assert FromRange(levels, l, first, last, levels[l][f].number);
      s' := s' + {levels[l][f].number};
    }
    ok := true;
  }

  /** Widen the key range: by every included file in level 0, by the first and the last above it. */
  method WidenRange(levels: Levels, out: nat, l: nat, first: nat, last: nat, lo: Key, hi: Key) returns (lo': Key, hi': Key)
    requires WellFormed(levels, out) && l <= out && first <= last < |levels[l]|
    ensures lo' <= lo && hi <= hi'
    ensures forall i :: first <= i <= last ==> lo' <= levels[l][i].smallest && levels[l][i].largest <= hi'
    ensures lo' == lo || exists i :: first <= i <= last && lo' == levels[l][i].smallest
    ensures hi' == hi || exists i :: first <= i <= last && hi' == levels[l][i].largest
  {
    lo', hi' := lo, hi;
    if l == 0 {
      for f := first to last + 1
        invariant lo' <= lo && hi <= hi'
        invariant forall i :: first <= i < f ==> lo' <= levels[l][i].smallest && levels[l][i].largest <= hi'
        invariant lo' == lo || exists i :: first <= i < f && lo' == levels[l][i].smallest
        invariant hi' == hi || exists i :: first <= i < f && hi' == levels[l][i].largest
      {
        if lo' > levels[l][f].smallest { lo' := levels[l][f].smallest; }
        if hi' < levels[l][f].largest { hi' := levels[l][f].largest; }
      }
    } else {
      if lo' > levels[l][first].smallest { lo' := levels[l][first].smallest; }
      if hi' < levels[l][last].largest { hi' := levels[l][last].largest; }
      forall i | first <= i <= last ensures lo' <= levels[l][i].smallest && levels[l][i].largest <= hi' {
        if first < i { assert levels[l][first].largest <= levels[l][i].smallest; }
        if i < last { assert levels[l][i].largest <= levels[l][last].smallest; }
      }
    }
  }

  /** File `g` of level `m` is looked at in iteration `l` and touches [lo, hi]. */
  predicate Touching(levels: Levels, out: nat, l: nat, lo: Key, hi: Key, m: nat, g: nat)
    requires out < |levels|
  {
    l <= m && 0 < m <= out && g < |levels[m]| && lo <= levels[m][g].largest && levels[m][g].smallest <= hi
  }

  ghost predicate FromTouching(levels: Levels, out: nat, l: nat, lo: Key, hi: Key, n: nat)
    requires out < |levels|
  {
    exists m: nat, g: nat :: Touching(levels, out, l, lo, hi, m, g) && levels[m][g].number == n
  }

  method IncludeTouching(levels: Levels, out: nat, ghost user: set<nat>, s: set<nat>, l: nat, lo: Key, hi: Key)
    returns (ok: bool, s': set<nat>)
    requires WellFormed(levels, out) && l <= out && lo <= hi
    requires forall m: nat, g: nat :: Touching(levels, out, l, lo, hi, m, g) ==> Needed(levels, out, user, levels[m][g].number)
    ensures !ok ==> Blocked(levels, out, user)
    ensures ok ==> s <= s' && forall m: nat, g: nat :: Touching(levels, out, l, lo, hi, m, g) ==>
                                                         Chosen(levels, s', m, g) && !levels[m][g].beingCompacted
    ensures forall n :: n in s' - s ==> FromTouching(levels, out, l, lo, hi, n)
  {
    hide Needed;
    s' := s;
    var hull := SstFile(0, lo, hi, false);
    for m := (if l > 1 then l else 1) to out + 1
      invariant s <= s'
      invariant forall k: nat, g: nat :: k < m && Touching(levels, out, l, lo, hi, k, g) ==>
                                           Chosen(levels, s', k, g) && !levels[k][g].beingCompacted
      invariant forall n :: n in s' - s ==> FromTouching(levels, out, l, lo, hi, n)
    {
      for f := 0 to |levels[m]|
        invariant s <= s'
        invariant forall k: nat, g: nat :: (k < m || (k == m && g < f)) && Touching(levels, out, l, lo, hi, k, g) ==>
                                             Chosen(levels, s', k, g) && !levels[k][g].beingCompacted
        invariant forall n :: n in s' - s ==> FromTouching(levels, out, l, lo, hi, n)
      {
        if HaveOverlappingKeyRanges(hull, levels[m][f]) {
          assert Touching(levels, out, l, lo, hi, m, f);
          if levels[m][f].beingCompacted { return false, s'; }
          assert FromTouching(levels, out, l, lo, hi, levels[m][f].number);
          s' := s' + {levels[m][f].number};
        }
      }
    }
    ok := true;
  }

  // ---- One iteration keeps the loop invariant ----

  /** What iteration `l` has done: `first..last` and everything touching the new hull joined the set. */
  ghost predicate Iterated(levels: Levels, out: nat, user: set<nat>, s: set<nat>, l: nat, first: nat, last: nat,
                           lo': Key, hi': Key, s': set<nat>)
    requires WellFormed(levels, out) && l <= out
  {
    && first <= last < |levels[l]| && s <= s'
    && (forall i :: 0 <= i < |levels[l]| && Chosen(levels, s, l, i) ==> first <= i <= last)
    && (forall i :: first <= i <= last ==> Chosen(levels, s', l, i) && !levels[l][i].beingCompacted)
    && (forall m: nat, g: nat :: Touching(levels, out, l, lo', hi', m, g) ==> Chosen(levels, s', m, g) && !levels[m][g].beingCompacted)
    && (forall n :: n in s' - s ==> FromRange(levels, l, first, last, n) || FromTouching(levels, out, l, lo', hi', n))
    && (forall n :: n in s' ==> Needed(levels, out, user, n))
  }

  /** The files around `first..last` are cut off from it, and the hull grew to cover it. */
  ghost predicate Widened(levels: Levels, s: set<nat>, l: nat, first: nat, last: nat, isFirst: bool, lo: Key, hi: Key, lo': Key, hi': Key)
    requires l < |levels| && first <= last < |levels[l]|
  {
    && (l > 0 && first > 0 ==> levels[l][first - 1].largest < levels[l][first].smallest)
    && (l > 0 && last + 1 < |levels[l]| ==> levels[l][last].largest < levels[l][last + 1].smallest)
    && (isFirst ==> lo' <= lo && hi <= hi')
    && (forall i :: first <= i <= last ==> lo' <= levels[l][i].smallest && levels[l][i].largest <= hi')
    && ((isFirst && lo' == lo) || exists i :: first <= i <= last && lo' == levels[l][i].smallest)
    && ((isFirst && hi' == hi) || exists i :: first <= i <= last && hi' == levels[l][i].largest)
  }

  /** Files that joined in iteration `l` are at level `l` or deeper. */
  lemma Newcomer(levels: Levels, out: nat, user: set<nat>, s: set<nat>, l: nat, first: nat, last: nat,
                 lo': Key, hi': Key, s': set<nat>, k: nat, i: nat)
    requires WellFormed(levels, out) && l <= out && Iterated(levels, out, user, s, l, first, last, lo', hi', s')
    requires Chosen(levels, s', k, i) && !Chosen(levels, s, k, i)
    ensures k >= l && (k == l ==> first <= i <= last || Touching(levels, out, l, lo', hi', l, i))
  {
    hide Needed;
    var n := levels[k][i].number;
    if FromRange(levels, l, first, last, n) {
      var j: nat :| first <= j <= last && levels[l][j].number == n;
      assert k == l && i == j;
    } else {
      assert FromTouching(levels, out, l, lo', hi', n);
      var m: nat, g: nat :| Touching(levels, out, l, lo', hi', m, g) && levels[m][g].number == n;
      assert m == k && g == i;
    }
  }

  lemma LowerLevelsUntouched(levels: Levels, out: nat, user: set<nat>, s: set<nat>, l: nat, first: nat, last: nat,
                             lo': Key, hi': Key, s': set<nat>, k: nat, i: nat)
    requires WellFormed(levels, out) && l <= out && Iterated(levels, out, user, s, l, first, last, lo', hi', s')
    requires k < l
    ensures Chosen(levels, s', k, i) <==> Chosen(levels, s, k, i)
  {
    hide Needed, WellFormed;
    if Chosen(levels, s', k, i) && !Chosen(levels, s, k, i) {
      Newcomer(levels, out, user, s, l, first, last, lo', hi', s', k, i);
    }
  }

  lemma ChosenAtLevel(levels: Levels, out: nat, user: set<nat>, s: set<nat>, l: nat, first: nat, last: nat,
                      lo': Key, hi': Key, s': set<nat>, i: nat)
    requires WellFormed(levels, out) && l <= out && Iterated(levels, out, user, s, l, first, last, lo', hi', s')
    requires Chosen(levels, s', l, i)
    ensures first <= i <= last || Touching(levels, out, l, lo', hi', l, i)
  {
    if !Chosen(levels, s, l, i) {
      Newcomer(levels, out, user, s, l, first, last, lo', hi', s', l, i);
    }
  }

  /** Earlier iterations have already chosen what touches the old hull. */
  lemma OldHullTaken(levels: Levels, out: nat, user: set<nat>, s: set<nat>, l: nat, lo: Key, hi: Key, g: nat)
    requires WellFormed(levels, out) && 0 < l <= out && Progress(levels, out, user, s, l, true, lo, hi) && g < |levels[l]|
    ensures lo <= levels[l][g].largest && levels[l][g].smallest <= hi ==> Chosen(levels, s, l, g)
  {
  }

  /** A file of level `l` that joined only because it touches the new hull lies inside that hull. */
  lemma TouchingLiesInside(levels: Levels, out: nat, user: set<nat>, s: set<nat>, l: nat, first: nat, last: nat,
                           isFirst: bool, lo: Key, hi: Key, lo': Key, hi': Key, g: nat)
    requires WellFormed(levels, out) && l <= out && Progress(levels, out, user, s, l, isFirst, lo, hi)
    requires first <= last < |levels[l]| && Widened(levels, s, l, first, last, isFirst, lo, hi, lo', hi')
    requires forall i :: 0 <= i < |levels[l]| && Chosen(levels, s, l, i) ==> first <= i <= last
    requires Touching(levels, out, l, lo', hi', l, g)
    ensures lo' <= levels[l][g].smallest && levels[l][g].largest <= hi'
  {
    hide Needed, ClosedUnderOverlap;
    var f := levels[l][g];
    if isFirst { OldHullTaken(levels, out, user, s, l, lo, hi, g); }
    if g < first {
      if g < first - 1 { assert f.largest <= levels[l][first - 1].smallest; }
    } else if last < g {
      if last + 1 < g { assert levels[l][last + 1].largest <= f.smallest; }
    }
  }

  lemma NextHull(levels: Levels, out: nat, user: set<nat>, s: set<nat>, l: nat, first: nat, last: nat,
                 isFirst: bool, lo: Key, hi: Key, lo': Key, hi': Key, s': set<nat>)
    requires WellFormed(levels, out) && l <= out && Progress(levels, out, user, s, l, isFirst, lo, hi)
    requires Iterated(levels, out, user, s, l, first, last, lo', hi', s')
    requires Widened(levels, s, l, first, last, isFirst, lo, hi, lo', hi')
    ensures Hull(levels, s', l + 1, lo', hi')
    ensures forall i: nat :: Chosen(levels, s', l, i) ==> !levels[l][i].beingCompacted
  {
    hide Needed, ClosedUnderOverlap;
    forall k: nat, i: nat | k < l && Chosen(levels, s', k, i) ensures lo' <= levels[k][i].smallest && levels[k][i].largest <= hi' {
      LowerLevelsUntouched(levels, out, user, s, l, first, last, lo', hi', s', k, i);
    }
    forall i: nat | Chosen(levels, s', l, i)
      ensures lo' <= levels[l][i].smallest && levels[l][i].largest <= hi' && !levels[l][i].beingCompacted
    {
      ChosenAtLevel(levels, out, user, s, l, first, last, lo', hi', s', i);
      if i < first || last < i {
        TouchingLiesInside(levels, out, user, s, l, first, last, isFirst, lo, hi, lo', hi', i);
      }
    }
    if !(isFirst && lo' == lo) {
      var i :| first <= i <= last && lo' == levels[l][i].smallest;
      assert Chosen(levels, s', l, i);
    }
    if !(isFirst && hi' == hi) {
      var i :| first <= i <= last && hi' == levels[l][i].largest;
      assert Chosen(levels, s', l, i);
    }
  }

  lemma NextClosed(levels: Levels, out: nat, user: set<nat>, s: set<nat>, l: nat, first: nat, last: nat,
                   lo': Key, hi': Key, s': set<nat>)
    requires WellFormed(levels, out) && l <= out && ClosedUnderOverlap(levels, out, s, l)
    requires Iterated(levels, out, user, s, l, first, last, lo', hi', s') && Hull(levels, s', l + 1, lo', hi')
    ensures ClosedUnderOverlap(levels, out, s', l + 1)
  {
    hide Needed;
    forall la: nat, a: nat, lb: nat, b: nat, m: nat, g: nat |
      && Chosen(levels, s', la, a) && Chosen(levels, s', lb, b) && la < l + 1 && lb < l + 1
      && la <= m && lb <= m && 0 < m <= out && g < |levels[m]|
      && Spanned(levels[la][a], levels[m][g], levels[lb][b])
      ensures Chosen(levels, s', m, g)
    {
      if m < l {
        LowerLevelsUntouched(levels, out, user, s, l, first, last, lo', hi', s', la, a);
        LowerLevelsUntouched(levels, out, user, s, l, first, last, lo', hi', s', lb, b);
        assert Chosen(levels, s, m, g);
      } else {
        assert Touching(levels, out, l, lo', hi', m, g);
      }
    }
  }

  lemma NextContiguous(levels: Levels, out: nat, user: set<nat>, s: set<nat>, l: nat, first: nat, last: nat,
                       lo': Key, hi': Key, s': set<nat>)
    requires WellFormed(levels, out) && l <= out && (l > 0 ==> Level0Contiguous(levels, s))
    requires Iterated(levels, out, user, s, l, first, last, lo', hi', s')
    ensures Level0Contiguous(levels, s')
  {
    hide Needed;
    forall a: nat, f: nat, b: nat | Chosen(levels, s', 0, a) && Chosen(levels, s', 0, b) && a <= f <= b
      ensures Chosen(levels, s', 0, f)
    {
      if l == 0 {
        ChosenAtLevel(levels, out, user, s, l, first, last, lo', hi', s', a);
        ChosenAtLevel(levels, out, user, s, l, first, last, lo', hi', s', b);
      } else {
        LowerLevelsUntouched(levels, out, user, s, l, first, last, lo', hi', s', 0, a);
        LowerLevelsUntouched(levels, out, user, s, l, first, last, lo', hi', s', 0, b);
        assert Chosen(levels, s, 0, f);
      }
    }
  }

  lemma NextLevel(levels: Levels, out: nat, user: set<nat>, s: set<nat>, l: nat, first: nat, last: nat,
                  isFirst: bool, lo: Key, hi: Key, lo': Key, hi': Key, s': set<nat>)
    requires WellFormed(levels, out) && l <= out && Progress(levels, out, user, s, l, isFirst, lo, hi)
    requires Iterated(levels, out, user, s, l, first, last, lo', hi', s')
    requires Widened(levels, s, l, first, last, isFirst, lo, hi, lo', hi')
    ensures Progress(levels, out, user, s', l + 1, true, lo', hi')
  {
    NextHull(levels, out, user, s, l, first, last, isFirst, lo, hi, lo', hi', s');
    NextClosed(levels, out, user, s, l, first, last, lo', hi', s');
    NextContiguous(levels, out, user, s, l, first, last, lo', hi', s');
    hide Needed, ClosedUnderOverlap, Level0Contiguous, Hull, WellFormed;
    forall k: nat, i: nat | k < l + 1 && Chosen(levels, s', k, i) ensures !levels[k][i].beingCompacted {
      if k < l { LowerLevelsUntouched(levels, out, user, s, l, first, last, lo', hi', s', k, i); }
    }
  }

  lemma SkipLevel(levels: Levels, out: nat, user: set<nat>, s: set<nat>, l: nat, isFirst: bool, lo: Key, hi: Key)
    requires WellFormed(levels, out) && l <= out && Progress(levels, out, user, s, l, isFirst, lo, hi)
    requires forall i: nat :: !Chosen(levels, s, l, i)
    ensures Progress(levels, out, user, s, l + 1, isFirst, lo, hi)
  {
    hide Needed;
  }

  /** Hull endpoints are attained by needed files, so whatever touches the hull is needed. */
  lemma TouchingIsNeeded(levels: Levels, out: nat, user: set<nat>, s: set<nat>, l: nat, lo: Key, hi: Key, m: nat, g: nat)
    requires WellFormed(levels, out) && l <= out && (forall n :: n in s ==> Needed(levels, out, user, n))
    requires exists k: nat, i: nat :: k <= l && Chosen(levels, s, k, i) && levels[k][i].smallest == lo
    requires exists k: nat, i: nat :: k <= l && Chosen(levels, s, k, i) && levels[k][i].largest == hi
    requires Touching(levels, out, l, lo, hi, m, g)
    ensures Needed(levels, out, user, levels[m][g].number)
  {
  }

  // ---- The whole pass ----

  /** One iteration of the level loop. */
  method VisitLevel(levels: Levels, out: nat, ghost user: set<nat>, s: set<nat>, l: nat, isFirst: bool, lo: Key, hi: Key)
    returns (ok: bool, s': set<nat>, isFirst': bool, lo': Key, hi': Key)
    requires WellFormed(levels, out) && l <= out && Progress(levels, out, user, s, l, isFirst, lo, hi)
    ensures !ok ==> Blocked(levels, out, user)
    ensures ok ==> Progress(levels, out, user, s', l + 1, isFirst', lo', hi')
  {
    hide Needed, ClosedUnderOverlap, Level0Contiguous;
    var found, first, last := FindIncluded(levels, s, l);
    if !found {
      SkipLevel(levels, out, user, s, l, isFirst, lo, hi);
      return true, s, isFirst, lo, hi;
    }
    lo', hi' := lo, hi;
    if !isFirst { lo', hi' := levels[l][first].smallest, levels[l][first].largest; }
    if l != 0 { first, last := ExpandTouching(levels, out, user, l, first, last); }
    ok, s' := IncludeRange(levels, out, user, s, l, first, last);
    if !ok { return false, s', isFirst, lo, hi; }
    lo', hi' := WidenRange(levels, out, l, first, last, lo', hi');
    ok, s' := AbsorbTouching(levels, out, user, s, s', l, first, last, isFirst, lo, hi, lo', hi');
    isFirst' := true;
  }

  /** The second half of an iteration: everything that touches the widened hull joins. */
  method AbsorbTouching(levels: Levels, out: nat, ghost user: set<nat>, ghost s: set<nat>, s1: set<nat>, l: nat,
                        ghost first: nat, ghost last: nat, ghost isFirst: bool, ghost lo: Key, ghost hi: Key,
                        lo': Key, hi': Key)
    returns (ok: bool, s': set<nat>)
    requires out < |levels| && WellFormed(levels, out) && l <= out && Progress(levels, out, user, s, l, isFirst, lo, hi)
    requires first <= last < |levels[l]| && Widened(levels, s, l, first, last, isFirst, lo, hi, lo', hi')
    requires forall i :: 0 <= i < |levels[l]| && Chosen(levels, s, l, i) ==> first <= i <= last
    requires s <= s1 && forall i :: first <= i <= last ==> Chosen(levels, s1, l, i) && !levels[l][i].beingCompacted
    requires forall n :: n in s1 - s ==> FromRange(levels, l, first, last, n) && Needed(levels, out, user, n)
    ensures !ok ==> Blocked(levels, out, user)
    ensures ok ==> Progress(levels, out, user, s', l + 1, true, lo', hi')
  {
    hide Needed, ClosedUnderOverlap, Level0Contiguous, Hull, WellFormed;
    HullAttained(levels, out, user, s, l, first, last, isFirst, lo, hi, lo', hi', s1);
    assert forall n :: n in s1 ==> n in s || n in s1 - s;
    forall m: nat, g: nat | Touching(levels, out, l, lo', hi', m, g) ensures Needed(levels, out, user, levels[m][g].number) {
      TouchingIsNeeded(levels, out, user, s1, l, lo', hi', m, g);
    }
    ok, s' := IncludeTouching(levels, out, user, s1, l, lo', hi');
    if ok {
      forall n | n in s' ensures Needed(levels, out, user, n) {
        if n in s' - s1 { assert FromTouching(levels, out, l, lo', hi', n); }
      }
      forall n | n in s' - s ensures FromRange(levels, l, first, last, n) || FromTouching(levels, out, l, lo', hi', n) {
        assert n in s1 - s || n in s' - s1;
      }
      assert Iterated(levels, out, user, s, l, first, last, lo', hi', s');
      NextLevel(levels, out, user, s, l, first, last, isFirst, lo, hi, lo', hi', s');
    }
  }

  lemma HullAttained(levels: Levels, out: nat, user: set<nat>, s: set<nat>, l: nat, first: nat, last: nat,
                     isFirst: bool, lo: Key, hi: Key, lo': Key, hi': Key, s1: set<nat>)
    requires WellFormed(levels, out) && l <= out && Progress(levels, out, user, s, l, isFirst, lo, hi)
    requires first <= last < |levels[l]| && Widened(levels, s, l, first, last, isFirst, lo, hi, lo', hi')
    requires s <= s1 && forall i :: first <= i <= last ==> Chosen(levels, s1, l, i)
    ensures exists k: nat, i: nat :: k <= l && Chosen(levels, s1, k, i) && levels[k][i].smallest == lo'
    ensures exists k: nat, i: nat :: k <= l && Chosen(levels, s1, k, i) && levels[k][i].largest == hi'
    ensures lo' <= hi'
  {
  }

  /** Succeeds exactly when no file that every closed choice contains is being compacted, and then returns
      the least closed set containing the user's files. */
  method SanitizeForAllLevels(levels: Levels, out: nat, user: set<nat>) returns (ok: bool, chosen: set<nat>)
    requires WellFormed(levels, out)
    ensures ok <==> !Blocked(levels, out, user)
    ensures ok ==> user <= chosen && Closed(levels, out, chosen)
    ensures ok ==> forall t :: user <= t && Closed(levels, out, t) ==> chosen <= t
    ensures ok ==> forall l: nat, i: nat :: l <= out && Chosen(levels, chosen, l, i) ==> !levels[l][i].beingCompacted
  {
    chosen := user;
    var isFirst, lo, hi := false, 0.0, 0.0;
    for l := 0 to out + 1
      invariant Progress(levels, out, user, chosen, l, isFirst, lo, hi)
    {
      hide Progress, Blocked;
      ok, chosen, isFirst, lo, hi := VisitLevel(levels, out, user, chosen, l, isFirst, lo, hi);
      if !ok { return; }
    }
    ok := true;
    assert Closed(levels, out, chosen);
  }

  /** Closure makes the chosen files of a level above 0 one run, cut cleanly from its neighbours. */
  lemma ClosedMeansCleanCut(levels: Levels, out: nat, s: set<nat>, l: nat, a: nat, b: nat, f: nat)
    requires WellFormed(levels, out) && Closed(levels, out, s) && 0 < l <= out
    requires Chosen(levels, s, l, a) && Chosen(levels, s, l, b) && f < |levels[l]|
    ensures a <= f <= b ==> Chosen(levels, s, l, f)
    ensures !Chosen(levels, s, l, f) ==> levels[l][f].largest < levels[l][a].smallest || levels[l][b].largest < levels[l][f].smallest
  {
  }

  // ---- Arguments, files and errors ----

  datatype Status = Ok | InvalidArgument | Aborted

  predicate IsFile(levels: Levels, n: nat, l: nat, i: nat) { l < |levels| && i < |levels[l]| && levels[l][i].number == n }

  ghost predicate Exists(levels: Levels, n: nat) { exists l: nat, i: nat :: IsFile(levels, n, l, i) }

  ghost predicate Busy(levels: Levels, n: nat) { exists l: nat, i: nat :: IsFile(levels, n, l, i) && levels[l][i].beingCompacted }

  predicate GoodArguments(levels: Levels, output: int, maxOutputLevel: int, user: set<nat>) {
    0 <= output < |levels| && output <= maxOutputLevel && user != {}
  }

  /** Look a file number up in every level. */
  method FindFile(levels: Levels, n: nat) returns (found: bool, busy: bool)
    requires levels != [] && WellFormed(levels, 0)
    ensures found <==> Exists(levels, n)
    ensures busy <==> Busy(levels, n)
  {
    found, busy := false, false;
    for l := 0 to |levels|
      invariant !found && !busy && forall k: nat, i: nat :: k < l ==> !IsFile(levels, n, k, i)
    {
      for i := 0 to |levels[l]|
        invariant forall k: nat, j: nat :: k < l || (k == l && j < i) ==> !IsFile(levels, n, k, j)
      {
        if levels[l][i].number == n {
          assert IsFile(levels, n, l, i);
          return true, levels[l][i].beingCompacted;
        }
      }
    }
  }

  /** Nothing is added to the user's files but files that exist. */
  lemma AdditionsExist(levels: Levels, out: nat, user: set<nat>, chosen: set<nat>, n: nat)
    requires out < |levels| && user <= chosen && Closed(levels, out, chosen)
    requires forall t :: user <= t && Closed(levels, out, t) ==> chosen <= t
    requires n in chosen && n !in user
    ensures Exists(levels, n)
  {
    var t := set m | m in chosen && (m in user || m != n);
    if !Exists(levels, n) {
      forall l: nat, i: nat ensures Chosen(levels, t, l, i) <==> Chosen(levels, chosen, l, i) {
        if Chosen(levels, chosen, l, i) { assert levels[l][i].number != n by { assert !IsFile(levels, n, l, i); } }
      }
      SameChoice(levels, out, chosen, t);
    }
  }

  lemma SameChoice(levels: Levels, out: nat, s: set<nat>, t: set<nat>)
    requires out < |levels| && Closed(levels, out, s)
    requires forall l: nat, i: nat :: Chosen(levels, t, l, i) <==> Chosen(levels, s, l, i)
    ensures Closed(levels, out, t)
  {
  }

  /** The user's files are accepted exactly when the arguments are good, no file that has to join them is being
      compacted, and each of them exists and is idle; they are then completed to the least closed set. */
  method SanitizeCompactionInputFiles(levels: Levels, output: int, maxOutputLevel: int, user: set<nat>)
    returns (status: Status, chosen: set<nat>)
    requires levels != [] && WellFormed(levels, 0)
    ensures status == Ok <==> && GoodArguments(levels, output, maxOutputLevel, user) && !Blocked(levels, output, user)
                              && forall n :: n in user ==> Exists(levels, n) && !Busy(levels, n)
    ensures status == Ok ==> && user <= chosen && Closed(levels, output, chosen)
                             && (forall t :: user <= t && Closed(levels, output, t) ==> chosen <= t)
                             && forall n :: n in chosen ==> Exists(levels, n) && !Busy(levels, n)
    ensures status == InvalidArgument ==> !GoodArguments(levels, output, maxOutputLevel, user) || exists n :: n in user && !Exists(levels, n)
    ensures status == Aborted ==> && GoodArguments(levels, output, maxOutputLevel, user)
                                  && (Blocked(levels, output, user) || exists n :: n in user && Busy(levels, n))
  {
    chosen := user;
    if !GoodArguments(levels, output, maxOutputLevel, user) { return InvalidArgument, chosen; }
    var ok;
    ok, chosen := SanitizeForAllLevels(levels, output, user);
    if !ok { return Aborted, chosen; }
    hide Closed, Blocked;
    AdditionsFine(levels, output, user, chosen);
    var rest := chosen;
    while rest != {}
      invariant rest <= chosen && forall n :: n in chosen && n !in rest ==> Exists(levels, n) && !Busy(levels, n)
      decreases rest
    {
      var n :| n in rest;
      var found, busy := FindFile(levels, n);
      if busy { return Aborted, chosen; }
      if !found { return InvalidArgument, chosen; }
      rest := rest - {n};
    }
    status := Ok;
  }

  lemma AdditionsFine(levels: Levels, out: nat, user: set<nat>, chosen: set<nat>)
    requires WellFormed(levels, out) && user <= chosen && Closed(levels, out, chosen) && !Blocked(levels, out, user)
    requires forall t :: user <= t && Closed(levels, out, t) ==> chosen <= t
    requires forall l: nat, i: nat :: l <= out && Chosen(levels, chosen, l, i) ==> !levels[l][i].beingCompacted
    ensures forall n :: n in chosen && n !in user ==> Exists(levels, n) && !Busy(levels, n)
  {
    forall n | n in chosen && n !in user ensures Exists(levels, n) && !Busy(levels, n) {
      AdditionsExist(levels, out, user, chosen, n);
      AdditionsShallow(levels, out, user, chosen, n);
    }
  }

  /** Added files lie at levels up to the output level. */
  lemma AdditionsShallow(levels: Levels, out: nat, user: set<nat>, chosen: set<nat>, n: nat)
    requires WellFormed(levels, out) && user <= chosen && Closed(levels, out, chosen)
    requires forall t :: user <= t && Closed(levels, out, t) ==> chosen <= t
    requires n in chosen && n !in user
    ensures forall l: nat, i: nat :: IsFile(levels, n, l, i) ==> l <= out
  {
    forall l: nat, i: nat | IsFile(levels, n, l, i) ensures l <= out {
      if l > out {
        DropDeep(levels, out, chosen, n, l, i);
      }
    }
  }

  lemma DropDeep(levels: Levels, out: nat, s: set<nat>, n: nat, l: nat, i: nat)
    requires WellFormed(levels, out) && Closed(levels, out, s) && IsFile(levels, n, l, i) && l > out
    ensures Closed(levels, out, s - {n})
  {
    var t := s - {n};
    forall k: nat, j: nat | k <= out ensures Chosen(levels, t, k, j) <==> Chosen(levels, s, k, j) {}
    forall la: nat, a: nat, lb: nat, b: nat, m: nat, g: nat |
      && Chosen(levels, t, la, a) && Chosen(levels, t, lb, b) && la < out + 1 && lb < out + 1
      && la <= m && lb <= m && 0 < m <= out && g < |levels[m]|
      && Spanned(levels[la][a], levels[m][g], levels[lb][b])
      ensures Chosen(levels, t, m, g)
    {
      assert Chosen(levels, s, la, a) && Chosen(levels, s, lb, b);
      assert Chosen(levels, s, m, g);
    }
  }
}
