/** Exactly when a split compaction writes the records of the unsplit one, read off the input positions. */
module SubcompactionExact {
  import opened Records
  import opened Levels
  import opened CompactionSpec
  import opened CompactionFacts
  import opened CompactionPositions
  import opened Subcompaction

  // ---- One piece ----

  /** The first two positions at which the run acts are a record that stands and a pair above the boundary, of one key. */
  ghost predicate FirstTwo(cfg: Config, rs: seq<Record>, f: nat, g: nat) {
    && f < g < |rs| && rs[f].key == rs[g].key && Stands(cfg, rs, f) && PairAbove(cfg, rs, g)
    && forall i: nat :: i < g && i != f ==> !Acts(cfg, rs, i)
  }

  ghost predicate NextIsPair(cfg: Config, rs: seq<Record>, k: Key, n: nat, g: nat) {
    n <= g < |rs| && rs[g].key == k && PairAbove(cfg, rs, g) && forall i: nat :: n <= i < g ==> !Acts(cfg, rs, i)
  }

  ghost predicate PairIsNext(cfg: Config, rs: seq<Record>, k: Key, n: nat) { exists g: nat :: NextIsPair(cfg, rs, k, n, g) }

  /** A record that stands is not a pair; a position that neither acts nor ends a kept pair is silent. */
  lemma Silent(cfg: Config, rs: seq<Record>, n: nat)
    requires n < |rs| && !(n > 0 && Kept(cfg, rs, n - 1))
    ensures Stands(cfg, rs, n) ==> !PairAbove(cfg, rs, n) && !Kept(cfg, rs, n)
    ensures OutputOf(cfg, rs, n) == [] <==> !Stands(cfg, rs, n) && !Kept(cfg, rs, n)
  {
  }

  lemma NotPaired(cfg: Config, rs: seq<Record>, n: nat)
    requires Stands(cfg, rs, n)
    ensures !Paired(cfg, rs, n)
  {
  }

  lemma Skipped(cfg: Config, rs: seq<Record>, n: nat)
    requires Paired(cfg, rs, n)
    ensures !Acts(cfg, rs, n + 1)
  {
  }

  lemma ShownNothing(out: Option<Record>)
    ensures Shown(out) == [] <==> out == None
  {
  }

  lemma PairHead(cfg: Config, rs: seq<Record>, n: nat)
    requires n < |rs|
    ensures PairAbove(cfg, rs[n..], 0) <==> PairAbove(cfg, rs, n)
  {
  }

  lemma LaterKeys(rs: seq<Record>, n: nat, k: Key)
    requires Sorted(rs) && 0 < n <= |rs| && rs[n - 1].key == k && !Follows(rs, n)
    ensures forall i: nat :: n <= i < |rs| ==> rs[i].key != k
  {
    forall i: nat | n <= i < |rs| ensures rs[i].key != k {
      assert Before(rs[n - 1], rs[n]) && (n < i ==> Before(rs[n], rs[i]));
    }
  }

  lemma {:induction false} MeetsByPosition(cfg: Config, rs: seq<Record>, n: nat, st: State, k: Key)
    requires ValidConfig(cfg) && Sorted(rs) && 0 < n <= |rs| && At(cfg, rs, n, st) && rs[n - 1].key == k && !st.clearNext
    ensures MeetsPair(cfg, rs[n..], st) <==> PairIsNext(cfg, rs, k, n)
    decreases |rs| - n
  {
    hide Advance, Kept, Stands, PairAbove, OutputOf, Sorted, ValidConfig, Paired, Noted, ActedBefore;
    if !Follows(rs, n) {
      LaterKeys(rs, n, k);
    } else {
      var step := Advance(cfg, rs[n..], st);
      Silent(cfg, rs, n);
      PairHead(cfg, rs, n);
      ShownNothing(step.out);
      var m, next := NextTurn(cfg, rs, n, st);
      if PairAbove(cfg, rs, n) {
        assert NextIsPair(cfg, rs, k, n, n);
      } else if step.out != None {
        NotKept(cfg, rs, n);
        assert Acts(cfg, rs, n);
      } else {
        NotKept(cfg, rs, n);
        if m == n + 2 { Skipped(cfg, rs, n); NotKept(cfg, rs, n + 1); }
        MeetsByPosition(cfg, rs, m, next, k);
        Onwards(cfg, rs, k, n, m);
      }
    }
  }

  lemma NotKept(cfg: Config, rs: seq<Record>, n: nat)
    requires !PairAbove(cfg, rs, n)
    ensures !Kept(cfg, rs, n)
  {
  }

  lemma Onwards(cfg: Config, rs: seq<Record>, k: Key, n: nat, m: nat)
    requires n <= m && forall i: nat :: n <= i < m ==> !Acts(cfg, rs, i)
    ensures PairIsNext(cfg, rs, k, n) <==> PairIsNext(cfg, rs, k, m)
  {
    hide Stands, PairAbove;
    if PairIsNext(cfg, rs, k, n) {
      var g: nat :| NextIsPair(cfg, rs, k, n, g);
      assert Acts(cfg, rs, g);
      assert NextIsPair(cfg, rs, k, m, g);
    }
    if PairIsNext(cfg, rs, k, m) {
      var g: nat :| NextIsPair(cfg, rs, k, m, g);
      assert NextIsPair(cfg, rs, k, n, g);
    }
  }

  ghost predicate ActsFrom(cfg: Config, rs: seq<Record>, n: nat) { exists i: nat :: n <= i < |rs| && Acts(cfg, rs, i) }

  lemma {:induction false} EmptyByPosition(cfg: Config, rs: seq<Record>, n: nat, st: State)
    requires ValidConfig(cfg) && Sorted(rs) && n <= |rs| && At(cfg, rs, n, st) && !ActedBefore(cfg, rs, n)
    ensures Process(cfg, rs[n..], st) != [] <==> ActsFrom(cfg, rs, n)
    decreases |rs| - n
  {
    hide Advance, Stands, PairAbove, OutputOf, Sorted, ValidConfig, Paired, Noted;
    if n < |rs| {
      var step := Advance(cfg, rs[n..], st);
      FirstAct(cfg, rs, n, st);
      ShownNothing(step.out);
      var m, next := NextTurn(cfg, rs, n, st);
      hide Kept, At;
      if !Acts(cfg, rs, n) {
        ActsGrow(cfg, rs, n);
        if m == n + 2 { Skipped(cfg, rs, n); ActsGrow(cfg, rs, n + 1); }
        EmptyByPosition(cfg, rs, m, next);
      }
    }
  }

  /** Before anything has acted, a position shows something exactly if it acts. */
  lemma FirstAct(cfg: Config, rs: seq<Record>, n: nat, st: State)
    requires n < |rs| && At(cfg, rs, n, st) && !ActedBefore(cfg, rs, n)
    ensures OutputOf(cfg, rs, n) == [] <==> !Acts(cfg, rs, n)
    ensures PairAbove(cfg, rs, n) ==> Kept(cfg, rs, n)
    ensures Stands(cfg, rs, n) ==> !PairAbove(cfg, rs, n)
  {
    hide Stands, PairAbove, Paired, OutputOf, Noted, ActedBefore;
    if n > 0 && Kept(cfg, rs, n - 1) {
      assert Acts(cfg, rs, n - 1);
      ActsGrow(cfg, rs, n - 1);
    }
    if Noted(cfg, rs, n) { NotedActed(cfg, rs, n); }
    Silent(cfg, rs, n);
  }

  ghost predicate TwoFrom(cfg: Config, rs: seq<Record>, n: nat) { exists f: nat, g: nat :: n <= f && FirstTwo(cfg, rs, f, g) }

  lemma {:induction false} FirstByPosition(cfg: Config, rs: seq<Record>, n: nat, st: State)
    requires ValidConfig(cfg) && Sorted(rs) && n <= |rs| && At(cfg, rs, n, st) && !ActedBefore(cfg, rs, n)
    ensures FirstMatters(cfg, rs[n..], st) <==> TwoFrom(cfg, rs, n)
    decreases |rs| - n
  {
    hide Advance, Stands, PairAbove, OutputOf, Sorted, ValidConfig, Paired, Noted, MeetsPair, FirstTwo, At, Kept;
    if n < |rs| {
      var step := Advance(cfg, rs[n..], st);
      FirstAct(cfg, rs, n, st);
      ShownNothing(step.out);
      var m, next := NextTurn(cfg, rs, n, st);
      if !Acts(cfg, rs, n) {
        ActsGrow(cfg, rs, n);
        if m == n + 2 { Skipped(cfg, rs, n); ActsGrow(cfg, rs, n + 1); }
        FirstByPosition(cfg, rs, m, next);
        TwoOnwards(cfg, rs, n, m);
      } else {
        AtFirstAct(cfg, rs, n, st);
      }
    } else {
      NoTwoAtEnd(cfg, rs);
    }
  }

  lemma NoTwoAtEnd(cfg: Config, rs: seq<Record>)
    ensures !TwoFrom(cfg, rs, |rs|)
  {
  }

  lemma TwoOnwards(cfg: Config, rs: seq<Record>, n: nat, m: nat)
    requires n <= m && forall i: nat :: n <= i < m ==> !Acts(cfg, rs, i)
    ensures TwoFrom(cfg, rs, n) <==> TwoFrom(cfg, rs, m)
  {
    hide Stands, PairAbove;
    if TwoFrom(cfg, rs, n) {
      var f: nat, g: nat :| n <= f && FirstTwo(cfg, rs, f, g);
      assert Acts(cfg, rs, f);
    }
  }

  /** The first position that acts: what follows it matters exactly if it stands and a pair of its key is next. */
  lemma AtFirstAct(cfg: Config, rs: seq<Record>, n: nat, st: State)
    requires ValidConfig(cfg) && Sorted(rs) && n < |rs| && At(cfg, rs, n, st) && !ActedBefore(cfg, rs, n) && Acts(cfg, rs, n)
    ensures var step := Advance(cfg, rs[n..], st);
            MeetsPair(cfg, rs[n..][step.used..], step.next) <==> TwoFrom(cfg, rs, n)
  {
    hide Advance, Stands, PairAbove, OutputOf, Sorted, ValidConfig, Paired, Noted;
    FirstAct(cfg, rs, n, st);
    var m, next := NextTurn(cfg, rs, n, st);
    if Stands(cfg, rs, n) {
      NotPaired(cfg, rs, n);
      hide MeetsPair, ActedBefore;
      assert m == n + 1 && !next.clearNext;
      hide Kept, At;
      MeetsByPosition(cfg, rs, m, next, rs[n].key);
      TwoFromFirst(cfg, rs, n);
    } else {
      assert m == n + 1 && next.clearNext;
      NoTwoFromPair(cfg, rs, n);
    }
  }

  lemma TwoFromFirst(cfg: Config, rs: seq<Record>, n: nat)
    requires n < |rs| && !ActedBefore(cfg, rs, n) && Stands(cfg, rs, n)
    ensures TwoFrom(cfg, rs, n) <==> PairIsNext(cfg, rs, rs[n].key, n + 1)
  {
    hide Stands, PairAbove;
    assert Acts(cfg, rs, n);
    if TwoFrom(cfg, rs, n) {
      var f: nat, g: nat :| n <= f && FirstTwo(cfg, rs, f, g);
      assert f == n && NextIsPair(cfg, rs, rs[n].key, n + 1, g);
    }
    if PairIsNext(cfg, rs, rs[n].key, n + 1) {
      var g: nat :| NextIsPair(cfg, rs, rs[n].key, n + 1, g);
      assert FirstTwo(cfg, rs, n, g);
    }
  }

  lemma NoTwoFromPair(cfg: Config, rs: seq<Record>, n: nat)
    requires Acts(cfg, rs, n) && !Stands(cfg, rs, n)
    ensures !TwoFrom(cfg, rs, n)
  {
    hide Stands, PairAbove;
  }

  /** What a fresh run over a piece shows and whether its first output matters, by position. */
  lemma PieceByPosition(cfg: Config, rs: seq<Record>)
    requires ValidConfig(cfg) && Sorted(rs)
    ensures Compact(cfg, rs) != [] <==> ActsFrom(cfg, rs, 0)
    ensures FirstMatters(cfg, rs, INITIAL) <==> TwoFrom(cfg, rs, 0)
  {
    AtStart(cfg, rs);
    EmptyByPosition(cfg, rs, 0, INITIAL);
    FirstByPosition(cfg, rs, 0, INITIAL);
    assert rs[0..] == rs;
    hide Process, FirstMatters;
  }

  // ---- All pieces ----

  /** A part of the input that starts and ends between keys. */
  ghost predicate WholeKeys(rs: seq<Record>, lo: nat, hi: nat) {
    lo <= hi <= |rs| && !Follows(rs, lo) && !Follows(rs, hi)
  }

  /** In such a part every position is what it is in the whole. */
  lemma SamePlace(cfg: Config, rs: seq<Record>, lo: nat, hi: nat, i: nat)
    requires WholeKeys(rs, lo, hi) && i < hi - lo
    ensures Stands(cfg, rs[lo..hi], i) <==> Stands(cfg, rs, lo + i)
    ensures PairAbove(cfg, rs[lo..hi], i) <==> PairAbove(cfg, rs, lo + i)
  {
    var part := rs[lo..hi];
    assert part[i] == rs[lo + i] && (i + 1 < |part| ==> part[i + 1] == rs[lo + i + 1]) && (i > 0 ==> part[i - 1] == rs[lo + i - 1]);
    assert Follows(part, i) <==> Follows(rs, lo + i);
    assert Follows(part, i + 1) <==> Follows(rs, lo + i + 1);
    hide Obsolete, Previous, Stripe;
  }

  /** From boundary b on, the first two positions that act are f and g, and some position before b acts. */
  ghost predicate TellsAt(cfg: Config, rs: seq<Record>, b: Key, j: nat, f: nat, g: nat) {
    && j < f < g < |rs| && rs[j].key < b <= rs[f].key && rs[f].key == rs[g].key
    && Acts(cfg, rs, j) && Stands(cfg, rs, f) && PairAbove(cfg, rs, g)
    && forall i: nat :: i < g && i != f && rs[i].key >= b ==> !Acts(cfg, rs, i)
  }

  ghost predicate TellsFrom(cfg: Config, rs: seq<Record>, b: Key) {
    exists j: nat, f: nat, g: nat :: TellsAt(cfg, rs, b, j, f, g)
  }

  /** Something acts before a boundary, and the first two positions that act from it on are a record that stands and,
      of the same key, a pair above the write-conflict boundary. */
  ghost predicate SplitTells(cfg: Config, rs: seq<Record>, boundaries: seq<Key>) {
    exists b: Key :: b in boundaries && TellsFrom(cfg, rs, b)
  }

  ghost predicate ActsBelow(cfg: Config, rs: seq<Record>, b: Key) {
    exists j: nat :: j < |rs| && rs[j].key < b && Acts(cfg, rs, j)
  }

  /** Where the records from a key on start. */
  lemma CutIndex(rs: seq<Record>, k: Key) returns (n: nat)
    requires Sorted(rs)
    ensures n <= |rs| && SeekTo(rs, k) == rs[n..] && TakeBelow(rs, k) == rs[..n] && !Follows(rs, n)
    ensures forall i: nat :: i < |rs| ==> (i < n <==> rs[i].key < k)
  {
    CutAt(rs, k);
    n := |TakeBelow(rs, k)|;
    var a, b := TakeBelow(rs, k), SeekTo(rs, k);
    assert rs == a + b;
    forall i: nat | i < |rs| ensures i < n <==> rs[i].key < k {
      if i < n { assert rs[i] in a; } else { assert rs[i] == b[i - n] && rs[i] in b; }
    }
  }

  predicate FromOn(start: Option<Key>, k: Key) { start.Some? ==> start.value <= k }

  predicate Until(boundaries: seq<Key>, k: Key) { boundaries != [] ==> k < boundaries[0] }

  /** The part from `start` to the next boundary. */
  ghost predicate Bounded(rs: seq<Record>, start: Option<Key>, boundaries: seq<Key>, lo: nat, hi: nat) {
    && WholeKeys(rs, lo, hi)
    && (forall i: nat :: i < |rs| ==> (lo <= i <==> FromOn(start, rs[i].key)))
    && (forall i: nat :: i < |rs| ==> (i < hi <==> Until(boundaries, rs[i].key)))
  }

  lemma StartIndex(rs: seq<Record>, start: Option<Key>) returns (lo: nat)
    requires Sorted(rs)
    ensures lo <= |rs| && FromStart(rs, start) == rs[lo..] && !Follows(rs, lo)
    ensures forall i: nat :: i < |rs| ==> (lo <= i <==> FromOn(start, rs[i].key))
  {
    lo := 0;
    if start.Some? { lo := CutIndex(rs, start.value); }
  }

  lemma EndIndex(rs: seq<Record>, boundaries: seq<Key>) returns (hi: nat)
    requires Sorted(rs)
    ensures hi <= |rs| && UpTo(rs, FirstOf(boundaries)) == rs[..hi] && !Follows(rs, hi)
    ensures forall i: nat :: i < |rs| ==> (i < hi <==> Until(boundaries, rs[i].key))
  {
    hi := |rs|;
    if boundaries != [] { hi := CutIndex(rs, boundaries[0]); }
  }

  lemma PartIndex(rs: seq<Record>, start: Option<Key>, boundaries: seq<Key>) returns (lo: nat, hi: nat)
    requires Sorted(rs) && (start.Some? && boundaries != [] ==> start.value < boundaries[0])
    ensures lo <= hi <= |rs| && Bounded(rs, start, boundaries, lo, hi) && Part(rs, start, boundaries) == rs[lo..hi]
  {
    lo := StartIndex(rs, start);
    SuffixSorted(rs, lo);
    var n := EndIndex(rs[lo..], boundaries);
    hi := lo + n;
    hide FromStart, UpTo, Sorted;
    assert rs[lo..][..n] == rs[lo..hi];
    forall i: nat | i < |rs| ensures i < hi <==> Until(boundaries, rs[i].key) {
      if lo <= i { assert rs[lo..][i - lo] == rs[i]; } else { assert !FromOn(start, rs[i].key); }
    }
    assert 0 < n < |rs| - lo ==> rs[lo..][n - 1] == rs[hi - 1] && rs[lo..][n] == rs[hi];
  }

  lemma SuffixSorted(rs: seq<Record>, n: nat)
    requires Sorted(rs) && n <= |rs|
    ensures Sorted(rs[n..])
  {
  }

  /** The piece's first two acting positions, with one before it, are what the boundary at its start tells. */
  lemma PieceTells(cfg: Config, rs: seq<Record>, start: Key, boundaries: seq<Key>, lo: nat, hi: nat)
    requires Bounded(rs, Some(start), boundaries, lo, hi) && ActsBelow(cfg, rs, start) && TwoFrom(cfg, rs[lo..hi], 0)
    ensures TellsFrom(cfg, rs, start)
  {
    hide Stands, PairAbove;
    var j: nat :| j < |rs| && rs[j].key < start && Acts(cfg, rs, j);
    var f: nat, g: nat :| FirstTwo(cfg, rs[lo..hi], f, g);
    SamePlace(cfg, rs, lo, hi, f);
    SamePlace(cfg, rs, lo, hi, g);
    forall i: nat | i < lo + g && i != lo + f && rs[i].key >= start ensures !Acts(cfg, rs, i) {
      SamePlace(cfg, rs, lo, hi, i - lo);
      assert !Acts(cfg, rs[lo..hi], i - lo);
    }
    assert TellsAt(cfg, rs, start, j, lo + f, lo + g);
  }

  /** What a boundary tells shows in the piece it starts, or the next boundary tells it as well. */
  lemma BoundaryTells(cfg: Config, rs: seq<Record>, start: Key, boundaries: seq<Key>, lo: nat, hi: nat)
    requires Bounded(rs, Some(start), boundaries, lo, hi) && (boundaries != [] ==> start < boundaries[0]) && TellsFrom(cfg, rs, start)
    ensures ActsBelow(cfg, rs, start)
    ensures TwoFrom(cfg, rs[lo..hi], 0) || (boundaries != [] && TellsFrom(cfg, rs, boundaries[0]))
  {
    hide Stands, PairAbove;
    var j: nat, f: nat, g: nat :| TellsAt(cfg, rs, start, j, f, g);
    if f < hi {
      assert g < hi;
      SamePlace(cfg, rs, lo, hi, f - lo);
      SamePlace(cfg, rs, lo, hi, g - lo);
      forall i: nat | i < g - lo && i != f - lo ensures !Acts(cfg, rs[lo..hi], i) {
        SamePlace(cfg, rs, lo, hi, i);
        assert rs[lo + i].key >= start && !Acts(cfg, rs, lo + i);
      }
      assert FirstTwo(cfg, rs[lo..hi], f - lo, g - lo);
    } else {
      assert TellsAt(cfg, rs, boundaries[0], j, f, g);
    }
  }

  lemma ActsBelowNext(cfg: Config, rs: seq<Record>, start: Option<Key>, boundaries: seq<Key>, lo: nat, hi: nat)
    requires Bounded(rs, start, boundaries, lo, hi) && boundaries != [] && (start.Some? ==> start.value < boundaries[0])
    ensures ActsBelow(cfg, rs, boundaries[0]) <==> (start.Some? && ActsBelow(cfg, rs, start.value)) || ActsFrom(cfg, rs[lo..hi], 0)
  {
    hide Stands, PairAbove;
    if ActsFrom(cfg, rs[lo..hi], 0) {
      var i: nat :| i < hi - lo && Acts(cfg, rs[lo..hi], i);
      SamePlace(cfg, rs, lo, hi, i);
      assert Acts(cfg, rs, lo + i);
    }
    if ActsBelow(cfg, rs, boundaries[0]) {
      var j: nat :| j < |rs| && rs[j].key < boundaries[0] && Acts(cfg, rs, j);
      if lo <= j {
        SamePlace(cfg, rs, lo, hi, j - lo);
        assert Acts(cfg, rs[lo..hi], j - lo);
      }
    }
  }

  lemma TellsHere(cfg: Config, rs: seq<Record>, boundaries: seq<Key>)
    requires boundaries != []
    ensures SplitTells(cfg, rs, boundaries) <==> TellsFrom(cfg, rs, boundaries[0]) || SplitTells(cfg, rs, boundaries[1..])
  {
    hide TellsFrom;
    assert forall b: Key :: b in boundaries <==> b == boundaries[0] || b in boundaries[1..];
  }

  lemma {:induction false} PiecesTellByPosition(cfg: Config, rs: seq<Record>, start: Option<Key>, boundaries: seq<Key>, sought: bool)
    requires ValidConfig(cfg) && Sorted(rs) && StrictlyIncreasing(boundaries)
    requires start.Some? && boundaries != [] ==> start.value < boundaries[0]
    requires sought <==> start.Some? && ActsBelow(cfg, rs, start.value)
    ensures PiecesTell(cfg, rs, start, boundaries, sought) <==>
            (start.Some? && TellsFrom(cfg, rs, start.value)) || SplitTells(cfg, rs, boundaries)
    decreases |boundaries|
  {
    hide Process, FirstMatters, ActsBelow, ActsFrom, TellsFrom, TwoFrom, Sorted, ValidConfig;
    hide Bounded;
    var lo, hi := PartIndex(rs, start, boundaries);
    PartSorted(rs, start, boundaries);
    PieceByPosition(cfg, rs[lo..hi]);
    if start.Some? {
      if sought && TwoFrom(cfg, rs[lo..hi], 0) { PieceTells(cfg, rs, start.value, boundaries, lo, hi); }
      if TellsFrom(cfg, rs, start.value) { BoundaryTells(cfg, rs, start.value, boundaries, lo, hi); }
    }
    if boundaries != [] {
      ActsBelowNext(cfg, rs, start, boundaries, lo, hi);
      TellsHere(cfg, rs, boundaries);
      PiecesTellByPosition(cfg, rs, Some(boundaries[0]), boundaries[1..], sought || Compact(cfg, Part(rs, start, boundaries)) != []);
    }
    hide SplitTells;
  }

  /** The concatenated outputs of the subcompactions are the unsplit output exactly if no boundary tells: after some
      record that acts, the first two that act from the boundary on are never a record that stands and, of its key, a
      pair above the write-conflict boundary. */
  lemma SplitEqualsWhole(cfg: Config, rs: seq<Record>, boundaries: seq<Key>)
    requires ValidConfig(cfg) && Sorted(rs) && StrictlyIncreasing(boundaries)
    ensures AllPieces(cfg, rs, None, boundaries) == Compact(cfg, rs) <==> !SplitTells(cfg, rs, boundaries)
  {
    hide Process;
    PiecesFromStart(cfg, rs, None, boundaries, false);
    PiecesTellByPosition(cfg, rs, None, boundaries, false);
  }

  /** No single delete lies above the write-conflict boundary. */
  predicate SingleDeletesLow(cfg: Config, rs: seq<Record>) {
    forall i :: 0 <= i < |rs| && rs[i].kind == SingleDeletion ==> rs[i].seqno <= cfg.writeConflict
  }

  /** With no single delete above the write-conflict boundary, as when no transaction is open, every split is exact. */
  lemma SplitExactBelowBoundary(cfg: Config, rs: seq<Record>, boundaries: seq<Key>)
    requires ValidConfig(cfg) && Sorted(rs) && StrictlyIncreasing(boundaries) && SingleDeletesLow(cfg, rs)
    ensures AllPieces(cfg, rs, None, boundaries) == Compact(cfg, rs)
  {
    hide Process, Stands;
    SplitEqualsWhole(cfg, rs, boundaries);
    assert forall i: nat :: !PairAbove(cfg, rs, i);
  }
}
