/** Split compactions and single deletes: the pieces together need not be the unsplit output, but every read
    still gets the same answer. */
module SubcompactionReads {
  import opened Records
  import opened Levels
  import opened CompactionSpec
  import opened CompactionFacts
  import opened CompactionReads
  import opened Subcompaction

  // ---- Lookups in parts of a run ----

  lemma {:induction false} LookupConcat(a: seq<Record>, b: seq<Record>, k: Key, s: SeqNo)
    ensures Lookup(a + b, k, s) == if Lookup(a, k, s) == Absent then Lookup(b, k, s) else Lookup(a, k, s)
  {
    if a == [] {
      assert a + b == b;
    } else {
      assert (a + b)[1..] == a[1..] + b;
      LookupConcat(a[1..], b, k, s);
    }
  }

  lemma NobodyMentions(rs: seq<Record>, k: Key, s: SeqNo)
    requires forall r :: r in rs ==> r.key != k
    ensures Lookup(rs, k, s) == Absent
  {
  }

  lemma {:induction false} SeekIsSuffix(rs: seq<Record>, start: Key) returns (n: nat)
    requires Sorted(rs)
    ensures n <= |rs| && SeekTo(rs, start) == rs[n..] && forall i :: 0 <= i < n ==> rs[i].key < start
  {
    if rs != [] && rs[0].key < start {
      var m := SeekIsSuffix(rs[1..], start);
      n := m + 1;
    } else {
      n := 0;
    }
  }

  lemma SeekKeepsLookup(rs: seq<Record>, start: Key, k: Key, s: SeqNo)
    requires Sorted(rs) && start <= k
    ensures Lookup(SeekTo(rs, start), k, s) == Lookup(rs, k, s)
  {
  }

  // ---- Keys of the output ascend ----

  ghost predicate KeysAscend(rs: seq<Record>) {
    forall i, j :: 0 <= i < j < |rs| ==> rs[i].key <= rs[j].key
  }

  lemma {:induction false} OutputKeysAscend(cfg: Config, rs: seq<Record>, st: State)
    requires Sorted(rs)
    ensures KeysAscend(Process(cfg, rs, st))
    decreases |rs|
  {
    if rs != [] {
      var step := Advance(cfg, rs, st);
      var rest := rs[step.used..];
      OutputKeysAscend(cfg, rest, step.next);
      StepComesFromHead(cfg, rs, st);
      OutputsComeFromInput(cfg, rest, step.next);
      forall o | o in Process(cfg, rest, step.next) ensures rs[0].key <= o.key {
        var i :| 0 <= i < |rest| && ComesFrom(cfg, o, rest[i]);
        assert Before(rs[0], rs[step.used + i]);
      }
      hide Advance;
    }
  }

  lemma {:induction false} SeekSplits(rs: seq<Record>, end: Key)
    requires KeysAscend(rs)
    ensures rs == TakeBelow(rs, end) + SeekTo(rs, end) && forall r :: r in SeekTo(rs, end) ==> r.key >= end
  {
    if rs != [] && rs[0].key < end { SeekSplits(rs[1..], end); }
  }

  lemma TakeKeepsLookup(rs: seq<Record>, end: Key, k: Key, s: SeqNo)
    requires KeysAscend(rs) && k < end
    ensures Lookup(TakeBelow(rs, end), k, s) == Lookup(rs, k, s)
  {
    SeekSplits(rs, end);
    LookupConcat(TakeBelow(rs, end), SeekTo(rs, end), k, s);
    NobodyMentions(SeekTo(rs, end), k, s);
  }

  // ---- The pieces ----

  ghost predicate Fit(cfg: Config, rs: seq<Record>, older: Older, k: Key, s: SeqNo) {
    && ValidConfig(cfg) && Sorted(rs)
    && OlderAgrees(cfg, rs, older, k) && Disciplined(rs, older, k) && LivePoint(cfg, rs, s)
  }

  lemma FitFromStart(cfg: Config, rs: seq<Record>, start: Option<Key>, older: Older, k: Key, s: SeqNo)
    requires Fit(cfg, rs, older, k, s)
    ensures Fit(cfg, FromStart(rs, start), older, k, s)
  {
    if start.Some? {
      var n := SeekIsSuffix(rs, start.value);
      assert forall i :: 0 <= i < |rs| - n ==> rs[n..][i] == rs[n + i];
      DisciplinedSuffix(rs, older, k, n);
      hide Disciplined;
    }
  }

  /** A piece that covers k answers for k as the input does, unless a snapshot at 0 leads the reader astray in it. */
  lemma PieceReads(cfg: Config, rs: seq<Record>, start: Option<Key>, end: Option<Key>, older: Older, k: Key, s: SeqNo)
    requires Fit(cfg, rs, older, k, s) && (start.Some? ==> start.value <= k) && (end.Some? ==> k < end.value)
    ensures Read(Piece(cfg, rs, start, end), older, k, s) == Read(rs, older, k, s) <==> Spared(cfg, FromStart(rs, start), older, k, s)
  {
    hide Process, Spared;
    var input := FromStart(rs, start);
    FitFromStart(cfg, rs, start, older, k, s);
    CompactionPreservesReads(cfg, input, older, k, s);
    if start.Some? { SeekKeepsLookup(rs, start.value, k, s); }
    if end.Some? {
      OutputKeysAscend(cfg, input, INITIAL);
      TakeKeepsLookup(Compact(cfg, input), end.value, k, s);
    }
  }

  lemma {:induction false} TakenFrom(rs: seq<Record>, end: Key, o: Record)
    requires o in TakeBelow(rs, end)
    ensures o in rs && o.key < end
  {
    if rs != [] && rs[0].key < end && o != rs[0] { TakenFrom(rs[1..], end, o); }
  }

  /** Where the range that holds k starts. */
  function StartFor(start: Option<Key>, boundaries: seq<Key>, k: Key): Option<Key>
    decreases |boundaries|
  {
    if boundaries == [] || k < boundaries[0] then start else StartFor(Some(boundaries[0]), boundaries[1..], k)
  }

  lemma {:induction false} PiecesPreserveReads(cfg: Config, rs: seq<Record>, start: Option<Key>, boundaries: seq<Key>,
                                               older: Older, k: Key, s: SeqNo)
    requires Fit(cfg, rs, older, k, s) && (start.Some? ==> start.value <= k)
    requires StrictlyIncreasing(boundaries) && (start.Some? && boundaries != [] ==> start.value < boundaries[0])
    ensures Read(AllPieces(cfg, rs, start, boundaries), older, k, s) == Read(rs, older, k, s) <==>
            Spared(cfg, FromStart(rs, StartFor(start, boundaries, k)), older, k, s)
    decreases |boundaries|
  {
    hide Process, Fit, Spared;
    assert Sorted(rs) by { FitSorted(cfg, rs, older, k, s); }
    if boundaries == [] {
      PieceReads(cfg, rs, start, None, older, k, s);
    } else {
      var end := boundaries[0];
      var piece, rest := Piece(cfg, rs, start, Some(end)), AllPieces(cfg, rs, Some(end), boundaries[1..]);
      LookupConcat(piece, rest, k, s);
      if k < end {
        PieceReads(cfg, rs, start, Some(end), older, k, s);
        forall o | o in rest ensures o.key != k { PiecesAbove(cfg, rs, end, boundaries[1..], o); }
        NobodyMentions(rest, k, s);
      } else {
        forall o | o in piece ensures o.key != k { TakenFrom(Compact(cfg, FromStart(rs, start)), end, o); }
        NobodyMentions(piece, k, s);
        PiecesPreserveReads(cfg, rs, Some(end), boundaries[1..], older, k, s);
      }
    }
  }

  lemma FitSorted(cfg: Config, rs: seq<Record>, older: Older, k: Key, s: SeqNo)
    requires Fit(cfg, rs, older, k, s)
    ensures Sorted(rs)
  {
  }

  /** Whatever the boundaries, the pieces together answer every read as the input does, single deletes included;
      readers that a snapshot at 0 leads astray in the piece of their key are the only exception. */
  lemma SplitPreservesReads(cfg: Config, rs: seq<Record>, boundaries: seq<Key>, older: Older, k: Key, s: SeqNo)
    requires ValidConfig(cfg) && Sorted(rs) && StrictlyIncreasing(boundaries)
    requires OlderAgrees(cfg, rs, older, k) && Disciplined(rs, older, k) && LivePoint(cfg, rs, s)
    ensures Read(AllPieces(cfg, rs, None, boundaries), older, k, s) == Read(rs, older, k, s) <==>
            Spared(cfg, FromStart(rs, StartFor(None, boundaries, k)), older, k, s)
    ensures Earliest(cfg) > 0 ==> Read(AllPieces(cfg, rs, None, boundaries), older, k, s) == Read(rs, older, k, s)
  {
    assert Fit(cfg, rs, older, k, s);
    hide Fit;
    PiecesPreserveReads(cfg, rs, None, boundaries, older, k, s);
  }
}
