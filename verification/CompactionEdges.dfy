/** Inputs on which a promise fails; the theorems say exactly which other inputs share their fate. */
module CompactionEdges {
  import opened Records
  import opened Levels
  import opened CompactionSpec
  import opened CompactionFacts
  import opened CompactionPositions
  import opened CompactionOutput
  import opened Subcompaction

  /** The smallest snapshot number doubles as "no snapshot yet": while a snapshot at 0 is held, a key whose newest
      record carries sequence number 0 is taken for a hidden version and lost. */
  lemma ZeroSnapshotHidesPut(cfg: Config, k: Key, v: string)
    requires ValidConfig(cfg) && cfg.snapshots != [] && cfg.snapshots[0] == 0
    ensures Compact(cfg, [Record(k, 0, Value, v)]) == []
    ensures Lookup([Record(k, 0, Value, v)], k, 0) == Found(v)
  {
    var rs := [Record(k, 0, Value, v)];
    assert Advance(cfg, rs, INITIAL).out == None;
    assert Process(cfg, rs[1..], Advance(cfg, rs, INITIAL).next) == [];
  }

  /** For the same reason a single delete above such a snapshot cancels the Put the snapshot still reads. */
  lemma ZeroSnapshotDropsPair(cfg: Config, k: Key, s: SeqNo, v: string)
    requires ValidConfig(cfg) && Earliest(cfg) == 0 && Previous(cfg, s) == 0 && 0 < s <= cfg.writeConflict
    ensures var rs := [Record(k, s, SingleDeletion, ""), Record(k, 0, Value, v)];
            Sorted(rs) && Compact(cfg, rs) == [] && Lookup(rs, k, 0) == Found(v)
  {
    var rs := [Record(k, s, SingleDeletion, ""), Record(k, 0, Value, v)];
    assert rs[0].seqno == s && rs[1].key == rs[0].key;
    assert Advance(cfg, rs, INITIAL) == OnSingleDelete(cfg, rs, Enter(INITIAL, rs[0]).(stripe := Stripe(cfg, s)));
    assert Advance(cfg, rs, INITIAL).out == None && Advance(cfg, rs, INITIAL).used == 2;
    assert Process(cfg, rs[2..], Advance(cfg, rs, INITIAL).next) == [];
    assert Compact(cfg, rs) == [];
    assert rs[1..] == [rs[1]];
    assert Lookup(rs[1..], k, 0) == Found(v);
    assert Lookup(rs, k, 0) == Lookup(rs[1..], k, 0);
  }

  /** Two single deletes above a snapshot at 0, the lower one at 0: the upper one goes as if the lower one stood in
      for it, and with it the evidence that the key was written after the snapshot. */
  lemma ZeroSnapshotLosesEvidence(cfg: Config, k: Key, s: SeqNo)
    requires ValidConfig(cfg) && Earliest(cfg) == 0 && cfg.writeConflict == 0 && Previous(cfg, s) == 0 && s > 0
    ensures var rs := [Record(k, s, SingleDeletion, ""), Record(k, 0, SingleDeletion, "")];
            Sorted(rs) && NewerThan(rs, k, 0) && !NewerThan(Compact(cfg, rs), k, 0)
  {
    var rs := [Record(k, s, SingleDeletion, ""), Record(k, 0, SingleDeletion, "")];
    PreviousOfSpec(cfg.snapshots, 0, 0);
    assert rs[0] in rs && rs[1].key == k && rs[1].seqno == 0 && cfg.snapshots[0] in cfg.snapshots;
    assert SinksToZero(cfg, rs, k);
    WriteConflictsStayVisible(cfg, rs, k, 0);
  }

  /** A bottommost compaction of one file that keeps a tombstone every snapshot sees: a Delete at 0 below a single
      delete. */
  lemma ZeroSnapshotKeepsTombstone(k: Key, s: SeqNo)
    requires s > 0
    ensures var file := FileMeta(1, k, k);
            var c := Compaction([[file]], [InputLevel(0, [file])], 0, true);
            var cfg := Config([0], 0, Some(Job(c, true, k, false)));
            var rs := [Record(k, s, SingleDeletion, ""), Record(k, 0, Deletion, "")];
            && WellFormed(c) && NothingBelow(c, k, k) && ValidConfig(cfg) && Sorted(rs)
            && BottommostFits(cfg, rs) && LowTombstone(cfg, Compact(cfg, rs), k)
  {
    var file := FileMeta(1, k, k);
    var c := Compaction([[file]], [InputLevel(0, [file])], 0, true);
    var cfg := Config([0], 0, Some(Job(c, true, k, false)));
    var rs := [Record(k, s, SingleDeletion, ""), Record(k, 0, Deletion, "")];
    assert c.inputs[0].files != [];
    assert cfg.snapshots[1..] == [];
    assert Previous(cfg, s) == PreviousOf(cfg.snapshots[1..], s, 0) == 0;
    assert ZeroPair(cfg, rs, 0, k);
    assert Kept(cfg, rs, 0);
    assert LeavesPair(cfg, rs, k, Deletion);
    NoTombstoneAtTheBottom(cfg, rs, k);
  }

  // ---- A split that differs ----

  const OLDER := FileMeta(1, 1.0, 2.0)
  const NEWER := FileMeta(2, 2.0, 3.0)

  /** Two level-0 files: key 2 starts with a Put, followed by a single delete and, in the older file, the Put it
      deletes. */
  const HISTORY := [
    Record(1.0, 6, Value, "a"), Record(2.0, 9, Value, "b"), Record(2.0, 8, SingleDeletion, ""), Record(2.0, 7, Value, "c"),
    Record(3.0, 10, Value, "d")]

  /** Their compaction into level 1, with the write-conflict boundary below all of it. */
  const MERGE := Compaction([[NEWER, OLDER], []], [InputLevel(0, [NEWER, OLDER])], 1, false)
  const CONFIG := Config([5], 5, Some(Job(MERGE, false, 3.0, false)))

  lemma Whole()
    ensures Compact(CONFIG, HISTORY) == [HISTORY[0], HISTORY[1], HISTORY[4]]
  {
    var rs := HISTORY;
    assert CONFIG.snapshots[1..] == [];
    var s1 := Advance(CONFIG, rs, INITIAL);
    assert s1.out == Some(rs[0]) && s1.used == 1;
    var s2 := Advance(CONFIG, rs[1..], s1.next);
    assert s2.out == Some(rs[1]) && s2.used == 1 && s2.next.outputted && rs[1..][1..] == rs[2..];
    var s3 := Advance(CONFIG, rs[2..], s2.next);
    assert s3.out == None && s3.used == 2 && rs[2..][2..] == rs[4..];
    var s4 := Advance(CONFIG, rs[4..], s3.next);
    assert s4.out == Some(rs[4]) && s4.used == 1 && rs[4..][1..] == [];
    assert Process(CONFIG, rs[4..], s3.next) == [rs[4]];
    assert Process(CONFIG, rs[2..], s2.next) == [rs[4]];
    assert Process(CONFIG, rs[1..], s1.next) == [rs[1], rs[4]];
  }

  lemma SecondPiece()
    ensures Compact(CONFIG, HISTORY[1..]) == [HISTORY[1], HISTORY[2], HISTORY[3].(value := ""), HISTORY[4]]
  {
    var rs := HISTORY[1..];
    assert CONFIG.snapshots[1..] == [];
    var s1 := Advance(CONFIG, rs, INITIAL);
    assert s1.out == Some(rs[0]) && s1.used == 1 && !s1.next.outputted;
    var s2 := Advance(CONFIG, rs[1..], s1.next);
    assert s2.out == Some(rs[1]) && s2.used == 1 && s2.next.clearNext;
    assert rs[1..][1..] == rs[2..];
    var s3 := Advance(CONFIG, rs[2..], s2.next);
    assert s3.out == Some(rs[2].(value := "")) && s3.used == 1;
    assert rs[2..][1..] == rs[3..];
    var s4 := Advance(CONFIG, rs[3..], s3.next);
    assert s4.out == Some(rs[3]) && s4.used == 1;
    assert rs[3..][1..] == [];
    assert Process(CONFIG, rs[3..], s3.next) == [rs[3]];
    assert Process(CONFIG, rs[2..], s2.next) == [rs[2].(value := ""), rs[3]];
    assert Process(CONFIG, rs[1..], s1.next) == [rs[1], rs[2].(value := ""), rs[3]];
  }

  /** With single deletes the pieces need not be the unsplit output: the first record a piece emits is not
      remembered as output, so a piece that starts at key 2, a candidate inside the hull, keeps the pair the unsplit
      run drops. */
  lemma SplitCanDiffer()
    ensures WellFormed(MERGE) && ValidConfig(CONFIG) && Sorted(HISTORY) && Candidate(MERGE, 2.0) && IsHull(MERGE.inputs, 1.0, 3.0)
    ensures AllPieces(CONFIG, HISTORY, None, [2.0]) != Compact(CONFIG, HISTORY)
  {
    hide Process, WellFormed, Candidate, IsHull;
    Whole();
    SecondPiece();
    assert SeekTo(HISTORY, 2.0) == HISTORY[1..] by { assert HISTORY[1..][0].key == 2.0; }
    var cut := [2.0];
    assert cut[1..] == [];
    assert AllPieces(CONFIG, HISTORY, None, cut) == Piece(CONFIG, HISTORY, None, Some(2.0)) + Piece(CONFIG, HISTORY, Some(2.0), None);
    assert |Piece(CONFIG, HISTORY, Some(2.0), None)| == 4;
    Hull();
  }

  lemma Hull()
    ensures WellFormed(MERGE) && Candidate(MERGE, 2.0) && IsHull(MERGE.inputs, 1.0, 3.0)
  {
    var files := [NEWER, OLDER];
    assert MERGE.inputs[0].files == files && files[0] in files && files[1] in files && IsEnd(files, 2, 2.0);
    assert CandidateAt(MERGE, 0, 2.0) && InputFile(MERGE.inputs, NEWER) && InputFile(MERGE.inputs, OLDER);
  }
}
