/** Reads over a compacted run and the files of the deeper levels: what the level check and the bottommost test
    say about file ranges is true of the records in the files. */
module CompactionDeeper {
  import opened Records
  import opened Levels
  import opened CompactionSpec
  import opened CompactionReads

  /** The records of every file, level by level. */
  type Contents = seq<seq<seq<Record>>>

  predicate InFile(f: FileMeta, rs: seq<Record>) { forall i :: 0 <= i < |rs| ==> Holds(f, rs[i].key) }

  /** Below the output level, each file holds keys of its range only. */
  ghost predicate Stored(c: Compaction, contents: Contents) {
    && |contents| == |c.levels|
    && (forall lvl :: c.outputLevel < lvl < |c.levels| ==> |contents[lvl]| == |c.levels[lvl]|)
    && (forall lvl, i :: c.outputLevel < lvl < |c.levels| && 0 <= i < |c.levels[lvl]| ==> InFile(c.levels[lvl][i], contents[lvl][i]))
  }

  /** A level answers with the first of its files that mentions the key. */
  function LookupFiles(files: seq<seq<Record>>, k: Key, s: SeqNo): Answer {
    if files == [] then Absent
    else
      var a := Lookup(files[0], k, s);
      if a == Absent then LookupFiles(files[1..], k, s) else a
  }

  /** The first level that mentions the key decides. */
  function ReadLevels(contents: Contents, lvl: nat, k: Key, s: SeqNo): Option<string>
    decreases |contents| - lvl
  {
    if lvl >= |contents| then None
    else match LookupFiles(contents[lvl], k, s)
      case Found(v) => Some(v)
      case Deleted => None
      case Absent => ReadLevels(contents, lvl + 1, k, s)
  }

  /** What the levels below the output level answer. */
  function Below(c: Compaction, contents: Contents): Older {
    (k: Key, s: SeqNo) => ReadLevels(contents, c.outputLevel + 1, k, s)
  }

  lemma {:induction false} NotInFiles(files: seq<seq<Record>>, k: Key, s: SeqNo)
    requires forall i :: 0 <= i < |files| ==> !Mentions(files[i], k)
    ensures LookupFiles(files, k, s) == Absent
  {
    if files != [] {
      NotMentionedIsAbsent(files[0], k, s);
      NotInFiles(files[1..], k, s);
    }
  }

  /** A key that no deeper file spans has no deeper answer. */
  lemma {:induction false} AbsentMeansNone(c: Compaction, contents: Contents, lvl: nat, k: Key, s: SeqNo)
    requires Stored(c, contents) && AbsentBelow(c, k) && c.outputLevel < lvl
    ensures ReadLevels(contents, lvl, k, s) == None
    decreases |contents| - lvl
  {
    if lvl < |contents| {
      forall i | 0 <= i < |contents[lvl]| ensures !Mentions(contents[lvl][i], k) {
        assert InFile(c.levels[lvl][i], contents[lvl][i]) && !Holds(c.levels[lvl][i], k);
      }
      NotInFiles(contents[lvl], k, s);
      AbsentMeansNone(c, contents, lvl + 1, k, s);
    }
  }

  /** Whatever the files hold: if the bottommost flag comes from the bottommost test on the input hull, the level
      check tells the truth about every input key. */
  lemma DeeperAgrees(cfg: Config, rs: seq<Record>, contents: Contents, lo: Key, hi: Key, k: Key)
    requires cfg.job.Some? && Stored(cfg.job.value.compaction, contents)
    requires cfg.job.value.bottommost ==> NothingBelow(cfg.job.value.compaction, lo, hi)
    requires forall i :: 0 <= i < |rs| ==> lo <= rs[i].key <= hi
    ensures OlderAgrees(cfg, rs, Below(cfg.job.value.compaction, contents), k)
  {
    var c := cfg.job.value.compaction;
    if Mentions(rs, k) && NotBeyond(cfg.job.value, k) {
      if c.universal { BottommostKeyAbsentBelow(c, lo, hi, k); }
      forall s: SeqNo ensures Below(c, contents)(k, s) == None { AbsentMeansNone(c, contents, c.outputLevel + 1, k, s); }
    }
  }

  /** Compacting a run changes no read through the run and the files below it, up to readers that a snapshot at 0
      leads astray. */
  lemma ReadsThroughLevelsKept(cfg: Config, rs: seq<Record>, contents: Contents, lo: Key, hi: Key, k: Key, s: SeqNo)
    requires ValidConfig(cfg) && Sorted(rs) && cfg.job.Some? && Stored(cfg.job.value.compaction, contents)
    requires cfg.job.value.bottommost ==> NothingBelow(cfg.job.value.compaction, lo, hi)
    requires forall i :: 0 <= i < |rs| ==> lo <= rs[i].key <= hi
    requires Disciplined(rs, Below(cfg.job.value.compaction, contents), k) && LivePoint(cfg, rs, s)
    ensures var older := Below(cfg.job.value.compaction, contents);
            && (Read(Compact(cfg, rs), older, k, s) == Read(rs, older, k, s) <==> Spared(cfg, rs, older, k, s))
            && (Earliest(cfg) > 0 ==> Read(Compact(cfg, rs), older, k, s) == Read(rs, older, k, s))
  {
    hide Process, Spared;
    DeeperAgrees(cfg, rs, contents, lo, hi, k);
    CompactionPreservesReads(cfg, rs, Below(cfg.job.value.compaction, contents), k, s);
  }
}
