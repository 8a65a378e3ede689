/** The compaction iterator as the source writes it: one object whose methods advance an input cursor
    and a handful of flags.  Its run is proved to be the function `Compact`. */
module CompactionIteration {
  import opened Records
  import opened Levels
  import opened CompactionSpec

  class CompactionIterator {
    const cfg: Config
    const input: seq<Record>
    const levelPtrs: array<nat>

    var pos: nat                 // input_
    var valid: bool
    var current: Record          // key_, value_ and ikey_
    var atNext: bool
    var hasCurrentUserKey: bool
    var currentUserKey: Key
    var currentUserKeySnapshot: SeqNo
    var hasOutputtedKey: bool
    var clearAndOutputNextKey: bool
    ghost var sought: bool       // SeekToFirst has returned

    ghost predicate Consistent()
      reads this, levelPtrs
    {
      && ValidConfig(cfg) && Sorted(input) && pos <= |input|
      && (cfg.job.Some? ==>
            && WellFormed(cfg.job.value.compaction)
            && forall i :: pos <= i < |input| ==> CursorsFit(cfg.job.value.compaction, levelPtrs[..], input[i].key))
    }

    ghost function Memory(): State
      reads this
    {
      State(hasCurrentUserKey, currentUserKey, currentUserKeySnapshot, hasOutputtedKey, clearAndOutputNextKey, sought)
    }

    /** Where the next read of the input starts once the current output is consumed. */
    function Resume(): nat
      reads this
    {
      if atNext then pos else pos + 1
    }

    /** Everything the caller will still see, the current record first. */
    ghost function Remaining(): seq<Record>
      requires valid ==> Resume() <= |input|
      reads this
    {
      if valid then [current] + Process(cfg, input[Resume()..], Memory()) else []
    }

    ghost predicate Ready()
      reads this, levelPtrs
    {
      Consistent() && (valid ==> Resume() <= |input|)
    }

    constructor (input: seq<Record>, cfg: Config)
      requires ValidConfig(cfg) && Sorted(input) && (cfg.job.Some? ==> WellFormed(cfg.job.value.compaction))
      ensures Consistent() && !valid && Memory() == INITIAL && pos == 0
      ensures this.input == input && this.cfg == cfg && fresh(levelPtrs)
    {
      this.cfg, this.input := cfg, input;
      var n := if cfg.job.Some? then |cfg.job.value.compaction.levels| else 0;
      levelPtrs := new nat[n](_ => 0);
      pos, valid, atNext, current := 0, false, false, Record(0.0, 0, Value, "");
      hasCurrentUserKey, currentUserKey, currentUserKeySnapshot := false, 0.0, 0;
      hasOutputtedKey, clearAndOutputNextKey, sought := false, false, false;
    }

    method FindEarliestVisibleSnapshot(s: SeqNo) returns (cur: SeqNo, prev: SeqNo)
      ensures cur == Stripe(cfg, s) && prev == Previous(cfg, s)
    {
      cur, prev := MAX_SEQNO, 0;
      for i := 0 to |cfg.snapshots|
        invariant Stripe(cfg, s) == VisibleFrom(cfg.snapshots[i..], s)
        invariant Previous(cfg, s) == PreviousOf(cfg.snapshots[i..], s, prev)
      {
        assert cfg.snapshots[i..][1..] == cfg.snapshots[i + 1..];
        cur := cfg.snapshots[i];
        if cur >= s { return cur, prev; }
        prev := cur;
      }
      cur := MAX_SEQNO;
    }

    /** The level check of the source, moving the cursors forward. */
    method KeyGoneBelow(k: Key) returns (b: bool)
      requires Consistent() && cfg.job.Some?
      requires CursorsFit(cfg.job.value.compaction, levelPtrs[..], k)
      requires forall i :: pos <= i < |input| ==> k <= input[i].key
      modifies levelPtrs
      ensures Consistent() && (b <==> NotBeyond(cfg.job.value, k))
    {
      var job := cfg.job.value;
      b := KeyNotExistsBeyondOutputLevel(job.compaction, job.bottommost, k, levelPtrs);
      forall i | pos <= i < |input| ensures CursorsFit(job.compaction, levelPtrs[..], input[i].key) {
        CursorsFitLater(job.compaction, levelPtrs[..], k, input[i].key);
      }
    }

    /** Peek past a SingleDelete and decide whether to drop it, to drop it with its Put, or to keep it. */
    method HandleSingleDelete(prevSnapshot: SeqNo)
      requires Consistent() && pos < |input| && !valid && !atNext
      requires current == input[pos] && current.kind == SingleDeletion && prevSnapshot == Previous(cfg, current.seqno)
      modifies this, levelPtrs
      ensures Consistent() && sought == old(sought) && current == old(current)
      ensures Matches(OnSingleDelete(cfg, input[old(pos)..], old(Memory())), old(pos))
    {
      hide WellFormed, CursorsFit, ValidConfig;
      ghost var rs := input[pos..];
      assert forall i :: pos < i < |input| ==> Before(input[pos], input[i]);
      pos := pos + 1;
      if pos < |input| && input[pos].key == current.key {
        assert rs[1] == input[pos];
        if prevSnapshot == 0 || input[pos].seqno > prevSnapshot {
          if input[pos].kind == SingleDeletion {
          } else if current.seqno <= cfg.writeConflict || hasOutputtedKey {
            pos := pos + 1;
          } else {
            valid := true;
            clearAndOutputNextKey := true;
          }
        } else {
          valid := true;
        }
      } else {
        hasCurrentUserKey := false;
        var gone := false;
        if cfg.job.Some? && current.seqno <= Earliest(cfg) {
          gone := KeyGoneBelow(current.key);
        }
        if !gone { valid := true; }
      }
      if valid { atNext := true; }
    }

    /** This iteration did what `step` says, up to PrepareOutput and the bookkeeping of Next. */
    ghost predicate Matches(step: Step, start: nat)
      reads this
    {
      && valid == step.out.Some?
      && (valid ==> step.out.value == Prepare(cfg, current) && step.next == Handed(Memory()) && Resume() == start + step.used)
      && (!valid ==> step.next == Memory() && pos == start + step.used && !atNext)
    }

    /** Take up the next input record: note a change of user key and find the record's stripe. */
    method TakeUp() returns (lastSnapshot: SeqNo, prevSnapshot: SeqNo)
      requires Consistent() && pos < |input|
      modifies this
      ensures Consistent() && pos == old(pos) && valid == old(valid) && atNext == old(atNext)
      ensures current == input[pos]
      ensures lastSnapshot == Enter(old(Memory()), current).stripe && prevSnapshot == Previous(cfg, current.seqno)
      ensures Memory() == Enter(old(Memory()), current).(stripe := Stripe(cfg, current.seqno))
    {
      hide WellFormed, CursorsFit, ValidConfig, Sorted;
      current := input[pos];
      if !hasCurrentUserKey || current.key != currentUserKey {
        currentUserKey, hasCurrentUserKey := current.key, true;
        hasOutputtedKey, currentUserKeySnapshot := false, 0;
      }
      lastSnapshot := currentUserKeySnapshot;
      currentUserKeySnapshot, prevSnapshot := FindEarliestVisibleSnapshot(current.seqno);
    }

    /** One iteration of the loop in NextFromInput. */
    method Iterate()
      requires Consistent() && pos < |input| && !valid && !atNext
      modifies this, levelPtrs
      ensures Consistent() && sought == old(sought)
      ensures Matches(Advance(cfg, input[old(pos)..], old(Memory())), old(pos))
    {
      hide WellFormed, CursorsFit, ValidConfig, OnSingleDelete, NotBeyond;
      assert forall i :: pos < i < |input| ==> Before(input[pos], input[i]);
      var lastSnapshot, prevSnapshot := TakeUp();
      if clearAndOutputNextKey {
        current := current.(value := "");
        valid := true;
        clearAndOutputNextKey := false;
      } else if current.kind == SingleDeletion {
        HandleSingleDelete(prevSnapshot);
      } else if lastSnapshot == currentUserKeySnapshot {
        pos := pos + 1;
      } else {
        var gone := false;
        if cfg.job.Some? && current.kind == Deletion && current.seqno <= Earliest(cfg) {
          gone := KeyGoneBelow(current.key);
        }
        if gone { pos := pos + 1; } else { valid := true; }
      }
    }

    method NextFromInput()
      requires Consistent()
      modifies this, levelPtrs
      ensures Ready() && sought == old(sought)
      ensures Process(cfg, input[old(pos)..], old(Memory())) ==
              if valid then [Prepare(cfg, current)] + Process(cfg, input[Resume()..], Handed(Memory())) else []
    {
      hide Advance, WellFormed, CursorsFit, ValidConfig, Sorted;
      atNext, valid := false, false;
      ghost var all := Process(cfg, input[pos..], Memory());
      while !valid && pos < |input|
        invariant Ready() && sought == old(sought) && (!valid ==> !atNext)
        invariant all == if valid then [Prepare(cfg, current)] + Process(cfg, input[Resume()..], Handed(Memory()))
                         else Process(cfg, input[pos..], Memory())
        decreases !valid, |input| - pos
      {
        ghost var start := pos;
        ghost var step := Advance(cfg, input[pos..], Memory());
        assert input[start..][step.used..] == input[start + step.used..];
        Iterate();
      }
    }

    method PrepareOutput()
      modifies `current
      ensures current == if valid then Prepare(cfg, old(current)) else old(current)
    {
      if cfg.job.Some? && !cfg.job.value.ingestBehind && cfg.job.value.bottommost && valid
         && current.seqno <= Earliest(cfg) && cfg.job.value.largestKey != current.key {
        current := current.(seqno := 0);
      }
    }

    /** Called once; afterwards the caller will see exactly the compacted input. */
    method SeekToFirst()
      requires Consistent() && !valid && pos == 0 && Memory() == INITIAL
      modifies this, levelPtrs
      ensures Ready() && sought && Remaining() == Compact(cfg, input)
    {
      assert input[0..] == input;
      NextFromInput();
      PrepareOutput();
      sought := true;
    }

    method Next()
      requires Ready() && valid && sought
      modifies this, levelPtrs
      ensures Ready() && sought && Remaining() == old(Remaining())[1..]
    {
      hide Process;
      if !atNext { pos := pos + 1; }
      NextFromInput();
      if valid { hasOutputtedKey := true; }
      PrepareOutput();
    }
  }

  /** The loop of a compaction job: seek once, take every valid record. */
  method RunToEnd(input: seq<Record>, cfg: Config) returns (out: seq<Record>)
    requires ValidConfig(cfg) && Sorted(input) && (cfg.job.Some? ==> WellFormed(cfg.job.value.compaction))
    ensures out == Compact(cfg, input)
  {
    hide Process;
    var it := new CompactionIterator(input, cfg);
    it.SeekToFirst();
    out := [];
    while it.valid
      invariant it.Ready() && it.sought && fresh(it) && fresh(it.levelPtrs)
      invariant out + it.Remaining() == Compact(cfg, input)
      decreases |it.Remaining()|
    {
      out := out + [it.current];
      it.Next();
    }
  }
}
