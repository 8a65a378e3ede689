/** Facts about single steps and whole runs of the compaction loop that the theorems share. */
module CompactionFacts {
  import opened Records
  import opened Levels
  import opened CompactionSpec

  // ---- States that can precede a suffix of the input ----

  ghost predicate StateFits(cfg: Config, rs: seq<Record>, st: State) {
    && (st.hasKey ==> forall i :: 0 <= i < |rs| ==>
          st.key <= rs[i].key && (rs[i].key == st.key ==> Stripe(cfg, rs[i].seqno) <= st.stripe))
    && (st.clearNext ==> st.hasKey && st.stripe > Earliest(cfg) && rs != [] && rs[0].key == st.key && rs[0].kind != SingleDeletion)
    && (st.clearNext ==> Stripe(cfg, rs[0].seqno) == st.stripe || (Earliest(cfg) == 0 && rs[0].seqno == 0))
  }

  /** What follows the head is not of a smaller key, and of the same key not of a later stripe. */
  lemma HeadDominates(cfg: Config, rs: seq<Record>, n: nat)
    requires ValidConfig(cfg) && Sorted(rs) && 0 < n <= |rs|
    ensures forall i :: 0 <= i < |rs[n..]| ==>
              rs[0].key <= rs[n..][i].key && (rs[n..][i].key == rs[0].key ==> Stripe(cfg, rs[n..][i].seqno) <= Stripe(cfg, rs[0].seqno))
  {
    forall i | n <= i < |rs|
      ensures rs[0].key <= rs[i].key && (rs[i].key == rs[0].key ==> Stripe(cfg, rs[i].seqno) <= Stripe(cfg, rs[0].seqno))
    {
      assert Before(rs[0], rs[i]);
      if rs[i].key == rs[0].key { StripeMonotone(cfg, rs[i].seqno, rs[0].seqno); }
    }
  }

  lemma NextStateFits(cfg: Config, rs: seq<Record>, st: State)
    requires ValidConfig(cfg) && Sorted(rs) && rs != [] && StateFits(cfg, rs, st)
    ensures var step := Advance(cfg, rs, st); StateFits(cfg, rs[step.used..], step.next)
  {
    var step := Advance(cfg, rs, st);
    HeadDominates(cfg, rs, step.used);
    StripeBounds(cfg, rs[0].seqno);
    if |rs| > 1 && rs[1].key == rs[0].key {
      assert Before(rs[0], rs[1]);
      SameStripeTest(cfg, rs[0].seqno, rs[1].seqno);
    }
    hide Sorted, ValidConfig, Stripe, Previous;
  }

  lemma PastKey(rs: seq<Record>, n: nat, k: Key)
    requires Sorted(rs) && 0 < n <= |rs| && rs[n - 1].key == k && (n == |rs| || rs[n].key != k)
    ensures !Mentions(rs[n..], k)
  {
  }

  lemma PastOtherKey(rs: seq<Record>, k: Key)
    requires Sorted(rs) && rs != [] && rs[0].key > k
    ensures !Mentions(rs, k)
  {
  }

  // ---- Where outputs come from ----

  /** `o` is input record `r`, except that its sequence number may be zeroed and its value cleared. */
  predicate ComesFrom(cfg: Config, o: Record, r: Record) {
    o.key == r.key && o.kind == r.kind && o.seqno == Prepare(cfg, r).seqno && (o.value == r.value || o.value == "")
  }

  lemma StepComesFromHead(cfg: Config, rs: seq<Record>, st: State)
    requires rs != []
    ensures var out := Advance(cfg, rs, st).out; out.Some? ==> ComesFrom(cfg, out.value, rs[0])
  {
  }

  ghost predicate HasSource(cfg: Config, o: Record, rs: seq<Record>) {
    exists i :: 0 <= i < |rs| && ComesFrom(cfg, o, rs[i])
  }

  /** Compaction invents nothing: every output record is an input record up to zeroing and clearing. */
  lemma {:induction false} OutputsComeFromInput(cfg: Config, rs: seq<Record>, st: State)
    ensures forall o :: o in Process(cfg, rs, st) ==> HasSource(cfg, o, rs)
    decreases |rs|
  {
    if rs != [] {
      var step := Advance(cfg, rs, st);
      var rest := rs[step.used..];
      OutputsComeFromInput(cfg, rest, step.next);
      forall o | o in Process(cfg, rs, st) ensures HasSource(cfg, o, rs) {
        if o in Process(cfg, rest, step.next) {
          var i :| 0 <= i < |rest| && ComesFrom(cfg, o, rest[i]);
          assert ComesFrom(cfg, o, rs[step.used + i]);
        } else {
          assert ComesFrom(cfg, o, rs[0]);
        }
      }
    }
  }

  lemma NoRecordsNoOutput(cfg: Config, rs: seq<Record>, st: State, k: Key)
    requires !Mentions(rs, k)
    ensures !Mentions(Process(cfg, rs, st), k)
  {
  }

  lemma LowStripeStep(cfg: Config, rs: seq<Record>, st: State, k: Key)
    requires ValidConfig(cfg) && Sorted(rs) && StateFits(cfg, rs, st) && rs != [] && rs[0].key == k
    requires cfg.job.Some? && NotBeyond(cfg.job.value, k)
    requires st.hasKey && st.key == k && st.stripe == Earliest(cfg)
    ensures var step := Advance(cfg, rs, st);
            && step.out == None
            && (if step.next.hasKey then step.next.key == k && step.next.stripe == Earliest(cfg)
                else step.used == 1 && (|rs| == 1 || rs[1].key != k))
  {
    StripeBounds(cfg, rs[0].seqno);
    if |rs| > 1 && rs[1].key == k {
      assert Before(rs[0], rs[1]);
      StripeBounds(cfg, rs[1].seqno);
      SameStripeTest(cfg, rs[0].seqno, rs[1].seqno);
    }
    hide Sorted, ValidConfig;
  }

  /** Once the earliest stripe of a key has been entered and nothing lies below, the rest of that key
      is silent: it is hidden, cancels in pairs, or is an obsolete tombstone. */
  lemma {:induction false} LowStripeSilent(cfg: Config, rs: seq<Record>, st: State, k: Key)
    requires ValidConfig(cfg) && Sorted(rs) && StateFits(cfg, rs, st)
    requires cfg.job.Some? && NotBeyond(cfg.job.value, k)
    requires st.hasKey && st.key == k && st.stripe == Earliest(cfg)
    ensures !Mentions(Process(cfg, rs, st), k)
    decreases |rs|
  {
    if rs != [] && rs[0].key != k {
      PastOtherKey(rs, k);
      NoRecordsNoOutput(cfg, rs, st, k);
    } else if rs != [] {
      hide Advance, StateFits;
      var step := Advance(cfg, rs, st);
      LowStripeStep(cfg, rs, st, k);
      NextStateFits(cfg, rs, st);
      if step.next.hasKey {
        LowStripeSilent(cfg, rs[step.used..], step.next, k);
      } else {
        PastKey(rs, 1, k);
        NoRecordsNoOutput(cfg, rs[1..], step.next, k);
      }
      assert Process(cfg, rs, st) == Process(cfg, rs[step.used..], step.next);
    }
  }

  // ---- Records at 0 while a snapshot at 0 is held ----

  /** A key's newest record is a put or delete at 0: to the loop it looks like a hidden version. */
  predicate ZeroHead(cfg: Config, rs: seq<Record>, i: nat) {
    && Earliest(cfg) == 0 && i < |rs| && rs[i].seqno == 0 && rs[i].kind != SingleDeletion
    && (i == 0 || rs[i - 1].key != rs[i].key)
  }

  /** Records i and i + 1: a single delete and, directly below it, a record at sequence number 0 that only a
      snapshot at 0 sees; the peek test takes them for one stripe. */
  predicate ZeroPair(cfg: Config, rs: seq<Record>, i: nat, k: Key) {
    && i + 1 < |rs| && Earliest(cfg) == 0 && rs[i].key == k && rs[i + 1].key == k
    && rs[i].kind == SingleDeletion && Previous(cfg, rs[i].seqno) == 0
    && rs[i + 1].kind != SingleDeletion && rs[i + 1].seqno == 0
  }

  /** The run takes up such a pair, its lower record being of this kind, above the write-conflict boundary and
      with no output of the key on record: it keeps the pair and clears the lower record. */
  ghost predicate LeavesPairFrom(cfg: Config, rs: seq<Record>, st: State, k: Key, kind: Kind)
    decreases |rs|
  {
    rs != [] &&
    if ZeroPair(cfg, rs, 0, k)
    then rs[1].kind == kind && rs[0].seqno > cfg.writeConflict && !Enter(st, rs[0]).outputted
    else
      var step := Advance(cfg, rs, st);
      LeavesPairFrom(cfg, rs[step.used..], step.next, k, kind)
  }

  /** A pair further down is still there after the step, and the step shows nothing of the key at 0. */
  lemma PairAhead(cfg: Config, rs: seq<Record>, st: State, k: Key, i: nat)
    requires Sorted(rs) && 0 < i && ZeroPair(cfg, rs, i, k)
    ensures var step := Advance(cfg, rs, st);
            && step.used <= i && ZeroPair(cfg, rs[step.used..], i - step.used, k) && !ZeroPair(cfg, rs, 0, k)
            && rs[step.used..][i - step.used + 1] == rs[i + 1]
            && (step.out.Some? ==> step.out.value.key != k || step.out.value.seqno > 0)
  {
    assert Before(rs[0], rs[i + 1]);
    assert i > 1 ==> Before(rs[1], rs[i + 1]);
  }

  /** At the pair itself: either both records go, or both come out and the lower one has lost its value. */
  lemma PairHere(cfg: Config, rs: seq<Record>, st: State, k: Key)
    requires ValidConfig(cfg) && Sorted(rs) && StateFits(cfg, rs, st) && ZeroPair(cfg, rs, 0, k)
    ensures !Mentions(rs[2..], k)
    ensures if LeavesPairFrom(cfg, rs, st, k, rs[1].kind)
            then exists rest :: Process(cfg, rs, st) == [rs[0], rs[1].(value := "")] + rest && !Mentions(rest, k)
            else !Mentions(Process(cfg, rs, st), k)
  {
    assert Before(rs[0], rs[1]);
    forall j | 2 <= j < |rs| ensures rs[j].key != k { assert Before(rs[1], rs[j]); }
    assert forall j :: 0 <= j < |rs[2..]| ==> rs[2..][j] == rs[j + 2];
    var step := Advance(cfg, rs, st);
    if LeavesPairFrom(cfg, rs, st, k, rs[1].kind) {
      assert step.out == Some(rs[0]) && step.used == 1;
      var second := Advance(cfg, rs[1..], step.next);
      assert rs[1..][0] == rs[1] && second.out == Some(rs[1].(value := "")) && second.used == 1;
      assert rs[1..][1..] == rs[2..];
      NoRecordsNoOutput(cfg, rs[2..], second.next, k);
      assert Process(cfg, rs, st) == [rs[0], rs[1].(value := "")] + Process(cfg, rs[2..], second.next);
    } else {
      assert step.out == None && step.used == 2;
      NoRecordsNoOutput(cfg, rs[2..], step.next, k);
    }
  }
}
