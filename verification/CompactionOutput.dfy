/** The shape of a compaction's output: order, tombstones at the bottom, write-conflict evidence, and
    exactly which records survive. */
module CompactionOutput {
  import opened Records
  import opened Levels
  import opened CompactionSpec
  import opened CompactionFacts
  import opened CompactionPositions

  /** A bottommost job reads keys of its own input hull, so nothing lies below any of them. */
  ghost predicate BottommostFits(cfg: Config, rs: seq<Record>) {
    cfg.job.Some? && cfg.job.value.bottommost ==>
      forall i :: 0 <= i < |rs| ==> NotBeyond(cfg.job.value, rs[i].key)
  }

  /** The bottommost test of the compaction establishes that condition. */
  lemma BottommostTestSuffices(cfg: Config, rs: seq<Record>, lo: Key, hi: Key)
    requires cfg.job.Some? && cfg.job.value.bottommost ==>
      NothingBelow(cfg.job.value.compaction, lo, hi)
    requires forall i :: 0 <= i < |rs| ==> lo <= rs[i].key <= hi
    ensures BottommostFits(cfg, rs)
  {
    if cfg.job.Some? && cfg.job.value.bottommost {
      forall i | 0 <= i < |rs| ensures NotBeyond(cfg.job.value, rs[i].key) {
        BottommostKeyAbsentBelow(cfg.job.value.compaction, lo, hi, rs[i].key);
      }
    }
  }

  ghost predicate Fits(cfg: Config, rs: seq<Record>, st: State) {
    ValidConfig(cfg) && Sorted(rs) && BottommostFits(cfg, rs) && StateFits(cfg, rs, st)
  }

  lemma FitsNext(cfg: Config, rs: seq<Record>, st: State)
    requires Fits(cfg, rs, st) && rs != []
    ensures var step := Advance(cfg, rs, st); Fits(cfg, rs[step.used..], step.next)
  {
    var step := Advance(cfg, rs, st);
    NextStateFits(cfg, rs, st);
    assert forall i :: 0 <= i < |rs| - step.used ==> rs[step.used..][i] == rs[step.used + i];
  }

  // ---- No tombstone at the bottom ----

  /** A tombstone of `k` that every snapshot sees. */
  ghost predicate LowTombstone(cfg: Config, out: seq<Record>, k: Key) {
    exists o :: o in out && o.key == k && o.seqno <= Earliest(cfg) && o.kind != Value
  }

  lemma EmitsNoLowTombstone(cfg: Config, rs: seq<Record>, st: State)
    requires ValidConfig(cfg) && StateFits(cfg, rs, st) && rs != [] && cfg.job.Some? && NotBeyond(cfg.job.value, rs[0].key)
    ensures var out := Advance(cfg, rs, st).out;
            out.Some? && rs[0].seqno <= Earliest(cfg) && rs[0].kind != Value ==> st.clearNext && Earliest(cfg) == 0 && rs[0].seqno == 0
  {
    StripeBounds(cfg, rs[0].seqno);
  }

  /** Of a key that nothing below the output level can hold, a compaction keeps a tombstone that every snapshot sees
      exactly if it leaves a single delete above a Delete at 0, which takes a snapshot at 0. */
  lemma {:induction false} LowTombstones(cfg: Config, rs: seq<Record>, st: State, k: Key)
    requires ValidConfig(cfg) && Sorted(rs) && StateFits(cfg, rs, st) && cfg.job.Some? && NotBeyond(cfg.job.value, k)
    requires st.clearNext && rs[0].key == k ==> rs[0].seqno > 0
    ensures LowTombstone(cfg, Process(cfg, rs, st), k) <==> LeavesPairFrom(cfg, rs, st, k, Deletion)
    decreases |rs|
  {
    if rs != [] && ZeroPair(cfg, rs, 0, k) {
      LowTombstonesOfPair(cfg, rs, st, k);
    } else if rs != [] {
      var step := Advance(cfg, rs, st);
      if rs[0].key == k { EmitsNoLowTombstone(cfg, rs, st); }
      StepComesFromHead(cfg, rs, st);
      NextStateFits(cfg, rs, st);
      NoClearAtZero(cfg, rs, st, k);
      hide Advance;
      LowTombstones(cfg, rs[step.used..], step.next, k);
      var later := Process(cfg, rs[step.used..], step.next);
      assert forall o :: o in Shown(step.out) + later <==> o in Shown(step.out) || o in later;
    }
  }

  /** Only a pair at 0 marks a record at 0 for clearing. */
  lemma NoClearAtZero(cfg: Config, rs: seq<Record>, st: State, k: Key)
    requires ValidConfig(cfg) && Sorted(rs) && rs != [] && !ZeroPair(cfg, rs, 0, k)
    ensures var step := Advance(cfg, rs, st);
            step.next.clearNext && step.used < |rs| && rs[step.used].key == k && rs[0].key == k ==> rs[step.used].seqno > 0 || Earliest(cfg) > 0
    ensures var step := Advance(cfg, rs, st);
            step.next.clearNext && step.used < |rs| && rs[step.used].key == k ==> rs[0].key == k
  {
    if |rs| > 1 && rs[1].key == rs[0].key {
      assert Before(rs[0], rs[1]);
      SameStripeTest(cfg, rs[0].seqno, rs[1].seqno);
      StripeBounds(cfg, rs[0].seqno);
      StripeBounds(cfg, rs[1].seqno);
    }
  }

  lemma LowTombstonesOfPair(cfg: Config, rs: seq<Record>, st: State, k: Key)
    requires ValidConfig(cfg) && Sorted(rs) && StateFits(cfg, rs, st) && ZeroPair(cfg, rs, 0, k)
    ensures LowTombstone(cfg, Process(cfg, rs, st), k) <==> LeavesPairFrom(cfg, rs, st, k, Deletion)
  {
    PairHere(cfg, rs, st, k);
    assert Before(rs[0], rs[1]);
    var out := Process(cfg, rs, st);
    if LeavesPairFrom(cfg, rs, st, k, rs[1].kind) {
      var rest :| out == [rs[0], rs[1].(value := "")] + rest && !Mentions(rest, k);
      hide Process;
      assert out[1] == rs[1].(value := "");
      assert forall o :: o in out ==> o == rs[0] || o == rs[1].(value := "") || o in rest;
    }
  }

  lemma NoTombstoneAboveNothing(cfg: Config, rs: seq<Record>, k: Key)
    requires ValidConfig(cfg) && Sorted(rs) && cfg.job.Some? && NotBeyond(cfg.job.value, k)
    ensures LowTombstone(cfg, Compact(cfg, rs), k) <==> LeavesPair(cfg, rs, k, Deletion)
  {
    LowTombstones(cfg, rs, INITIAL, k);
    LeavesPairByPosition(cfg, rs, k, Deletion);
  }

  /** In a bottommost compaction that goes for every key, so zeroing touches values only. */
  lemma NoTombstoneAtTheBottom(cfg: Config, rs: seq<Record>, k: Key)
    requires ValidConfig(cfg) && Sorted(rs) && BottommostFits(cfg, rs) && cfg.job.Some? && cfg.job.value.bottommost
    ensures LowTombstone(cfg, Compact(cfg, rs), k) <==> LeavesPair(cfg, rs, k, Deletion)
    ensures LeavesPair(cfg, rs, k, Deletion) ==> MixedAtZero(cfg, rs, k)
  {
    if Mentions(rs, k) {
      NoTombstoneAboveNothing(cfg, rs, k);
    } else {
      NoRecordsNoOutput(cfg, rs, INITIAL, k);
    }
    hide Process;
  }

  /** With a snapshot at 0, a single delete of the key directly above a Delete at 0. */
  ghost predicate MixedAtZero(cfg: Config, rs: seq<Record>, k: Key) {
    exists i: nat :: ZeroPair(cfg, rs, i, k) && rs[i + 1].kind == Deletion
  }

  // ---- Order ----

  /** After a record whose sequence number was zeroed, its key yields nothing more. */
  lemma ZeroedIsLast(cfg: Config, rs: seq<Record>, st: State)
    requires Fits(cfg, rs, st) && rs != [] && Advance(cfg, rs, st).out.Some? && ZeroesSeqno(cfg, rs[0])
    ensures var step := Advance(cfg, rs, st); !Mentions(Process(cfg, rs[step.used..], step.next), rs[0].key)
  {
    var step := Advance(cfg, rs, st);
    EmitsNoLowTombstone(cfg, rs, st);
    StripeBounds(cfg, rs[0].seqno);
    FitsNext(cfg, rs, st);
    if rs[0].seqno == 0 {
      assert forall j :: 0 < j < |rs| ==> Before(rs[0], rs[j]);
      NoRecordsNoOutput(cfg, rs[step.used..], step.next, rs[0].key);
    } else {
      LowStripeSilent(cfg, rs[step.used..], step.next, rs[0].key);
    }
  }

  lemma ZeroingKeepsOrder(cfg: Config, p: Record, r: Record, o: Record, later: Record)
    requires ComesFrom(cfg, p, r) && ComesFrom(cfg, o, later) && Before(r, later)
    requires o.key == r.key ==> !ZeroesSeqno(cfg, r)
    ensures Before(p, o)
  {
  }

  lemma HeadBeforeRest(cfg: Config, rs: seq<Record>, st: State, step: Step, o: Record)
    requires Fits(cfg, rs, st) && rs != [] && step == Advance(cfg, rs, st) && step.out.Some?
    requires o in Process(cfg, rs[step.used..], step.next)
    ensures Before(step.out.value, o)
  {
    var rest := rs[step.used..];
    OutputsComeFromInput(cfg, rest, step.next);
    assert HasSource(cfg, o, rest);
    var i :| 0 <= i < |rest| && ComesFrom(cfg, o, rest[i]);
    assert Before(rs[0], rs[step.used + i]);
    StepComesFromHead(cfg, rs, st);
    if ZeroesSeqno(cfg, rs[0]) {
      ZeroedIsLast(cfg, rs, st);
    }
    ZeroingKeepsOrder(cfg, step.out.value, rs[0], o, rest[i]);
  }

  /** Output internal keys are strictly increasing, zeroed sequence numbers included, whatever the input. */
  lemma {:induction false} OutputSorted(cfg: Config, rs: seq<Record>, st: State)
    requires Fits(cfg, rs, st)
    ensures Sorted(Process(cfg, rs, st))
    decreases |rs|
  {
    if rs != [] {
      var step := Advance(cfg, rs, st);
      var out := Process(cfg, rs[step.used..], step.next);
      FitsNext(cfg, rs, st);
      OutputSorted(cfg, rs[step.used..], step.next);
      if step.out.Some? {
        forall o | o in out ensures Before(step.out.value, o) {
          HeadBeforeRest(cfg, rs, st, step, o);
        }
      }
    }
  }

  // ---- Sequence numbers ----

  /** Some snapshot does not see the record. */
  predicate HiddenFromSome(cfg: Config, o: Record) { exists c :: c in cfg.snapshots && c < o.seqno }

  /** The job may zero sequence numbers of this key. */
  predicate ZeroingKey(cfg: Config, k: Key) {
    cfg.job.Some? && cfg.job.value.bottommost && !cfg.job.value.ingestBehind && k != cfg.job.value.largestKey
  }

  /** The output record is this input record, sequence number included, except that its value may be cleared. */
  predicate Verbatim(o: Record, r: Record) { o.key == r.key && o.kind == r.kind && o.seqno == r.seqno && (o.value == r.value || o.value == "") }

  /** Which sequence numbers come out: a bottommost compaction that does not ingest behind zeroes exactly those all snapshots
      see, except on its largest key; every other record keeps the number it came with. */
  lemma SequenceNumbers(cfg: Config, rs: seq<Record>, o: Record)
    requires ValidConfig(cfg) && o in Compact(cfg, rs)
    ensures ZeroingKey(cfg, o.key) ==> o.seqno == 0 || HiddenFromSome(cfg, o)
    ensures !ZeroingKey(cfg, o.key) || HiddenFromSome(cfg, o) ==> exists i :: 0 <= i < |rs| && Verbatim(o, rs[i])
    ensures exists i :: 0 <= i < |rs| && (Verbatim(o, rs[i]) || (o.seqno == 0 && Verbatim(o.(seqno := rs[i].seqno), rs[i]) && !HiddenFromSome(cfg, rs[i])))
  {
    OutputsComeFromInput(cfg, rs, INITIAL);
    var i :| 0 <= i < |rs| && ComesFrom(cfg, o, rs[i]);
    hide Process;
    assert HiddenFromSome(cfg, rs[i]) <==> rs[i].seqno > Earliest(cfg) by {
      if rs[i].seqno > Earliest(cfg) { assert cfg.snapshots[0] in cfg.snapshots; }
    }
    assert Verbatim(o, rs[i]) || Verbatim(o.(seqno := rs[i].seqno), rs[i]);
  }

  // ---- Write-conflict evidence ----

  ghost predicate NewerThan(rs: seq<Record>, k: Key, w: SeqNo) {
    exists r :: r in rs && r.key == k && r.seqno > w
  }

  /** Nothing of `k` has been output yet, and its next record decides. */
  ghost predicate Undecided(rs: seq<Record>, st: State, k: Key, w: SeqNo) {
    || !st.hasKey || st.key != k
    || (!st.clearNext && !st.outputted && rs != [] && rs[0].key == k && rs[0].kind == SingleDeletion && rs[0].seqno > w)
  }

  ghost predicate Conflicting(cfg: Config, rs: seq<Record>, st: State, k: Key, w: SeqNo) {
    && ValidConfig(cfg) && Sorted(rs) && StateFits(cfg, rs, st)
    && w in cfg.snapshots && cfg.writeConflict <= w && !SinksToZero(cfg, rs, k)
    && Undecided(rs, st, k, w) && NewerThan(rs, k, w)
  }

  lemma ConflictStep(cfg: Config, rs: seq<Record>, st: State, k: Key, w: SeqNo)
    requires rs != [] && Conflicting(cfg, rs, st, k, w)
    ensures var step := Advance(cfg, rs, st);
            if rs[0].key == k && step.out.Some? then step.out.value.key == k && step.out.value.seqno > w
            else Conflicting(cfg, rs[step.used..], step.next, k, w)
  {
    HeadIsNewest(rs, k, w);
    StripeBounds(cfg, w);
    StepComesFromHead(cfg, rs, st);
    if rs[0].key != k {
      OtherKeyStep(cfg, rs, st, k, w);
    } else if Advance(cfg, rs, st).out.None? {
      SkippedSingleDelete(cfg, rs, st, k, w);
    }
    NextStateFits(cfg, rs, st);
    if rs[0].key != k || Advance(cfg, rs, st).out.None? { SinksBackwards(cfg, rs, k, Advance(cfg, rs, st).used); }
  }

  /** Above a snapshot at 0 and below every other one, the key has nothing but single deletes, the last at 0. */
  ghost predicate SinksToZero(cfg: Config, rs: seq<Record>, k: Key) {
    && Earliest(cfg) == 0
    && (forall i :: 0 <= i < |rs| && rs[i].key == k ==> rs[i].kind == SingleDeletion && Previous(cfg, rs[i].seqno) == 0)
    && exists i :: 0 <= i < |rs| && rs[i].key == k && rs[i].seqno == 0
  }

  lemma SinksBackwards(cfg: Config, rs: seq<Record>, k: Key, n: nat)
    requires ValidConfig(cfg) && Sorted(rs) && 0 < n <= |rs| && n <= 2
    requires rs[0].key != k || (n == 1 && |rs| > 1 && rs[1].key == k && rs[0].kind == SingleDeletion && Stripe(cfg, rs[1].seqno) == Stripe(cfg, rs[0].seqno))
    requires n == 2 ==> rs[1].key == rs[0].key
    ensures SinksToZero(cfg, rs[n..], k) ==> SinksToZero(cfg, rs, k)
  {
    if rs[0].key == k {
      assert Before(rs[0], rs[1]);
      SameStripeSamePrevious(cfg, rs[0].seqno, rs[1].seqno);
    }
    if SinksToZero(cfg, rs[n..], k) {
      assert forall i :: n <= i < |rs| ==> rs[i] == rs[n..][i - n];
      var i :| 0 <= i < |rs[n..]| && rs[n..][i].key == k && rs[n..][i].seqno == 0;
      assert rs[n + i].key == k && rs[n + i].seqno == 0;
      if rs[0].key == k { assert rs[n..][0] == rs[1]; }
    }
  }

  lemma SinkStep(cfg: Config, rs: seq<Record>, st: State, k: Key)
    requires ValidConfig(cfg) && Sorted(rs) && StateFits(cfg, rs, st) && SinksToZero(cfg, rs, k)
    ensures var step := Advance(cfg, rs, st);
            && (step.out.Some? && step.out.value.key == k ==> step.out.value.seqno == 0)
            && (SinksToZero(cfg, rs[step.used..], k) || !Mentions(rs[step.used..], k))
  {
    var i :| 0 <= i < |rs| && rs[i].key == k && rs[i].seqno == 0;
    assert forall j :: i < j < |rs| ==> Before(rs[i], rs[j]);
    if i > 1 { assert Before(rs[0], rs[1]) && Before(rs[1], rs[i]); }
    StepComesFromHead(cfg, rs, st);
    var step := Advance(cfg, rs, st);
    if i >= step.used { assert rs[step.used..][i - step.used] == rs[i]; }
  }

  /** Such a key leaves nothing but its record at 0. */
  lemma {:induction false} SinksSilently(cfg: Config, rs: seq<Record>, st: State, k: Key)
    requires ValidConfig(cfg) && Sorted(rs) && StateFits(cfg, rs, st) && (SinksToZero(cfg, rs, k) || !Mentions(rs, k))
    ensures forall o :: o in Process(cfg, rs, st) && o.key == k ==> o.seqno == 0
    decreases |rs|
  {
    if !Mentions(rs, k) {
      NoRecordsNoOutput(cfg, rs, st, k);
      var out := Process(cfg, rs, st);
      forall o | o in out ensures o.key != k { var j :| 0 <= j < |out| && out[j] == o; }
    } else {
      var step := Advance(cfg, rs, st);
      SinkStep(cfg, rs, st, k);
      NextStateFits(cfg, rs, st);
      hide Advance, SinksToZero;
      SinksSilently(cfg, rs[step.used..], step.next, k);
    }
  }

  lemma {:induction false} EvidenceSurvives(cfg: Config, rs: seq<Record>, st: State, k: Key, w: SeqNo)
    requires Conflicting(cfg, rs, st, k, w)
    ensures NewerThan(Process(cfg, rs, st), k, w)
    decreases |rs|
  {
    var step := Advance(cfg, rs, st);
    ConflictStep(cfg, rs, st, k, w);
    var later := Process(cfg, rs[step.used..], step.next);
    assert Process(cfg, rs, st) == Shown(step.out) + later;
    if rs[0].key == k && step.out.Some? {
      assert step.out.value in Shown(step.out) + later;
    } else {
      EvidenceSurvives(cfg, rs[step.used..], step.next, k, w);
      var o :| o in later && o.key == k && o.seqno > w;
      assert o in Shown(step.out) + later;
    }
  }

  lemma HeadIsNewest(rs: seq<Record>, k: Key, w: SeqNo)
    requires Sorted(rs) && NewerThan(rs, k, w)
    ensures rs != [] && (rs[0].key == k ==> rs[0].seqno > w)
  {
  }

  lemma OtherKeyStep(cfg: Config, rs: seq<Record>, st: State, k: Key, w: SeqNo)
    requires rs != [] && rs[0].key != k && NewerThan(rs, k, w)
    ensures var step := Advance(cfg, rs, st);
            (!step.next.hasKey || step.next.key != k) && NewerThan(rs[step.used..], k, w)
  {
  }

  /** The only record newer than `w` that can vanish first is a single delete followed by another in its stripe. */
  lemma SkippedSingleDelete(cfg: Config, rs: seq<Record>, st: State, k: Key, w: SeqNo)
    requires ValidConfig(cfg) && Sorted(rs) && StateFits(cfg, rs, st) && !SinksToZero(cfg, rs, k)
    requires w in cfg.snapshots && cfg.writeConflict <= w && Undecided(rs, st, k, w)
    requires rs != [] && rs[0].key == k && rs[0].seqno > w && Advance(cfg, rs, st).out.None?
    ensures var step := Advance(cfg, rs, st);
            && step.used == 1 && Undecided(rs[1..], step.next, k, w) && NewerThan(rs[1..], k, w)
            && rs[0].kind == SingleDeletion && |rs| > 1 && rs[1].key == k && Stripe(cfg, rs[1].seqno) == Stripe(cfg, rs[0].seqno)
  {
    StripeBounds(cfg, w);
    StripeBounds(cfg, rs[0].seqno);
    assert rs[0].kind == SingleDeletion && |rs| > 1 && rs[1].key == k && rs[1].kind == SingleDeletion;
    assert Before(rs[0], rs[1]);
    SameStripeTest(cfg, rs[0].seqno, rs[1].seqno);
    if Earliest(cfg) == 0 && rs[1].seqno == 0 && Previous(cfg, rs[0].seqno) == 0 {
      assert Previous(cfg, 0) == 0;
      assert forall j :: 1 < j < |rs| ==> Before(rs[1], rs[j]);
      assert SinksToZero(cfg, rs, k);
    }
    if rs[1].seqno <= w { StripeMonotone(cfg, rs[1].seqno, w); }
    assert rs[1..][0] == rs[1] && rs[1] in rs[1..];
  }

  /** For a snapshot at or above the write-conflict boundary, the output shows a write to `k` after it
      exactly when the input does, whatever the kinds of the records; unless the key sinks to 0. */
  lemma WriteConflictsStayVisible(cfg: Config, rs: seq<Record>, k: Key, w: SeqNo)
    requires ValidConfig(cfg) && Sorted(rs)
    requires w in cfg.snapshots && cfg.writeConflict <= w
    ensures NewerThan(Compact(cfg, rs), k, w) <==> NewerThan(rs, k, w) && !SinksToZero(cfg, rs, k)
  {
    if SinksToZero(cfg, rs, k) {
      SinksSilently(cfg, rs, INITIAL, k);
    } else if NewerThan(rs, k, w) {
      EvidenceSurvives(cfg, rs, INITIAL, k, w);
    }
    OutputsComeFromInput(cfg, rs, INITIAL);
    forall o | o in Compact(cfg, rs) && o.key == k && o.seqno > w ensures NewerThan(rs, k, w) {
      var i :| 0 <= i < |rs| && ComesFrom(cfg, o, rs[i]);
      assert rs[i] in rs;
    }
  }

  // ---- Exactly what survives, without single deletes ----

  predicate NoSingleDeletes(rs: seq<Record>) {
    forall i :: 0 <= i < |rs| ==> rs[i].kind != SingleDeletion
  }

  /** No newer version of the same key in the same stripe. */
  ghost predicate NewestInStripe(cfg: Config, rs: seq<Record>, i: nat)
    requires i < |rs|
  {
    forall j :: 0 <= j < |rs| && rs[j].key == rs[i].key && rs[j].seqno > rs[i].seqno ==>
                  Stripe(cfg, rs[j].seqno) != Stripe(cfg, rs[i].seqno)
  }

  ghost predicate Survives(cfg: Config, rs: seq<Record>, i: nat)
    requires i < |rs|
  {
    NewestInStripe(cfg, rs, i) && !(rs[i].kind == Deletion && Obsolete(cfg, rs[i])) && !ZeroHead(cfg, rs, i)
  }

  /** The surviving records among the first `n`, in order, with sequence numbers zeroed where allowed. */
  ghost function Survivors(cfg: Config, rs: seq<Record>, n: nat): seq<Record>
    requires n <= |rs|
  {
    if n == 0 then []
    else Survivors(cfg, rs, n - 1) + if Survives(cfg, rs, n - 1) then [Prepare(cfg, rs[n - 1])] else []
  }

  lemma NewestByNeighbour(cfg: Config, rs: seq<Record>, i: nat)
    requires ValidConfig(cfg) && Sorted(rs) && i < |rs|
    ensures NewestInStripe(cfg, rs, i) <==>
            i == 0 || rs[i - 1].key != rs[i].key || Stripe(cfg, rs[i - 1].seqno) != Stripe(cfg, rs[i].seqno)
  {
    if i > 0 {
      assert Before(rs[i - 1], rs[i]);
      forall j | 0 <= j < |rs| && rs[j].key == rs[i].key && rs[j].seqno > rs[i].seqno
        ensures rs[i - 1].key == rs[i].key && Stripe(cfg, rs[i].seqno) <= Stripe(cfg, rs[i - 1].seqno) <= Stripe(cfg, rs[j].seqno)
      {
        if j < i - 1 { assert Before(rs[j], rs[i - 1]); }
        StripeMonotone(cfg, rs[i].seqno, rs[i - 1].seqno);
        StripeMonotone(cfg, rs[i - 1].seqno, rs[j].seqno);
      }
    } else {
      forall j | 0 <= j < |rs| && rs[j].key == rs[i].key ensures rs[j].seqno <= rs[i].seqno {
        if j > 0 { assert Before(rs[0], rs[j]); }
      }
    }
  }

  /** The state reached after the first `n` records. */
  ghost predicate Reached(cfg: Config, rs: seq<Record>, n: nat, st: State)
    requires n <= |rs|
  {
    && !st.clearNext
    && (st.hasKey <==> n > 0)
    && (n > 0 ==> st.key == rs[n - 1].key && st.stripe == Stripe(cfg, rs[n - 1].seqno))
  }

  lemma AdvanceByOne(cfg: Config, rs: seq<Record>, n: nat, st: State)
    requires ValidConfig(cfg) && Sorted(rs) && NoSingleDeletes(rs)
    requires n < |rs| && Reached(cfg, rs, n, st)
    ensures var step := Advance(cfg, rs[n..], st);
            && step.used == 1 && Reached(cfg, rs, n + 1, step.next)
            && Shown(step.out) == if Survives(cfg, rs, n) then [Prepare(cfg, rs[n])] else []
  {
    NewestByNeighbour(cfg, rs, n);
    StripeBounds(cfg, rs[n].seqno);
  }

  lemma {:induction false} SurvivorsFrom(cfg: Config, rs: seq<Record>, n: nat, st: State)
    requires ValidConfig(cfg) && Sorted(rs) && NoSingleDeletes(rs)
    requires n <= |rs| && Reached(cfg, rs, n, st)
    ensures Survivors(cfg, rs, n) + Process(cfg, rs[n..], st) == Survivors(cfg, rs, |rs|)
    decreases |rs| - n
  {
    hide Advance, Survives, Reached;
    if n < |rs| {
      var step := Advance(cfg, rs[n..], st);
      AdvanceByOne(cfg, rs, n, st);
      assert rs[n..][1..] == rs[n + 1..];
      SurvivorsFrom(cfg, rs, n + 1, step.next);
      assert Survivors(cfg, rs, n) + (Shown(step.out) + Process(cfg, rs[n + 1..], step.next)) ==
             (Survivors(cfg, rs, n) + Shown(step.out)) + Process(cfg, rs[n + 1..], step.next);
    }
  }

  /** On puts and deletes the output is exactly the newest version of each key in each stripe, minus
      obsolete tombstones and, while a snapshot at 0 is held, keys whose newest version is at 0. */
  lemma CompactKeepsExactlySurvivors(cfg: Config, rs: seq<Record>)
    requires ValidConfig(cfg) && Sorted(rs) && NoSingleDeletes(rs)
    ensures Compact(cfg, rs) == Survivors(cfg, rs, |rs|)
  {
    SurvivorsFrom(cfg, rs, 0, INITIAL);
    assert rs[0..] == rs;
  }
}
