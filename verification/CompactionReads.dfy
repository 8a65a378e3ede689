/** Compaction preserves every read at every live snapshot. */
module CompactionReads {
  import opened Records
  import opened Levels
  import opened CompactionSpec
  import opened CompactionFacts
  import opened CompactionPositions

  /** Points a reader may still use: a held snapshot, or a point that sees every input record. */
  ghost predicate LivePoint(cfg: Config, rs: seq<Record>, s: SeqNo) {
    s in cfg.snapshots || forall i :: 0 <= i < |rs| ==> rs[i].seqno <= s
  }

  // ---- How a key may be written ----

  ghost predicate PutDeleteOnly(rs: seq<Record>, k: Key) {
    forall i :: 0 <= i < |rs| && rs[i].key == k ==> rs[i].kind != SingleDeletion
  }

  /** The SingleDelete contract: puts and single deletes alternate. */
  ghost predicate Alternating(rs: seq<Record>, k: Key) {
    && (forall i :: 0 <= i < |rs| && rs[i].key == k ==> rs[i].kind != Deletion)
    && (forall i :: 0 < i < |rs| && rs[i - 1].key == k && rs[i].key == k ==> rs[i - 1].kind != rs[i].kind)
  }

  type Older = (Key, SeqNo) -> Option<string>

  ghost predicate OldestPut(rs: seq<Record>, k: Key, i: nat) {
    && i < |rs| && rs[i].key == k && rs[i].kind == Value
    && (i + 1 == |rs| || rs[i + 1].key != k)
  }

  /** The alternation goes on below: under an oldest input Put the key is deleted or was never written. */
  ghost predicate AlternatesBelow(rs: seq<Record>, older: Older, k: Key) {
    forall i: nat, s: SeqNo :: OldestPut(rs, k, i) && rs[i].seqno <= s ==> older(k, s) == None
  }

  ghost predicate Disciplined(rs: seq<Record>, older: Older, k: Key) {
    PutDeleteOnly(rs, k) || (Alternating(rs, k) && AlternatesBelow(rs, older, k))
  }

  /** Deeper data has nothing for a key of the input that the level check reports absent. */
  ghost predicate OlderAgrees(cfg: Config, rs: seq<Record>, older: Older, k: Key) {
    cfg.job.Some? && Mentions(rs, k) && NotBeyond(cfg.job.value, k) ==> forall s: SeqNo :: older(k, s) == None
  }

  // ---- Snapshots at 0 ----

  /** While a snapshot at 0 is held, a key whose newest record is a put or delete at 0 looks hidden. */
  ghost predicate LooksHidden(cfg: Config, rs: seq<Record>, k: Key) {
    exists i: nat :: ZeroHead(cfg, rs, i) && rs[i].key == k
  }

  ghost predicate HasZeroPair(cfg: Config, rs: seq<Record>, k: Key) {
    exists i: nat :: ZeroPair(cfg, rs, i, k)
  }

  /** The reader of k at s is not one that a snapshot at 0 leads astray at record i. */
  ghost predicate FineAt(cfg: Config, rs: seq<Record>, st: State, k: Key, s: SeqNo, i: nat)
    requires i < |rs|
  {
    rs[i].key == k && rs[i].seqno == 0 && rs[i].kind != SingleDeletion ==>
      if i == 0 then st.hasKey && st.key == k && st.stripe > 0 && (st.clearNext ==> st.stripe <= Stripe(cfg, s))
      else rs[i - 1].key == k && (ZeroPair(cfg, rs, i - 1, k) ==> rs[i - 1].seqno <= s)
  }

  ghost predicate Untroubled(cfg: Config, rs: seq<Record>, st: State, k: Key, s: SeqNo) {
    Earliest(cfg) == 0 ==> forall i: nat :: i < |rs| ==> FineAt(cfg, rs, st, k, s, i)
  }

  lemma DisciplinedSuffix(rs: seq<Record>, older: Older, k: Key, n: nat)
    requires n <= |rs| && Disciplined(rs, older, k)
    ensures Disciplined(rs[n..], older, k)
  {
  }

  /** An output that is not a version of `k` visible at `s` does not affect the lookup. */
  lemma LookupSkips(out: Option<Record>, rest: seq<Record>, k: Key, s: SeqNo)
    requires out.Some? ==> out.value.key != k || out.value.seqno > s
    ensures Lookup(Shown(out) + rest, k, s) == Lookup(rest, k, s)
  {
    if out.Some? {
      assert (Shown(out) + rest)[1..] == rest;
    } else {
      assert Shown(out) + rest == rest;
    }
  }

  lemma LookupHits(r: Record, rest: seq<Record>, k: Key, s: SeqNo)
    requires r.key == k && r.seqno <= s
    ensures Lookup(Shown(Some(r)) + rest, k, s) == if r.kind == Value then Found(r.value) else Deleted
  {
    assert (Shown(Some(r)) + rest)[0] == r;
  }

  // ---- The main induction ----

  /** Readers of `k` at `s` that the records emitted so far do not already answer. */
  ghost predicate Open(cfg: Config, rs: seq<Record>, st: State, k: Key, s: SeqNo) {
    || !st.hasKey || st.key != k
    || Stripe(cfg, s) < st.stripe
    || (!st.clearNext && (rs == [] || rs[0].key != k || rs[0].kind == SingleDeletion))
  }

  ghost predicate Setting(cfg: Config, rs: seq<Record>, st: State, older: Older, k: Key, s: SeqNo) {
    && ValidConfig(cfg) && Sorted(rs) && StateFits(cfg, rs, st) && Untroubled(cfg, rs, st, k, s)
    && LivePoint(cfg, rs, s) && Disciplined(rs, older, k) && OlderAgrees(cfg, rs, older, k)
  }

  /** Visibility at a live point is a comparison of stripes. */
  lemma VisibleByStripe(cfg: Config, rs: seq<Record>, s: SeqNo, i: nat)
    requires ValidConfig(cfg) && LivePoint(cfg, rs, s) && i < |rs|
    ensures rs[i].seqno <= s <==> Stripe(cfg, rs[i].seqno) <= Stripe(cfg, s)
  {
    StripeBounds(cfg, s);
    StripeBounds(cfg, rs[i].seqno);
    if rs[i].seqno <= s { StripeMonotone(cfg, rs[i].seqno, s); }
  }

  lemma UntroubledNext(cfg: Config, rs: seq<Record>, st: State, k: Key, s: SeqNo)
    requires ValidConfig(cfg) && Sorted(rs) && Untroubled(cfg, rs, st, k, s) && rs != []
    ensures var step := Advance(cfg, rs, st); Untroubled(cfg, rs[step.used..], step.next, k, s)
  {
    var step := Advance(cfg, rs, st);
    var rest := rs[step.used..];
    if Earliest(cfg) == 0 {
      forall i: nat | i < |rest| ensures FineAt(cfg, rest, step.next, k, s, i) {
        assert FineAt(cfg, rs, st, k, s, step.used + i) && rest[i] == rs[step.used + i];
        if i > 0 {
          assert rest[i - 1] == rs[step.used + i - 1];
        } else if rest[0].key == k && rest[0].seqno == 0 && rest[0].kind != SingleDeletion {
          UntroubledHead(cfg, rs, st, k, s);
        }
      }
    }
  }

  /** The step that leads to a record at 0 remembers its key and, if it marked the record, is seen by the reader. */
  lemma UntroubledHead(cfg: Config, rs: seq<Record>, st: State, k: Key, s: SeqNo)
    requires ValidConfig(cfg) && Sorted(rs) && rs != [] && Untroubled(cfg, rs, st, k, s) && Earliest(cfg) == 0
    requires var n := Advance(cfg, rs, st).used;
             n < |rs| && rs[n].key == k && rs[n].seqno == 0 && rs[n].kind != SingleDeletion
    ensures var next := Advance(cfg, rs, st).next;
            next.hasKey && next.key == k && next.stripe > 0 && (next.clearNext ==> next.stripe <= Stripe(cfg, s))
  {
    var n := Advance(cfg, rs, st).used;
    assert FineAt(cfg, rs, st, k, s, n) && Before(rs[0], rs[n]);
    StripeBounds(cfg, rs[0].seqno);
    StripeBounds(cfg, rs[n].seqno);
    if n == 1 { SameStripeTest(cfg, rs[0].seqno, rs[1].seqno); }
    if rs[0].seqno <= s { StripeMonotone(cfg, rs[0].seqno, s); }
    hide Sorted, ValidConfig;
  }

  lemma SettingSuffix(cfg: Config, rs: seq<Record>, st: State, older: Older, k: Key, s: SeqNo)
    requires Setting(cfg, rs, st, older, k, s) && rs != []
    ensures var step := Advance(cfg, rs, st); Setting(cfg, rs[step.used..], step.next, older, k, s)
  {
    var step := Advance(cfg, rs, st);
    NextStateFits(cfg, rs, st);
    UntroubledNext(cfg, rs, st, k, s);
    DisciplinedSuffix(rs, older, k, step.used);
    assert forall i :: 0 <= i < |rs| - step.used ==> rs[step.used..][i] == rs[step.used + i];
    hide Advance, StateFits, Untroubled, Disciplined;
  }

  lemma {:induction false} ReadsKept(cfg: Config, rs: seq<Record>, st: State, older: Older, k: Key, s: SeqNo)
    requires Setting(cfg, rs, st, older, k, s) && Open(cfg, rs, st, k, s)
    ensures Read(Process(cfg, rs, st), older, k, s) == Read(rs, older, k, s)
    decreases |rs|
  {
    if rs != [] {
      var step := Advance(cfg, rs, st);
      SettingSuffix(cfg, rs, st, older, k, s);
      if Open(cfg, rs[step.used..], step.next, k, s) {
        ReadsKept(cfg, rs[step.used..], step.next, older, k, s);
      }
      assert RestKept(cfg, rs, st, older, k, s);
      if rs[0].key != k {
        OtherHead(cfg, rs, st, older, k, s);
      } else if rs[0].seqno <= s {
        VisibleHead(cfg, rs, st, older, k, s);
      } else {
        HiddenHead(cfg, rs, st, older, k, s);
      }
    }
  }

  /** Records that a step uses up without showing them to this reader can be skipped in the input. */
  lemma SkipUsed(cfg: Config, rs: seq<Record>, st: State, k: Key, s: SeqNo)
    requires rs != [] && (rs[0].key != k || rs[0].seqno > s)
    requires |rs| > 1 && rs[1].key == rs[0].key && Advance(cfg, rs, st).used == 2 ==> rs[0].key != k || rs[1].seqno > s
    ensures Lookup(rs, k, s) == Lookup(rs[Advance(cfg, rs, st).used..], k, s)
  {
  }

  ghost predicate RestKept(cfg: Config, rs: seq<Record>, st: State, older: Older, k: Key, s: SeqNo)
    requires rs != []
  {
    var step := Advance(cfg, rs, st);
    var rest := rs[step.used..];
    Open(cfg, rest, step.next, k, s) ==>
      Read(Process(cfg, rest, step.next), older, k, s) == Read(rest, older, k, s)
  }

  lemma OtherHead(cfg: Config, rs: seq<Record>, st: State, older: Older, k: Key, s: SeqNo)
    requires rs != [] && rs[0].key != k && RestKept(cfg, rs, st, older, k, s)
    ensures Read(Process(cfg, rs, st), older, k, s) == Read(rs, older, k, s)
  {
    hide Advance, Open;
    var step := Advance(cfg, rs, st);
    OtherKeyOpen(cfg, rs, st, k, s);
    LookupSkips(step.out, Process(cfg, rs[step.used..], step.next), k, s);
    SkipUsed(cfg, rs, st, k, s);
  }

  lemma OtherKeyOpen(cfg: Config, rs: seq<Record>, st: State, k: Key, s: SeqNo)
    requires rs != [] && rs[0].key != k
    ensures var step := Advance(cfg, rs, st);
            Open(cfg, rs[step.used..], step.next, k, s) && (step.out.Some? ==> step.out.value.key != k)
  {
  }

  /** A visible head that emits nothing is half of a dropped pair or an obsolete tombstone. */
  lemma VisibleDropped(cfg: Config, rs: seq<Record>, st: State, older: Older, k: Key, s: SeqNo)
    requires Setting(cfg, rs, st, older, k, s) && Open(cfg, rs, st, k, s)
    requires rs != [] && rs[0].key == k && rs[0].seqno <= s
    ensures !st.clearNext
    ensures Advance(cfg, rs, st).out.None? ==>
              if rs[0].kind == SingleDeletion && |rs| > 1 && rs[1].key == k
              then rs[1].kind == Value && Advance(cfg, rs, st).used == 2
              else rs[0].kind != Value && Obsolete(cfg, rs[0]) && Advance(cfg, rs, st).used == 1
  {
    VisibleByStripe(cfg, rs, s, 0);
    StripeBounds(cfg, rs[0].seqno);
    assert Earliest(cfg) == 0 ==> FineAt(cfg, rs, st, k, s, 0);
    hide Untroubled, Disciplined;
  }

  lemma PairDropped(cfg: Config, rs: seq<Record>, st: State, older: Older, k: Key, s: SeqNo)
    requires |rs| > 1 && Setting(cfg, rs, st, older, k, s) && RestKept(cfg, rs, st, older, k, s)
    requires rs[0].key == k && rs[1].key == k && rs[0].seqno <= s && rs[0].kind == SingleDeletion
    requires !st.clearNext && rs[1].kind == Value && Advance(cfg, rs, st).used == 2
    ensures Read(Process(cfg, rs, st), older, k, s) == None
  {
    var step := Advance(cfg, rs, st);
    assert Before(rs[0], rs[1]);
    if |rs| > 2 && rs[2].key == k {
      assert rs[2].kind == SingleDeletion && Before(rs[1], rs[2]);
    } else {
      PastKey(rs, 2, k);
      NotMentionedIsAbsent(rs[2..], k, s);
      assert OldestPut(rs, k, 1);
    }
    LookupSkips(step.out, Process(cfg, rs[2..], step.next), k, s);
  }

  lemma TombstoneDropped(cfg: Config, rs: seq<Record>, st: State, older: Older, k: Key, s: SeqNo)
    requires Setting(cfg, rs, st, older, k, s)
    requires rs != [] && rs[0].key == k && rs[0].kind != Value && Obsolete(cfg, rs[0]) && !st.clearNext
    requires rs[0].kind == SingleDeletion ==> |rs| == 1 || rs[1].key != k
    requires Advance(cfg, rs, st).out.None? && Advance(cfg, rs, st).used == 1
    ensures Read(Process(cfg, rs, st), older, k, s) == None
  {
    var step := Advance(cfg, rs, st);
    if rs[0].kind == SingleDeletion {
      PastKey(rs, 1, k);
      NoRecordsNoOutput(cfg, rs[1..], step.next, k);
    } else {
      StripeBounds(cfg, rs[0].seqno);
      SettingSuffix(cfg, rs, st, older, k, s);
      LowStripeSilent(cfg, rs[1..], step.next, k);
    }
    NotMentionedIsAbsent(Process(cfg, rs[1..], step.next), k, s);
    LookupSkips(step.out, Process(cfg, rs[1..], step.next), k, s);
  }

  lemma VisibleHead(cfg: Config, rs: seq<Record>, st: State, older: Older, k: Key, s: SeqNo)
    requires Setting(cfg, rs, st, older, k, s) && Open(cfg, rs, st, k, s)
    requires rs != [] && rs[0].key == k && rs[0].seqno <= s && RestKept(cfg, rs, st, older, k, s)
    ensures Read(Process(cfg, rs, st), older, k, s) == Read(rs, older, k, s)
  {
    var step := Advance(cfg, rs, st);
    VisibleDropped(cfg, rs, st, older, k, s);
    if step.out.Some? {
      LookupHits(step.out.value, Process(cfg, rs[step.used..], step.next), k, s);
    } else if rs[0].kind == SingleDeletion && |rs| > 1 && rs[1].key == k {
      PairDropped(cfg, rs, st, older, k, s);
    } else {
      TombstoneDropped(cfg, rs, st, older, k, s);
    }
  }

  /** A step that starts above the read point consumes and emits only versions above it. */
  lemma HiddenStep(cfg: Config, rs: seq<Record>, st: State, older: Older, k: Key, s: SeqNo)
    requires Setting(cfg, rs, st, older, k, s) && rs != [] && rs[0].key == k && rs[0].seqno > s
    ensures var step := Advance(cfg, rs, st);
            && Open(cfg, rs[step.used..], step.next, k, s)
            && (step.out.Some? ==> step.out.value.key != k || step.out.value.seqno > s)
            && (step.used == 2 ==> |rs| > 1 && rs[1].seqno > s)
  {
    VisibleByStripe(cfg, rs, s, 0);
    StripeBounds(cfg, rs[0].seqno);
    StripeBounds(cfg, s);
    if Advance(cfg, rs, st).used == 2 {
      assert Before(rs[0], rs[1]);
      assert Earliest(cfg) == 0 ==> FineAt(cfg, rs, st, k, s, 1);
      SameStripeTest(cfg, rs[0].seqno, rs[1].seqno);
      VisibleByStripe(cfg, rs, s, 1);
    }
    hide Untroubled, Sorted, Disciplined, OlderAgrees, LivePoint, Stripe;
  }

  lemma HiddenHead(cfg: Config, rs: seq<Record>, st: State, older: Older, k: Key, s: SeqNo)
    requires Setting(cfg, rs, st, older, k, s)
    requires rs != [] && rs[0].key == k && rs[0].seqno > s && RestKept(cfg, rs, st, older, k, s)
    ensures Read(Process(cfg, rs, st), older, k, s) == Read(rs, older, k, s)
  {
    hide Advance, Open, Setting;
    var step := Advance(cfg, rs, st);
    HiddenStep(cfg, rs, st, older, k, s);
    LookupSkips(step.out, Process(cfg, rs[step.used..], step.next), k, s);
    SkipUsed(cfg, rs, st, k, s);
  }

  // ---- Readers that a snapshot at 0 leads astray ----

  lemma ZeroHeadHere(cfg: Config, rs: seq<Record>, st: State, k: Key)
    requires ValidConfig(cfg) && Sorted(rs) && StateFits(cfg, rs, st) && ZeroHead(cfg, rs, 0) && rs[0].key == k
    requires !st.hasKey || st.key != k
    ensures !Mentions(Process(cfg, rs, st), k)
  {
    StripeBounds(cfg, 0);
    forall j | 1 <= j < |rs| ensures rs[j].key != k { assert Before(rs[0], rs[j]); }
    var step := Advance(cfg, rs, st);
    assert step.out == None && step.used == 1;
    NoRecordsNoOutput(cfg, rs[1..], step.next, k);
  }

  lemma ZeroHeadAhead(cfg: Config, rs: seq<Record>, st: State, k: Key, i: nat)
    requires Sorted(rs) && 0 < i && ZeroHead(cfg, rs, i) && rs[i].key == k
    ensures var step := Advance(cfg, rs, st);
            && step.used <= i && ZeroHead(cfg, rs[step.used..], i - step.used) && rs[step.used..][i - step.used] == rs[i]
            && (!step.next.hasKey || step.next.key != k) && (step.out.Some? ==> step.out.value.key != k)
  {
    assert Before(rs[i - 1], rs[i]) && (i > 1 ==> Before(rs[0], rs[i - 1]));
  }

  /** A key that looks hidden leaves nothing in the output. */
  lemma {:induction false} HiddenKeyVanishes(cfg: Config, rs: seq<Record>, st: State, k: Key, i: nat)
    requires ValidConfig(cfg) && Sorted(rs) && StateFits(cfg, rs, st) && ZeroHead(cfg, rs, i) && rs[i].key == k
    requires !st.hasKey || st.key != k
    ensures !Mentions(Process(cfg, rs, st), k)
    decreases |rs|
  {
    if i == 0 {
      ZeroHeadHere(cfg, rs, st, k);
    } else {
      hide Advance;
      var step := Advance(cfg, rs, st);
      ZeroHeadAhead(cfg, rs, st, k, i);
      NextStateFits(cfg, rs, st);
      HiddenKeyVanishes(cfg, rs[step.used..], step.next, k, i - step.used);
    }
  }

  lemma PairReadHere(cfg: Config, rs: seq<Record>, st: State, k: Key)
    requires ValidConfig(cfg) && Sorted(rs) && StateFits(cfg, rs, st) && ZeroPair(cfg, rs, 0, k)
    ensures Lookup(Process(cfg, rs, st), k, 0) ==
            if !LeavesPairFrom(cfg, rs, st, k, rs[1].kind) then Absent else if rs[1].kind == Value then Found("") else Deleted
  {
    hide Process;
    PairHere(cfg, rs, st, k);
    assert Before(rs[0], rs[1]);
    if LeavesPairFrom(cfg, rs, st, k, rs[1].kind) {
      var rest :| Process(cfg, rs, st) == [rs[0], rs[1].(value := "")] + rest && !Mentions(rest, k);
      assert Process(cfg, rs, st)[1..] == [rs[1].(value := "")] + rest;
    } else {
      NotMentionedIsAbsent(Process(cfg, rs, st), k, 0);
    }
  }

  lemma {:induction false} PairReadAtZero(cfg: Config, rs: seq<Record>, st: State, k: Key, i: nat)
    requires ValidConfig(cfg) && Sorted(rs) && StateFits(cfg, rs, st) && ZeroPair(cfg, rs, i, k)
    ensures Lookup(Process(cfg, rs, st), k, 0) ==
            if !LeavesPairFrom(cfg, rs, st, k, rs[i + 1].kind) then Absent else if rs[i + 1].kind == Value then Found("") else Deleted
    decreases |rs|
  {
    if i == 0 {
      PairReadHere(cfg, rs, st, k);
    } else {
      hide Advance;
      var step := Advance(cfg, rs, st);
      PairAhead(cfg, rs, st, k, i);
      NextStateFits(cfg, rs, st);
      PairReadAtZero(cfg, rs[step.used..], step.next, k, i - step.used);
      LookupSkips(step.out, Process(cfg, rs[step.used..], step.next), k, 0);
    }
  }

  /** The input answers the reader at 0 with the record at 0. */
  lemma {:induction false} LookupAtZero(rs: seq<Record>, k: Key, j: nat)
    requires Sorted(rs) && j < |rs| && rs[j].key == k && rs[j].seqno == 0
    ensures Lookup(rs, k, 0) == if rs[j].kind == Value then Found(rs[j].value) else Deleted
  {
    if j > 0 {
      assert Before(rs[0], rs[j]) && rs[1..][j - 1] == rs[j];
      LookupAtZero(rs[1..], k, j - 1);
    }
  }

  // ---- The theorem ----

  /** Snapshots see a put at 0 below a single delete; a reader at 0 keeps its answer only if there is no value to
      lose and the pair is kept. */
  ghost predicate EmptyAndKept(cfg: Config, rs: seq<Record>, k: Key) {
    LeavesPair(cfg, rs, k, Value) && exists i: nat :: ZeroPair(cfg, rs, i, k) && rs[i + 1].value == ""
  }

  /** When the reader of k at s keeps its answer. */
  ghost predicate Spared(cfg: Config, rs: seq<Record>, older: Older, k: Key, s: SeqNo) {
    && (LooksHidden(cfg, rs, k) ==> older(k, s) == Read(rs, older, k, s))
    && (HasZeroPair(cfg, rs, k) && s == 0 ==> EmptyAndKept(cfg, rs, k))
  }

  lemma UntroubledAtFirst(cfg: Config, rs: seq<Record>, older: Older, k: Key, s: SeqNo)
    requires ValidConfig(cfg) && Sorted(rs) && LivePoint(cfg, rs, s) && !LooksHidden(cfg, rs, k) && (HasZeroPair(cfg, rs, k) ==> s != 0)
    ensures Untroubled(cfg, rs, INITIAL, k, s)
  {
    if Earliest(cfg) == 0 {
      forall i: nat | i < |rs| ensures FineAt(cfg, rs, INITIAL, k, s, i) {
        assert rs[i].key == k ==> !ZeroHead(cfg, rs, i);
        if i > 0 && ZeroPair(cfg, rs, i - 1, k) { PreviousOfSpec(cfg.snapshots, rs[i - 1].seqno, 0); }
      }
    }
  }

  lemma HiddenRead(cfg: Config, rs: seq<Record>, older: Older, k: Key, s: SeqNo)
    requires ValidConfig(cfg) && Sorted(rs) && LooksHidden(cfg, rs, k)
    ensures Read(Compact(cfg, rs), older, k, s) == older(k, s)
  {
    var i: nat :| ZeroHead(cfg, rs, i) && rs[i].key == k;
    HiddenKeyVanishes(cfg, rs, INITIAL, k, i);
    NotMentionedIsAbsent(Compact(cfg, rs), k, s);
  }

  lemma PairedRead(cfg: Config, rs: seq<Record>, older: Older, k: Key)
    requires ValidConfig(cfg) && Sorted(rs) && Disciplined(rs, older, k) && HasZeroPair(cfg, rs, k)
    ensures !LooksHidden(cfg, rs, k)
    ensures Read(Compact(cfg, rs), older, k, 0) == Read(rs, older, k, 0) <==> EmptyAndKept(cfg, rs, k)
  {
    hide Process, LeavesPair, LeavesPairFrom, Sorted;
    var i: nat :| ZeroPair(cfg, rs, i, k);
    LeavesPairByPosition(cfg, rs, k, rs[i + 1].kind);
    PairIsLast(cfg, rs, k, i);
    assert rs[i + 1].kind == Value && OldestPut(rs, k, i + 1);
    PairReadAtZero(cfg, rs, INITIAL, k, i);
    LookupAtZero(rs, k, i + 1);
    hide Lookup, Disciplined;
  }

  /** A key read at a held snapshot, or at any point that sees all of the input, gets the same answer from the
      compacted run over the deeper data as from the input run over the deeper data, with one exception: a snapshot
      at 0 can lead two kinds of readers astray, and they keep their answer exactly if Spared says so. */
  lemma CompactionPreservesReads(cfg: Config, rs: seq<Record>, older: Older, k: Key, s: SeqNo)
    requires ValidConfig(cfg) && Sorted(rs)
    requires OlderAgrees(cfg, rs, older, k) && Disciplined(rs, older, k) && LivePoint(cfg, rs, s)
    ensures Read(Compact(cfg, rs), older, k, s) == Read(rs, older, k, s) <==> Spared(cfg, rs, older, k, s)
    ensures Earliest(cfg) > 0 ==> Spared(cfg, rs, older, k, s)
  {
    hide Process;
    if LooksHidden(cfg, rs, k) {
      HiddenRead(cfg, rs, older, k, s);
      if HasZeroPair(cfg, rs, k) { PairedRead(cfg, rs, older, k); }
    } else if HasZeroPair(cfg, rs, k) && s == 0 {
      PairedRead(cfg, rs, older, k);
    } else {
      UntroubledAtFirst(cfg, rs, older, k, s);
      ReadsKept(cfg, rs, INITIAL, older, k, s);
    }
  }
}
