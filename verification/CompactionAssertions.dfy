/** The assertions the source makes while it compacts, and exactly when they hold. */
module CompactionAssertions {
  import opened Records
  import opened Levels
  import opened CompactionSpec
  import opened CompactionFacts
  import opened CompactionPositions
  import opened CompactionOutput

  /** The assertions met in one turn: a record marked for clearing is a Put of the last stripe, a hidden record is no
      newer than the one before it, and only values are zeroed.  `last` is current_user_key_sequence_. */
  ghost predicate TurnAsserts(cfg: Config, rs: seq<Record>, st: State, last: SeqNo)
    requires rs != []
  {
    var r, lastSnapshot := rs[0], Enter(st, rs[0]).stripe;
    var lastSequence := if st.hasKey && st.key == r.key then last else MAX_SEQNO;
    && (st.clearNext ==> r.kind == Value && Stripe(cfg, r.seqno) == lastSnapshot)
    && (!st.clearNext && r.kind != SingleDeletion && Stripe(cfg, r.seqno) == lastSnapshot ==> lastSequence >= r.seqno)
    && (Advance(cfg, rs, st).out.Some? && ZeroesSeqno(cfg, r) ==> r.kind == Value)
  }

  /** All assertions of the run hold. */
  ghost predicate RunAsserts(cfg: Config, rs: seq<Record>, st: State, last: SeqNo)
    decreases |rs|
  {
    rs != [] ==>
      var step := Advance(cfg, rs, st);
      TurnAsserts(cfg, rs, st, last) && RunAsserts(cfg, rs[step.used..], step.next, rs[0].seqno)
  }

  /** A pair as the source expects it: over a Put, and not one that a snapshot at 0 makes look like a pair. */
  predicate Proper(cfg: Config, rs: seq<Record>, i: nat)
    requires i + 1 < |rs|
  {
    rs[i + 1].kind == Value && !ZeroPair(cfg, rs, i, rs[i].key)
  }

  ghost predicate ProperFrom(cfg: Config, rs: seq<Record>, n: nat) {
    forall i: nat :: i + 1 >= n && Kept(cfg, rs, i) ==> Proper(cfg, rs, i)
  }

  /** The two records of a pair lie in one stripe, unless it is a pair at 0. */
  lemma PairStripe(cfg: Config, rs: seq<Record>, i: nat)
    requires ValidConfig(cfg) && Sorted(rs) && Paired(cfg, rs, i)
    ensures Stripe(cfg, rs[i + 1].seqno) == Stripe(cfg, rs[i].seqno) <==> !ZeroPair(cfg, rs, i, rs[i].key)
  {
    assert Before(rs[i], rs[i + 1]);
    SameStripeTest(cfg, rs[i].seqno, rs[i + 1].seqno);
    StripeBounds(cfg, rs[i].seqno);
    StripeBounds(cfg, rs[i + 1].seqno);
  }

  lemma TurnAssertsExactly(cfg: Config, rs: seq<Record>, n: nat, st: State, last: SeqNo)
    requires ValidConfig(cfg) && Sorted(rs) && n < |rs| && At(cfg, rs, n, st) && Fits(cfg, rs[n..], st)
    requires Follows(rs, n) ==> last >= rs[n].seqno
    ensures TurnAsserts(cfg, rs[n..], st, last) <==> (n > 0 && Kept(cfg, rs, n - 1) ==> Proper(cfg, rs, n - 1))
  {
    if cfg.job.Some? && cfg.job.value.bottommost { EmitsNoLowTombstone(cfg, rs[n..], st); }
    EnteredFacts(cfg, rs, n, st);
    if n > 0 && Kept(cfg, rs, n - 1) { PairStripe(cfg, rs, n - 1); }
    assert rs[n..][0] == rs[n];
    hide Advance, Fits, Noted, Sorted, ValidConfig, ActedBefore, Stripe;
  }

  lemma {:induction false} AssertsByPosition(cfg: Config, rs: seq<Record>, n: nat, st: State, last: SeqNo)
    requires ValidConfig(cfg) && Sorted(rs) && n <= |rs| && At(cfg, rs, n, st) && Fits(cfg, rs[n..], st)
    requires Follows(rs, n) ==> last >= rs[n].seqno
    ensures RunAsserts(cfg, rs[n..], st, last) <==> ProperFrom(cfg, rs, n)
    decreases |rs| - n
  {
    hide Advance, At, Kept, Paired, OutputOf, Fits, TurnAsserts, ValidConfig, Proper;
    if n < |rs| {
      var m, next := NextTurn(cfg, rs, n, st);
      FitsNext(cfg, rs[n..], st);
      TurnAssertsExactly(cfg, rs, n, st, last);
      assert rs[n..][0] == rs[n] && (m < |rs| ==> Before(rs[n], rs[m]));
      AssertsByPosition(cfg, rs, m, next, rs[n].seqno);
      assert ProperFrom(cfg, rs, n) <==> ProperFrom(cfg, rs, m) && (n > 0 && Kept(cfg, rs, n - 1) ==> Proper(cfg, rs, n - 1));
    } else {
      NoPairAtEnd(cfg, rs);
    }
  }

  lemma NoPairAtEnd(cfg: Config, rs: seq<Record>)
    ensures ProperFrom(cfg, rs, |rs|)
  {
  }

  /** Every assertion of the compaction loop and of PrepareOutput holds throughout the run exactly if every pair the run
      keeps is proper.  The assertion on the order of hidden records always holds; with no Delete below a single
      delete and no snapshot at 0, so do the others. */
  lemma SourceAssertionsHold(cfg: Config, rs: seq<Record>)
    requires ValidConfig(cfg) && Sorted(rs) && BottommostFits(cfg, rs)
    ensures RunAsserts(cfg, rs, INITIAL, MAX_SEQNO) <==> forall i: nat :: Kept(cfg, rs, i) ==> Proper(cfg, rs, i)
    ensures Earliest(cfg) > 0 && (forall i: nat :: Follows(rs, i) && rs[i - 1].kind == SingleDeletion ==> rs[i].kind != Deletion) ==>
              RunAsserts(cfg, rs, INITIAL, MAX_SEQNO)
  {
    AtStart(cfg, rs);
    assert rs[0..] == rs;
    AssertsByPosition(cfg, rs, 0, INITIAL, MAX_SEQNO);
    hide RunAsserts, Noted, Sorted;
  }

  /** A single delete above the boundary and, in its stripe, a Delete: the assertion on the record to be cleared fails. */
  lemma DeleteBelowSingleDelete(cfg: Config, k: Key, newer: SeqNo, older: SeqNo)
    requires ValidConfig(cfg) && older < newer && newer > cfg.writeConflict && Stripe(cfg, older) == Stripe(cfg, newer)
    ensures var rs := [Record(k, newer, SingleDeletion, ""), Record(k, older, Deletion, "")];
            Sorted(rs) && (BottommostFits(cfg, rs) ==> !RunAsserts(cfg, rs, INITIAL, MAX_SEQNO))
  {
    var rs := [Record(k, newer, SingleDeletion, ""), Record(k, older, Deletion, "")];
    SameStripeTest(cfg, newer, older);
    assert rs[0].kind == SingleDeletion && rs[1].kind == Deletion;
    assert Kept(cfg, rs, 0) && !Proper(cfg, rs, 0);
    if BottommostFits(cfg, rs) { SourceAssertionsHold(cfg, rs); }
  }
}
