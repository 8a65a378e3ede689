/** The whole compaction output, single deletes included, as a function of record positions: which records come out
    can be read off the input, without following the run. */
module CompactionPositions {
  import opened Records
  import opened Levels
  import opened CompactionSpec
  import opened CompactionFacts

  // ---- What a position holds ----

  /** The record before it is a newer version of its key. */
  predicate Follows(rs: seq<Record>, i: nat) { 0 < i < |rs| && rs[i - 1].key == rs[i].key }

  /** A single delete and, to the peek test in its stripe, a record that is not one. */
  predicate Paired(cfg: Config, rs: seq<Record>, i: nat) {
    && Follows(rs, i + 1) && rs[i].kind == SingleDeletion && rs[i + 1].kind != SingleDeletion && Peeks(cfg, rs, i)
  }

  /** The peek test: the next record is newer than the last snapshot before this one. */
  predicate Peeks(cfg: Config, rs: seq<Record>, i: nat)
    requires i + 1 < |rs|
  {
    Previous(cfg, rs[i].seqno) == 0 || rs[i + 1].seqno > Previous(cfg, rs[i].seqno)
  }

  /** Such a pair above the write-conflict boundary: an earlier output of the key decides whether it is dropped. */
  predicate PairAbove(cfg: Config, rs: seq<Record>, i: nat) { Paired(cfg, rs, i) && rs[i].seqno > cfg.writeConflict }

  function LastStripe(cfg: Config, rs: seq<Record>, i: nat): SeqNo
    requires i < |rs|
  {
    if Follows(rs, i) then Stripe(cfg, rs[i - 1].seqno) else 0
  }

  /** The record comes out on its own account. */
  ghost predicate Stands(cfg: Config, rs: seq<Record>, i: nat) {
    i < |rs| &&
    if rs[i].kind == SingleDeletion then (if Follows(rs, i + 1) then !Peeks(cfg, rs, i) else !Obsolete(cfg, rs[i]))
    else
      && !(i > 0 && Paired(cfg, rs, i - 1)) && LastStripe(cfg, rs, i) != Stripe(cfg, rs[i].seqno)
      && !(rs[i].kind == Deletion && Obsolete(cfg, rs[i]))
  }

  ghost predicate Acts(cfg: Config, rs: seq<Record>, i: nat) { Stands(cfg, rs, i) || PairAbove(cfg, rs, i) }

  ghost predicate ActedBefore(cfg: Config, rs: seq<Record>, n: nat) { exists i: nat :: i < n && Acts(cfg, rs, i) }

  /** An output of the key of position n is on record there: one of its pairs was met, or one of its records came
      out and was not the very first output, which is not recorded. */
  ghost predicate Noted(cfg: Config, rs: seq<Record>, n: nat)
    requires n < |rs|
  {
    exists i: nat :: i < n && rs[i].key == rs[n].key && Notes(cfg, rs, i)
  }

  ghost predicate Notes(cfg: Config, rs: seq<Record>, i: nat) {
    PairAbove(cfg, rs, i) || (Stands(cfg, rs, i) && ActedBefore(cfg, rs, i))
  }

  /** The pair stays, its lower record without its value. */
  ghost predicate Kept(cfg: Config, rs: seq<Record>, i: nat) { PairAbove(cfg, rs, i) && !Noted(cfg, rs, i) }

  /** What comes out of position i. */
  ghost function OutputOf(cfg: Config, rs: seq<Record>, i: nat): seq<Record>
    requires i < |rs|
  {
    if Stands(cfg, rs, i) || Kept(cfg, rs, i) then [Prepare(cfg, rs[i])]
    else if i > 0 && Kept(cfg, rs, i - 1) then [Prepare(cfg, rs[i].(value := ""))]
    else []
  }

  ghost function Outputs(cfg: Config, rs: seq<Record>, n: nat): seq<Record>
    requires n <= |rs|
  {
    if n == 0 then [] else Outputs(cfg, rs, n - 1) + OutputOf(cfg, rs, n - 1)
  }

  // ---- The run ----

  /** What the run remembers when it takes up position n. */
  ghost predicate At(cfg: Config, rs: seq<Record>, n: nat, st: State)
    requires n <= |rs|
  {
    && (n > 0 && Paired(cfg, rs, n - 1) ==> Kept(cfg, rs, n - 1))
    && (st.sought <==> ActedBefore(cfg, rs, n)) && (st.clearNext <==> n > 0 && Kept(cfg, rs, n - 1))
    && (n < |rs| ==> Recalls(cfg, rs, n, st))
  }

  ghost predicate Recalls(cfg: Config, rs: seq<Record>, n: nat, st: State)
    requires n < |rs|
  {
    if Follows(rs, n)
    then
      && st.hasKey && st.key == rs[n].key && st.stripe == Stripe(cfg, rs[n - 1].seqno)
      && (!st.clearNext ==> (st.outputted <==> Noted(cfg, rs, n)))
    else !st.hasKey || st.key != rs[n].key
  }

  lemma ActsGrow(cfg: Config, rs: seq<Record>, n: nat)
    ensures ActedBefore(cfg, rs, n + 1) <==> ActedBefore(cfg, rs, n) || Acts(cfg, rs, n)
  {
    hide Acts;
    if ActedBefore(cfg, rs, n) { var i: nat :| i < n && Acts(cfg, rs, i); }
  }

  lemma NotesGrow(cfg: Config, rs: seq<Record>, n: nat)
    requires Follows(rs, n + 1)
    ensures Noted(cfg, rs, n + 1) <==> Noted(cfg, rs, n) || Notes(cfg, rs, n)
  {
    hide Notes;
    if Noted(cfg, rs, n) { var i: nat :| i < n && rs[i].key == rs[n].key && Notes(cfg, rs, i); }
  }

  /** A key's first record finds no output of the key on record. */
  lemma NewKeyClean(cfg: Config, rs: seq<Record>, n: nat)
    requires Sorted(rs) && n < |rs| && !Follows(rs, n)
    ensures !Noted(cfg, rs, n)
  {
    hide Notes;
    assert n > 0 ==> Before(rs[n - 1], rs[n]);
  }

  lemma NotedActed(cfg: Config, rs: seq<Record>, n: nat)
    requires n < |rs| && Noted(cfg, rs, n)
    ensures ActedBefore(cfg, rs, n)
  {
    var i: nat :| i < n && rs[i].key == rs[n].key && Notes(cfg, rs, i);
    assert Acts(cfg, rs, i);
    hide Acts;
  }

  /** The memory once the record at n has been entered. */
  function Entered(cfg: Config, r: Record, st: State): State { Enter(st, r).(stripe := Stripe(cfg, r.seqno)) }

  lemma EnteredFacts(cfg: Config, rs: seq<Record>, n: nat, st: State)
    requires Sorted(rs) && n < |rs| && At(cfg, rs, n, st)
    ensures var e := Entered(cfg, rs[n], st);
            && e.hasKey && e.key == rs[n].key && e.stripe == Stripe(cfg, rs[n].seqno) && e.sought == st.sought
            && e.clearNext == st.clearNext && Enter(st, rs[n]).stripe == LastStripe(cfg, rs, n)
            && (!st.clearNext ==> (e.outputted <==> Noted(cfg, rs, n)))
  {
    if !Follows(rs, n) { NewKeyClean(cfg, rs, n); }
    hide Paired, Noted, ActedBefore;
  }

  ghost predicate TurnFits(cfg: Config, rs: seq<Record>, n: nat, st: State)
    requires n < |rs|
  {
    var step := Advance(cfg, rs[n..], st);
    && step.used == (if Paired(cfg, rs, n) && !Kept(cfg, rs, n) then 2 else 1)
    && Shown(step.out) == OutputOf(cfg, rs, n) && At(cfg, rs, n + step.used, step.next)
  }

  /** The lower record of a kept pair. */
  lemma ClearFacts(cfg: Config, rs: seq<Record>, n: nat)
    requires 0 < n < |rs| && Kept(cfg, rs, n - 1)
    ensures Follows(rs, n) && rs[n].kind != SingleDeletion && !Paired(cfg, rs, n) && !Kept(cfg, rs, n)
    ensures OutputOf(cfg, rs, n) == [Prepare(cfg, rs[n].(value := ""))]
    ensures ActedBefore(cfg, rs, n) && ActedBefore(cfg, rs, n + 1) && (Follows(rs, n + 1) ==> Noted(cfg, rs, n + 1))
  {
    ActsGrow(cfg, rs, n - 1);
    ActsGrow(cfg, rs, n);
    NotesGrow(cfg, rs, n - 1);
    if Follows(rs, n + 1) { NotesGrow(cfg, rs, n); }
    assert Notes(cfg, rs, n - 1) && Acts(cfg, rs, n - 1);
    hide Noted, ActedBefore, Peeks, Obsolete;
  }

  lemma ClearTurn(cfg: Config, rs: seq<Record>, n: nat, st: State)
    requires Sorted(rs) && n < |rs| && At(cfg, rs, n, st) && st.clearNext
    ensures TurnFits(cfg, rs, n, st)
  {
    hide Noted, ActedBefore, Paired, Kept, OutputOf, Sorted;
    ClearFacts(cfg, rs, n);
    EnteredFacts(cfg, rs, n, st);
    assert rs[n..][0] == rs[n];
    hide OnSingleDelete, Obsolete;
  }

  lemma SingleTurn(cfg: Config, rs: seq<Record>, n: nat, st: State)
    requires ValidConfig(cfg) && Sorted(rs) && n < |rs| && At(cfg, rs, n, st) && !st.clearNext && rs[n].kind == SingleDeletion
    ensures TurnFits(cfg, rs, n, st)
  {
    EnteredFacts(cfg, rs, n, st);
    ActsGrow(cfg, rs, n);
    if Follows(rs, n + 1) { NotesGrow(cfg, rs, n); }
    if Paired(cfg, rs, n) { DroppedPair(cfg, rs, n); }
    hide Noted, ActedBefore, ValidConfig, Sorted;
  }

  /** Past the lower record of a pair: it has not acted, and its stripe is that of the single delete. */
  lemma DroppedPair(cfg: Config, rs: seq<Record>, n: nat)
    requires ValidConfig(cfg) && Sorted(rs) && Paired(cfg, rs, n)
    ensures !Acts(cfg, rs, n + 1) && !Notes(cfg, rs, n + 1) && !Paired(cfg, rs, n + 1)
    ensures ActedBefore(cfg, rs, n + 2) <==> ActedBefore(cfg, rs, n) || Acts(cfg, rs, n)
    ensures Noted(cfg, rs, n) ==> ActedBefore(cfg, rs, n)
    ensures Follows(rs, n + 2) ==> Stripe(cfg, rs[n + 1].seqno) == Stripe(cfg, rs[n].seqno) && (Noted(cfg, rs, n + 2) <==> Noted(cfg, rs, n + 1))
  {
    ActsGrow(cfg, rs, n);
    ActsGrow(cfg, rs, n + 1);
    if Noted(cfg, rs, n) { NotedActed(cfg, rs, n); }
    assert Before(rs[n], rs[n + 1]);
    SameStripeTest(cfg, rs[n].seqno, rs[n + 1].seqno);
    if Follows(rs, n + 2) {
      NotesGrow(cfg, rs, n + 1);
      assert Before(rs[n + 1], rs[n + 2]);
    }
    hide Noted, ActedBefore;
  }

  lemma OtherTurn(cfg: Config, rs: seq<Record>, n: nat, st: State)
    requires Sorted(rs) && n < |rs| && At(cfg, rs, n, st) && !st.clearNext && rs[n].kind != SingleDeletion
    ensures TurnFits(cfg, rs, n, st)
  {
    EnteredFacts(cfg, rs, n, st);
    ActsGrow(cfg, rs, n);
    if Follows(rs, n + 1) { NotesGrow(cfg, rs, n); }
    hide Noted, ActedBefore;
  }

  lemma Turn(cfg: Config, rs: seq<Record>, n: nat, st: State)
    requires ValidConfig(cfg) && Sorted(rs) && n < |rs| && At(cfg, rs, n, st)
    ensures TurnFits(cfg, rs, n, st)
    ensures Paired(cfg, rs, n) && !Kept(cfg, rs, n) ==> OutputOf(cfg, rs, n + 1) == []
  {
    if st.clearNext {
      ClearTurn(cfg, rs, n, st);
    } else if rs[n].kind == SingleDeletion {
      SingleTurn(cfg, rs, n, st);
    } else {
      OtherTurn(cfg, rs, n, st);
    }
    hide TurnFits, At, Noted;
  }

  /** The next position the run takes up; one it skips holds no single delete. */
  lemma NextTurn(cfg: Config, rs: seq<Record>, n: nat, st: State) returns (m: nat, next: State)
    requires ValidConfig(cfg) && Sorted(rs) && n < |rs| && At(cfg, rs, n, st)
    ensures n < m <= |rs| && At(cfg, rs, m, next) && (m == n + 1 || (m == n + 2 && rs[n + 1].kind != SingleDeletion && Follows(rs, n + 1)))
    ensures var step := Advance(cfg, rs[n..], st);
            step.used == m - n && step.next == next && rs[n..][step.used..] == rs[m..] && Shown(step.out) == OutputOf(cfg, rs, n)
    ensures m == n + 2 ==> Paired(cfg, rs, n) && !Kept(cfg, rs, n) && OutputOf(cfg, rs, n + 1) == []
  {
    Turn(cfg, rs, n, st);
    hide Advance, At, Kept, OutputOf;
    var step := Advance(cfg, rs[n..], st);
    m, next := n + step.used, step.next;
  }

  lemma {:induction false} RunByPosition(cfg: Config, rs: seq<Record>, n: nat, st: State)
    requires ValidConfig(cfg) && Sorted(rs) && n <= |rs| && At(cfg, rs, n, st)
    ensures Outputs(cfg, rs, n) + Process(cfg, rs[n..], st) == Outputs(cfg, rs, |rs|)
    decreases |rs| - n
  {
    hide Advance, OutputOf, At, Paired, Kept;
    if n < |rs| {
      var step := Advance(cfg, rs[n..], st);
      var m, next := NextTurn(cfg, rs, n, st);
      RunByPosition(cfg, rs, m, next);
      assert Outputs(cfg, rs, m) == Outputs(cfg, rs, n) + Shown(step.out);
      assert (Outputs(cfg, rs, n) + Shown(step.out)) + Process(cfg, rs[m..], next) ==
             Outputs(cfg, rs, n) + (Shown(step.out) + Process(cfg, rs[m..], next));
    }
  }

  lemma AtStart(cfg: Config, rs: seq<Record>)
    ensures At(cfg, rs, 0, INITIAL)
  {
  }

  /** The output of a compaction, for every sorted input: position by position, the records that stand and the pairs
      that are kept. */
  lemma CompactByPosition(cfg: Config, rs: seq<Record>)
    requires ValidConfig(cfg) && Sorted(rs)
    ensures Compact(cfg, rs) == Outputs(cfg, rs, |rs|)
  {
    AtStart(cfg, rs);
    RunByPosition(cfg, rs, 0, INITIAL);
    assert rs[0..] == rs;
  }

  // ---- Pairs at 0 ----

  /** With a snapshot at 0: a single delete of the key, directly above a record of this kind at 0, stays with it. */
  ghost predicate LeavesPair(cfg: Config, rs: seq<Record>, k: Key, kind: Kind) {
    exists i: nat :: ZeroPair(cfg, rs, i, k) && rs[i + 1].kind == kind && Kept(cfg, rs, i)
  }

  /** The record at 0 is the key's last. */
  lemma PairIsLast(cfg: Config, rs: seq<Record>, k: Key, i: nat)
    requires Sorted(rs) && ZeroPair(cfg, rs, i, k)
    ensures forall j :: 0 <= j < |rs| && rs[j].key == k ==> j <= i + 1 && (rs[j].seqno == 0 ==> j == i + 1)
    ensures i + 2 < |rs| ==> rs[i + 2].key != k
  {
    assert forall j :: 0 <= j < i + 1 ==> Before(rs[j], rs[i + 1]);
    assert forall j :: i + 1 < j < |rs| ==> Before(rs[i + 1], rs[j]);
  }

  ghost predicate LeftAhead(cfg: Config, rs: seq<Record>, n: nat, k: Key, kind: Kind) {
    exists i: nat :: n <= i && ZeroPair(cfg, rs, i, k) && rs[i + 1].kind == kind && Kept(cfg, rs, i)
  }

  lemma PairMet(cfg: Config, rs: seq<Record>, n: nat, st: State, k: Key, kind: Kind)
    requires Sorted(rs) && n < |rs| && At(cfg, rs, n, st) && ZeroPair(cfg, rs, n, k)
    ensures LeavesPairFrom(cfg, rs[n..], st, k, kind) <==> LeftAhead(cfg, rs, n, k, kind)
  {
    EnteredFacts(cfg, rs, n, st);
    PairIsLast(cfg, rs, k, n);
    assert ZeroPair(cfg, rs[n..], 0, k) && rs[n..][1] == rs[n + 1];
    assert forall i: nat :: n <= i && ZeroPair(cfg, rs, i, k) ==> i == n;
    assert Paired(cfg, rs, n) && !st.clearNext;
    hide Noted, Advance, Sorted;
  }

  lemma {:induction false} PairByPosition(cfg: Config, rs: seq<Record>, n: nat, st: State, k: Key, kind: Kind)
    requires ValidConfig(cfg) && Sorted(rs) && n <= |rs| && At(cfg, rs, n, st)
    ensures LeavesPairFrom(cfg, rs[n..], st, k, kind) <==> LeftAhead(cfg, rs, n, k, kind)
    decreases |rs| - n
  {
    hide Advance, At, Kept, Sorted, ValidConfig, OutputOf, Paired, Enter;
    if n < |rs| && ZeroPair(cfg, rs, n, k) {
      PairMet(cfg, rs, n, st, k, kind);
    } else if n < |rs| {
      var m, next := NextTurn(cfg, rs, n, st);
      assert !ZeroPair(cfg, rs[n..], 0, k);
      PairByPosition(cfg, rs, m, next, k, kind);
      assert forall i: nat :: n <= i < m ==> !ZeroPair(cfg, rs, i, k);
    }
  }

  lemma LeavesPairByPosition(cfg: Config, rs: seq<Record>, k: Key, kind: Kind)
    requires ValidConfig(cfg) && Sorted(rs)
    ensures LeavesPairFrom(cfg, rs, INITIAL, k, kind) <==> LeavesPair(cfg, rs, k, kind)
  {
    AtStart(cfg, rs);
    PairByPosition(cfg, rs, 0, INITIAL, k, kind);
    assert rs[0..] == rs;
  }
}
