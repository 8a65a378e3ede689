/** What one compaction (or flush) does to a sorted run of records, as a function: the snapshot
    stripes, one iteration of the main loop, and the whole output. */
module CompactionSpec {
  import opened Records
  import opened Levels

  /** A running compaction; a flush has none (`compaction_ == nullptr`). */
  datatype Job = Job(compaction: Compaction, bottommost: bool, largestKey: Key, ingestBehind: bool)

  datatype Config = Config(snapshots: seq<SeqNo>, writeConflict: SeqNo, job: Option<Job>)

  /** Snapshots ascend and stay below the largest sequence number.  The write-conflict boundary is one
      of them or the maximum (rocksdb/db/snapshot_impl.h:98-126), so it is not before the first. */
  predicate ValidConfig(cfg: Config) {
    && (forall i, j :: 0 <= i < j < |cfg.snapshots| ==> cfg.snapshots[i] <= cfg.snapshots[j])
    && (forall i :: 0 <= i < |cfg.snapshots| ==> cfg.snapshots[i] < MAX_SEQNO)
    && Earliest(cfg) <= cfg.writeConflict
  }

  function Earliest(cfg: Config): SeqNo {
    if cfg.snapshots == [] then MAX_SEQNO else cfg.snapshots[0]
  }

  // ---- Snapshot stripes ----

  /** The earliest snapshot that sees sequence number `s`, or the maximum when only the tip does. */
  function VisibleFrom(snapshots: seq<SeqNo>, s: SeqNo): SeqNo {
    if snapshots == [] then MAX_SEQNO
    else if snapshots[0] >= s then snapshots[0]
    else VisibleFrom(snapshots[1..], s)
  }

  /** The last snapshot before that one, with 0 for "none". */
  function PreviousOf(snapshots: seq<SeqNo>, s: SeqNo, prev: SeqNo): SeqNo {
    if snapshots == [] || snapshots[0] >= s then prev
    else PreviousOf(snapshots[1..], s, snapshots[0])
  }

  function Stripe(cfg: Config, s: SeqNo): SeqNo {
    VisibleFrom(cfg.snapshots, s)
  }

  function Previous(cfg: Config, s: SeqNo): SeqNo {
    PreviousOf(cfg.snapshots, s, 0)
  }

  /** Nothing is known to exist below the output level for this key. */
  ghost predicate NotBeyond(j: Job, k: Key) {
    if j.compaction.universal then j.bottommost else AbsentBelow(j.compaction, k)
  }

  ghost predicate Obsolete(cfg: Config, r: Record) {
    cfg.job.Some? && r.seqno <= Earliest(cfg) && NotBeyond(cfg.job.value, r.key)
  }

  // ---- One iteration of the main loop ----

  /** What the iterator remembers between records.  `sought` says that SeekToFirst has returned, since
      only Next records that the current key has been output. */
  datatype State = State(hasKey: bool, key: Key, stripe: SeqNo, outputted: bool, clearNext: bool, sought: bool)

  const INITIAL := State(false, 0.0, 0, false, false, false)

  datatype Step = Step(out: Option<Record>, used: nat, next: State)

  function Enter(st: State, r: Record): State {
    if !st.hasKey || st.key != r.key
    then st.(hasKey := true, key := r.key, stripe := 0, outputted := false)
    else st
  }

  /** The state once an output has been handed to the caller. */
  function Handed(st: State): State {
    st.(outputted := st.outputted || st.sought, sought := true)
  }

  predicate ZeroesSeqno(cfg: Config, r: Record) {
    && cfg.job.Some? && !cfg.job.value.ingestBehind && cfg.job.value.bottommost
    && r.seqno <= Earliest(cfg) && cfg.job.value.largestKey != r.key
  }

  function Prepare(cfg: Config, r: Record): Record {
    if ZeroesSeqno(cfg, r) then r.(seqno := 0) else r
  }

  function Emit(cfg: Config, r: Record, st: State): Step {
    Step(Some(Prepare(cfg, r)), 1, Handed(st))
  }

  ghost function OnSingleDelete(cfg: Config, rs: seq<Record>, st: State): (step: Step)
    requires rs != []
    ensures 1 <= step.used <= |rs|
  {
    var r := rs[0];
    var prev := Previous(cfg, r.seqno);
    if |rs| > 1 && rs[1].key == r.key then
      if prev == 0 || rs[1].seqno > prev then
        if rs[1].kind == SingleDeletion then Step(None, 1, st)
        else if r.seqno <= cfg.writeConflict || st.outputted then Step(None, 2, st)
        else Emit(cfg, r, st.(clearNext := true))
      else Emit(cfg, r, st)
    else if Obsolete(cfg, r) then Step(None, 1, st.(hasKey := false))
    else Emit(cfg, r, st.(hasKey := false))
  }

  ghost function Advance(cfg: Config, rs: seq<Record>, st: State): (step: Step)
    requires rs != []
    ensures 1 <= step.used <= |rs|
  {
    var r := rs[0];
    var entered := Enter(st, r);
    var st' := entered.(stripe := Stripe(cfg, r.seqno));
    if st.clearNext then Emit(cfg, r.(value := ""), st'.(clearNext := false))
    else if r.kind == SingleDeletion then OnSingleDelete(cfg, rs, st')
    else if entered.stripe == st'.stripe then Step(None, 1, st')
    else if r.kind == Deletion && Obsolete(cfg, r) then Step(None, 1, st')
    else Emit(cfg, r, st')
  }

  function Shown(out: Option<Record>): seq<Record> {
    if out.Some? then [out.value] else []
  }

  /** Every record still to come out of the iterator. */
  ghost function Process(cfg: Config, rs: seq<Record>, st: State): seq<Record>
    decreases |rs|
  {
    if rs == [] then []
    else
      var step := Advance(cfg, rs, st);
      Shown(step.out) + Process(cfg, rs[step.used..], step.next)
  }

  ghost function Compact(cfg: Config, rs: seq<Record>): seq<Record> {
    Process(cfg, rs, INITIAL)
  }

  // ---- Facts about stripes ----

  lemma {:induction false} VisibleFromSpec(snapshots: seq<SeqNo>, s: SeqNo)
    requires forall i, j :: 0 <= i < j < |snapshots| ==> snapshots[i] <= snapshots[j]
    ensures s <= VisibleFrom(snapshots, s)
    ensures VisibleFrom(snapshots, s) in snapshots || VisibleFrom(snapshots, s) == MAX_SEQNO
    ensures forall c :: c in snapshots && c >= s ==> VisibleFrom(snapshots, s) <= c
  {
    if snapshots != [] && snapshots[0] < s {
      VisibleFromSpec(snapshots[1..], s);
      assert forall c :: c in snapshots ==> c == snapshots[0] || c in snapshots[1..];
    }
  }

  lemma {:induction false} PreviousOfSpec(snapshots: seq<SeqNo>, s: SeqNo, prev: SeqNo)
    requires forall i, j :: 0 <= i < j < |snapshots| ==> snapshots[i] <= snapshots[j]
    requires forall i :: 0 <= i < |snapshots| ==> prev <= snapshots[i]
    ensures PreviousOf(snapshots, s, prev) == prev ||
            (PreviousOf(snapshots, s, prev) in snapshots && PreviousOf(snapshots, s, prev) < s)
    ensures forall c :: c in snapshots && c < s ==> c <= PreviousOf(snapshots, s, prev)
  {
    if snapshots != [] && snapshots[0] < s {
      PreviousOfSpec(snapshots[1..], s, snapshots[0]);
      assert forall c :: c in snapshots ==> c == snapshots[0] || c in snapshots[1..];
    }
  }

  lemma StripeBounds(cfg: Config, s: SeqNo)
    requires ValidConfig(cfg)
    ensures s <= Stripe(cfg, s) && Earliest(cfg) <= Stripe(cfg, s)
    ensures s <= Earliest(cfg) <==> Stripe(cfg, s) == Earliest(cfg)
    ensures s in cfg.snapshots ==> Stripe(cfg, s) == s
  {
    VisibleFromSpec(cfg.snapshots, s);
    if cfg.snapshots != [] { assert cfg.snapshots[0] in cfg.snapshots; }
  }

  lemma StripeMonotone(cfg: Config, a: SeqNo, b: SeqNo)
    requires ValidConfig(cfg) && a <= b
    ensures Stripe(cfg, a) <= Stripe(cfg, b)
  {
    VisibleFromSpec(cfg.snapshots, a);
    VisibleFromSpec(cfg.snapshots, b);
  }

  /** The source's peek test decides whether the next record is in the same stripe, except that a snapshot at 0
      looks to it like no snapshot. */
  lemma SameStripeTest(cfg: Config, newer: SeqNo, older: SeqNo)
    requires ValidConfig(cfg) && older < newer
    ensures Previous(cfg, newer) == 0 || older > Previous(cfg, newer) <==>
            Stripe(cfg, older) == Stripe(cfg, newer) || (Earliest(cfg) == 0 && older == 0 && Previous(cfg, newer) == 0)
  {
    PreviousOfSpec(cfg.snapshots, newer, 0);
    VisibleFromSpec(cfg.snapshots, newer);
    VisibleFromSpec(cfg.snapshots, older);
    StripeMonotone(cfg, older, newer);
    StripeBounds(cfg, older);
    var p := Previous(cfg, newer);
    if p != 0 && older <= p {
      assert p in cfg.snapshots && older <= p < newer;
    }
  }

  /** Between two sequence numbers of one stripe there is no snapshot. */
  lemma SameStripeSamePrevious(cfg: Config, newer: SeqNo, older: SeqNo)
    requires ValidConfig(cfg) && older < newer && Stripe(cfg, older) == Stripe(cfg, newer)
    ensures Previous(cfg, older) == Previous(cfg, newer)
  {
    PreviousOfSpec(cfg.snapshots, newer, 0);
    PreviousOfSpec(cfg.snapshots, older, 0);
    VisibleFromSpec(cfg.snapshots, newer);
    VisibleFromSpec(cfg.snapshots, older);
  }
}
