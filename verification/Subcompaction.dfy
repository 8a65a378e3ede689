/** Splitting a compaction into key ranges: how the boundaries are chosen, what running the ranges
    separately writes, and where that can depend on an earlier output. */
module Subcompaction {
  import opened Records
  import opened Levels
  import opened CompactionSpec
  import opened CompactionFacts
  import opened CompactionPositions
  import opened CompactionIteration

  // ---- Candidate boundaries ----

  predicate StrictlyIncreasing(ks: seq<Key>) {
    forall i, j :: 0 <= i < j < |ks| ==> ks[i] < ks[j]
  }

  /** The keys an input level offers: both ends of every level-0 file, the ends of any other level, and on the
      output level also the start of every file. */
  ghost predicate CandidateAt(c: Compaction, i: nat, k: Key)
    requires i < |c.inputs|
  {
    var files := c.inputs[i].files;
    files != [] &&
    if c.inputs[i].level == 0 then IsEnd(files, |files|, k)
    else k == files[0].smallest || k == files[|files| - 1].largest || (c.inputs[i].level == c.outputLevel && IsStart(files, |files|, k))
  }

  ghost predicate IsEnd(files: seq<FileMeta>, n: nat, k: Key)
    requires n <= |files|
  {
    exists j :: 0 <= j < n && (k == files[j].smallest || k == files[j].largest)
  }

  ghost predicate IsStart(files: seq<FileMeta>, n: nat, k: Key)
    requires n <= |files|
  {
    exists j :: 0 <= j < n && k == files[j].smallest
  }

  ghost predicate Candidate(c: Compaction, k: Key) {
    exists i :: 0 <= i < |c.inputs| && CandidateAt(c, i, k)
  }

  method AppendEndpoints(c: Compaction, i: nat, bounds: seq<Key>) returns (more: seq<Key>)
    requires i < |c.inputs| && c.inputs[i].files != []
    ensures more != [] && forall k :: k in more <==> k in bounds || CandidateAt(c, i, k)
  {
    var files := c.inputs[i].files;
    more := bounds;
    if c.inputs[i].level == 0 {
      for j := 0 to |files|
        invariant j > 0 ==> more != []
        invariant forall k :: k in more <==> k in bounds || IsEnd(files, j, k)
      {
        ghost var was := more;
        more := more + [files[j].smallest, files[j].largest];
        forall k ensures k in more <==> k in was || k == files[j].smallest || k == files[j].largest {}
        forall k ensures IsEnd(files, j + 1, k) <==> IsEnd(files, j, k) || k == files[j].smallest || k == files[j].largest {
          assert 0 <= j < j + 1;
        }
      }
    } else {
      more := more + [files[0].smallest, files[|files| - 1].largest];
      if c.inputs[i].level == c.outputLevel {
        assert forall k :: IsStart(files, 1, k) <==> k == files[0].smallest;
        for j := 1 to |files|
          invariant more != []
          invariant forall k :: k in more <==> k in bounds || k == files[|files| - 1].largest || IsStart(files, j, k)
        {
          ghost var was := more;
          more := more + [files[j].smallest];
          forall k ensures k in more <==> k in was || k == files[j].smallest {}
          forall k ensures IsStart(files, j + 1, k) <==> IsStart(files, j, k) || k == files[j].smallest { assert 0 <= j < j + 1; }
        }
      }
    }
  }

  method CollectBounds(c: Compaction) returns (bounds: seq<Key>)
    requires exists i :: 0 <= i < |c.inputs| && c.inputs[i].files != []
    requires forall i :: 0 <= i < |c.inputs| ==> c.inputs[0].level <= c.inputs[i].level <= c.outputLevel
    ensures bounds != [] && forall k :: k in bounds <==> Candidate(c, k)
  {
    bounds := [];
    hide IsEnd, IsStart;
    for i := 0 to |c.inputs|
      invariant forall k :: k in bounds <==> exists j :: 0 <= j < i && CandidateAt(c, j, k)
      invariant bounds == [] ==> forall j :: 0 <= j < i ==> c.inputs[j].files == []
    {
      if c.inputs[i].files != [] { bounds := AppendEndpoints(c, i, bounds); }
    }
  }

  /** The candidates encompass every input file. */
  lemma CandidatesCover(c: Compaction, bounds: seq<Key>, i: nat, j: nat)
    requires WellFormed(c) && bounds != [] && StrictlyIncreasing(bounds) && forall k :: k in bounds <==> Candidate(c, k)
    requires i < |c.inputs| && j < |c.inputs[i].files|
    ensures bounds[0] <= c.inputs[i].files[j].smallest && c.inputs[i].files[j].largest <= bounds[|bounds| - 1]
  {
    var files := c.inputs[i].files;
    var lo, hi := if c.inputs[i].level == 0 then j else 0, if c.inputs[i].level == 0 then j else |files| - 1;
    assert files[lo].smallest <= files[j].smallest && files[j].largest <= files[hi].largest;
    assert CandidateAt(c, i, files[lo].smallest) && CandidateAt(c, i, files[hi].largest);
    assert files[lo].smallest in bounds && files[hi].largest in bounds;
  }

  function InsertKey(ks: seq<Key>, k: Key): (r: seq<Key>)
    requires StrictlyIncreasing(ks)
    ensures StrictlyIncreasing(r) && forall x :: x in r <==> x == k || x in ks
  {
    if ks == [] || k < ks[0] then [k] + ks
    else if k == ks[0] then ks
    else
      var r := InsertKey(ks[1..], k);
      assert forall x :: x in ks <==> x == ks[0] || x in ks[1..];
      assert forall x :: x in ks[1..] ==> ks[0] < x;
      Prepended(r, ks[0]);
      [ks[0]] + r
  }

  lemma Prepended(ks: seq<Key>, k: Key)
    requires StrictlyIncreasing(ks) && forall x :: x in ks ==> k < x
    ensures StrictlyIncreasing([k] + ks) && forall x :: x in [k] + ks <==> x == k || x in ks
  {
    forall i | 0 <= i < |ks| ensures k < ks[i] { assert ks[i] in ks; }
  }

  /** Sorting the candidates and dropping duplicates. */
  function SortUnique(ks: seq<Key>): (r: seq<Key>)
    ensures StrictlyIncreasing(r) && forall x :: x in r <==> x in ks
  {
    if ks == [] then []
    else
      assert forall x :: x in ks <==> x == ks[0] || x in ks[1..];
      InsertKey(SortUnique(ks[1..]), ks[0])
  }

  // ---- Grouping ----

  function Sum(s: seq<nat>): nat {
    if s == [] then 0 else Sum(s[..|s| - 1]) + s[|s| - 1]
  }

  function Ceil(x: real): int {
    -((-x).Floor)
  }

  function Min(a: int, b: int): int { if a < b then a else b }

  /** The group of ranges [from, to): it ends at candidate bound `limit` and its size is their total. */
  ghost predicate Group(bounds: seq<Key>, ranges: seq<nat>, from: nat, to: nat, limit: Key, size: nat) {
    from < to <= |ranges| < |bounds| && limit == bounds[to] && size == Sum(ranges[from..to])
  }

  /** The closed groups are consecutive and start at the first range. */
  ghost predicate Division(bounds: seq<Key>, ranges: seq<nat>, cuts: seq<nat>, boundaries: seq<Key>, sizes: seq<nat>) {
    && |cuts| == |boundaries| + 1 && |sizes| >= |boundaries| && cuts[0] == 0
    && forall i :: 0 <= i < |boundaries| ==>
                     Group(bounds, ranges, cuts[i], cuts[i + 1], boundaries[i], sizes[i])
  }

  lemma SumSnoc(s: seq<nat>, x: nat)
    ensures Sum(s + [x]) == Sum(s) + x
  {
    assert (s + [x])[..|s|] == s;
  }

  /** The groups closed before range `i`, all reaching the mean; the open group starts at the last cut. */
  ghost predicate Greedy(bounds: seq<Key>, ranges: seq<nat>, mean: real, i: nat,
                         cuts: seq<nat>, boundaries: seq<Key>, sizes: seq<nat>)
    requires |bounds| == |ranges| + 1 && i <= |ranges|
  {
    && Division(bounds, ranges, cuts, boundaries, sizes) && |sizes| == |boundaries| && cuts[|boundaries|] <= i
    && Sum(sizes) + Sum(ranges[cuts[|boundaries|]..i]) == Sum(ranges[..i])
    && StrictlyIncreasing(boundaries)
    && (forall k :: k in boundaries ==> k in bounds && bounds[0] < k <= bounds[cuts[|boundaries|]])
    && (forall j :: 0 <= j < |boundaries| ==> sizes[j] as real >= mean)
    && (forall j :: 0 <= j < |boundaries| ==> Short(ranges, cuts[j], cuts[j + 1], mean))
  }

  /** Without its last range the group would not reach the mean. */
  ghost predicate Short(ranges: seq<nat>, from: nat, to: nat, mean: real) {
    from + 1 < to <= |ranges| ==> Sum(ranges[from..to - 1]) as real < mean
  }

  lemma GreedyExtend(bounds: seq<Key>, ranges: seq<nat>, mean: real, i: nat,
                     cuts: seq<nat>, boundaries: seq<Key>, sizes: seq<nat>)
    requires |bounds| == |ranges| + 1 && i < |ranges| && Greedy(bounds, ranges, mean, i, cuts, boundaries, sizes)
    ensures Greedy(bounds, ranges, mean, i + 1, cuts, boundaries, sizes)
    ensures Sum(ranges[cuts[|boundaries|]..i + 1]) == Sum(ranges[cuts[|boundaries|]..i]) + ranges[i]
  {
    var cut := cuts[|boundaries|];
    SumSnoc(ranges[cut..i], ranges[i]);
    SumSnoc(ranges[..i], ranges[i]);
    assert ranges[cut..i + 1] == ranges[cut..i] + [ranges[i]] && ranges[..i + 1] == ranges[..i] + [ranges[i]];
  }

  lemma GreedyClose(bounds: seq<Key>, ranges: seq<nat>, mean: real, i: nat,
                    cuts: seq<nat>, boundaries: seq<Key>, sizes: seq<nat>)
    requires |bounds| == |ranges| + 1 && i <= |ranges| && StrictlyIncreasing(bounds)
    requires Greedy(bounds, ranges, mean, i, cuts, boundaries, sizes) && cuts[|boundaries|] < i
    requires Sum(ranges[cuts[|boundaries|]..i]) as real >= mean && Short(ranges, cuts[|boundaries|], i, mean)
    ensures Greedy(bounds, ranges, mean, i, cuts + [i], boundaries + [bounds[i]],
                   sizes + [Sum(ranges[cuts[|boundaries|]..i])])
  {
    var cut, n := cuts[|boundaries|], |boundaries|;
    var size := Sum(ranges[cut..i]);
    var cuts', boundaries', sizes' := cuts + [i], boundaries + [bounds[i]], sizes + [size];
    SumSnoc(sizes, size);
    forall j | 0 <= j < n + 1
      ensures Group(bounds, ranges, cuts'[j], cuts'[j + 1], boundaries'[j], sizes'[j]) && Short(ranges, cuts'[j], cuts'[j + 1], mean)
    {
      if j < n { assert Group(bounds, ranges, cuts[j], cuts[j + 1], boundaries[j], sizes[j]) && Short(ranges, cuts[j], cuts[j + 1], mean); }
    }
    forall j | 0 <= j < n ensures boundaries[j] < bounds[i] { assert boundaries[j] in boundaries; }
    assert ranges[i..i] == [];
  }

  /** What the greedy pass makes of the ranges: consecutive groups, each but the last closed at the first range that lifts
      it to the mean; either there are as many as planned, or the last group would have to close at its very end. */
  ghost predicate Grouped(bounds: seq<Key>, ranges: seq<nat>, planned: nat, cuts: seq<nat>, boundaries: seq<Key>, sizes: seq<nat>)
    requires |bounds| == |ranges| + 1 && planned > 0
  {
    var mean := Sum(ranges) as real / planned as real;
    && |sizes| == |boundaries| + 1 && |sizes| <= planned
    && Division(bounds, ranges, cuts, boundaries, sizes) && cuts[|boundaries|] < |ranges|
    && sizes[|boundaries|] == Sum(ranges[cuts[|boundaries|]..])
    && (forall i :: 0 <= i < |boundaries| ==> sizes[i] as real >= mean)
    && (forall i :: 0 <= i < |boundaries| ==> Short(ranges, cuts[i], cuts[i + 1], mean))
    && (|sizes| == planned || Short(ranges, cuts[|boundaries|], |ranges|, mean))
  }

  /** The greedy pass: close a group as soon as it reaches the mean, while more than one is left. */
  method GroupRanges(bounds: seq<Key>, ranges: seq<nat>, planned: nat)
    returns (boundaries: seq<Key>, sizes: seq<nat>, ghost cuts: seq<nat>)
    requires StrictlyIncreasing(bounds) && |bounds| == |ranges| + 1 && 1 < planned <= |ranges|
    ensures Grouped(bounds, ranges, planned, cuts, boundaries, sizes)
    ensures StrictlyIncreasing(boundaries) && Sum(sizes) == Sum(ranges)
    ensures forall k :: k in boundaries ==> k in bounds && bounds[0] < k < bounds[|ranges|]
  {
    hide Sum;
    var mean := Sum(ranges) as real / planned as real;
    var left, sum := planned, 0;
    boundaries, sizes, cuts := [], [], [0];
    SumOfNone(ranges);
    for i := 0 to |ranges| - 1
      invariant Greedy(bounds, ranges, mean, i, cuts, boundaries, sizes)
      invariant 1 <= left && left + |boundaries| == planned && sum == Sum(ranges[cuts[|boundaries|]..i])
      invariant left > 1 && cuts[|boundaries|] < i ==> sum as real < mean
    {
      hide Division, StrictlyIncreasing;
      GreedyExtend(bounds, ranges, mean, i, cuts, boundaries, sizes);
      sum := sum + ranges[i];
      if left > 1 && sum as real >= mean {
        GreedyClose(bounds, ranges, mean, i + 1, cuts, boundaries, sizes);
        boundaries, sizes, cuts := boundaries + [bounds[i + 1]], sizes + [sum], cuts + [i + 1];
        left, sum := left - 1, 0;
        SumOfNone(ranges);
        assert ranges[i + 1..i + 1] == [];
      }
    }
    GreedyExtend(bounds, ranges, mean, |ranges| - 1, cuts, boundaries, sizes);
    SumSnoc(sizes, sum + ranges[|ranges| - 1]);
    assert ranges[..|ranges|] == ranges && ranges[cuts[|boundaries|]..|ranges|] == ranges[cuts[|boundaries|]..];
    sizes := sizes + [sum + ranges[|ranges| - 1]];
  }

  lemma SumOfNone(ranges: seq<nat>)
    ensures Sum([]) == 0 && ranges[0..0] == [] && ranges[..0] == []
  {
  }

  ghost function RangeSizes(bounds: seq<Key>, approx: (Key, Key) -> nat): (r: seq<nat>)
    requires bounds != []
    ensures |r| == |bounds| - 1 && forall i :: 0 <= i < |r| ==> r[i] == approx(bounds[i], bounds[i + 1])
  {
    seq(|bounds| - 1, i requires 0 <= i < |bounds| - 1 => approx(bounds[i], bounds[i + 1]))
  }

  method EstimateRanges(bs: seq<Key>, approx: (Key, Key) -> nat) returns (sum: nat, ranges: seq<nat>)
    requires bs != []
    ensures ranges == RangeSizes(bs, approx) && sum == Sum(ranges)
  {
    sum, ranges := 0, [];
    for i := 0 to |bs| - 1
      invariant ranges == RangeSizes(bs, approx)[..i] && sum == Sum(ranges)
    {
      SumSnoc(ranges, approx(bs[i], bs[i + 1]));
      ranges := ranges + [approx(bs[i], bs[i + 1])];
      sum := sum + approx(bs[i], bs[i + 1]);
    }
  }

  /** The ranges between neighbouring candidates, grouped by the greedy pass if more than one piece is planned.
      Boundaries strictly increase, each is a candidate strictly between the least and the greatest one, there are at
      most `maxSubcompactions` pieces, and the sizes add up to the total estimate. */
  method GenSubcompactionBoundaries(c: Compaction, approx: (Key, Key) -> nat, maxSubcompactions: nat, maxFileSize: nat)
    returns (boundaries: seq<Key>, sizes: seq<nat>, ghost bounds: seq<Key>, ghost cuts: seq<nat>)
    requires exists i :: 0 <= i < |c.inputs| && c.inputs[i].files != []
    requires forall i :: 0 <= i < |c.inputs| ==> c.inputs[0].level <= c.inputs[i].level <= c.outputLevel
    requires maxFileSize > 0
    ensures bounds != [] && StrictlyIncreasing(bounds) && forall k :: k in bounds <==> Candidate(c, k)
    ensures StrictlyIncreasing(boundaries)
    ensures forall k :: k in boundaries ==> k in bounds && bounds[0] < k < bounds[|bounds| - 1]
    ensures |sizes| == |boundaries| + 1 && (|boundaries| > 0 ==> |sizes| <= maxSubcompactions)
    ensures Sum(sizes) == Sum(RangeSizes(bounds, approx))
    ensures var n := Planned(|bounds| - 1, maxSubcompactions, Sum(sizes), maxFileSize);
            if n <= 1 then boundaries == [] else Grouped(bounds, RangeSizes(bounds, approx), n, cuts, boundaries, sizes)
  {
    hide Candidate, StrictlyIncreasing, Division, Sum, Planned, Short;
    cuts := [0];
    var raw := CollectBounds(c);
    var bs := SortUnique(raw);
    bounds := bs;
    assert raw[0] in bs;
    var sum, ranges := EstimateRanges(bs, approx);
    var subcompactions := Planned(|ranges|, maxSubcompactions, sum, maxFileSize);
    if subcompactions > 1 {
      boundaries, sizes, cuts := GroupRanges(bs, ranges, subcompactions);
    } else {
      boundaries, sizes := [], [sum];
      SumSnoc([], sum);
      SumOfNone(ranges);
      assert [] + [sum] == [sum];
      assert StrictlyIncreasing(boundaries) by { NoBoundaries(); }
    }
  }

  lemma NoBoundaries()
    ensures StrictlyIncreasing([])
  {
  }

  /** The least number of output files, filled to four fifths, that hold `sum` bytes. */
  function OutputFiles(sum: nat, maxFileSize: nat): (n: int)
    requires maxFileSize > 0
    ensures n as real * 0.8 * maxFileSize as real >= sum as real > (n - 1) as real * 0.8 * maxFileSize as real
  {
    var x := sum as real / 0.8 / maxFileSize as real;
    Unscaled(sum as real, maxFileSize as real, Ceil(x) as real);
    Unscaled(sum as real, maxFileSize as real, (Ceil(x) - 1) as real);
    Ceil(x)
  }

  lemma Unscaled(sum: real, size: real, n: real)
    requires size > 0.0
    ensures n >= sum / 0.8 / size <==> n * 0.8 * size >= sum
  {
    var x := sum / 0.8 / size;
    assert x * size == sum / 0.8;
    Monotone(n, x, size);
  }

  lemma Monotone(a: real, b: real, c: real)
    requires c > 0.0
    ensures a >= b <==> a * c >= b * c
  {
    assert (a - b) * c == a * c - b * c;
  }

  /** How many subcompactions to plan: as many as there are ranges, as are allowed and as are expected to fill an
      output file each, whichever is least. */
  function Planned(ranges: nat, maxSubcompactions: nat, sum: nat, maxFileSize: nat): (n: int)
    requires maxFileSize > 0
    ensures n <= ranges && n <= maxSubcompactions && n <= OutputFiles(sum, maxFileSize)
    ensures n in {ranges, maxSubcompactions, OutputFiles(sum, maxFileSize)}
  {
    Min(ranges, Min(maxSubcompactions, OutputFiles(sum, maxFileSize)))
  }

  /** Range i of the division: from the boundary before it to the one after it, open at both ends of the list. */
  predicate InRange(boundaries: seq<Key>, i: nat, k: Key) {
    && i <= |boundaries|
    && (i > 0 ==> boundaries[i - 1] <= k) && (i < |boundaries| ==> k < boundaries[i])
  }

  /** The ranges partition the key space. */
  lemma {:induction false} EveryKeyInOneRange(boundaries: seq<Key>, k: Key) returns (i: nat)
    requires StrictlyIncreasing(boundaries)
    ensures InRange(boundaries, i, k) && forall j: nat :: InRange(boundaries, j, k) ==> j == i
  {
    i := 0;
    while i < |boundaries| && boundaries[i] <= k
      invariant i <= |boundaries| && forall j :: 0 <= j < i ==> boundaries[j] <= k
    {
      i := i + 1;
    }
    assert forall j: nat :: j < i ==> !InRange(boundaries, j, k);
    assert forall j :: i <= j < |boundaries| ==> boundaries[i] <= boundaries[j];
  }

  // ---- Running the pieces ----

  function TakeBelow(rs: seq<Record>, end: Key): seq<Record> {
    if rs == [] || rs[0].key >= end then [] else [rs[0]] + TakeBelow(rs[1..], end)
  }

  function SeekTo(rs: seq<Record>, start: Key): seq<Record> {
    if rs == [] || rs[0].key >= start then rs else SeekTo(rs[1..], start)
  }

  function FromStart(rs: seq<Record>, start: Option<Key>): seq<Record> {
    if start.None? then rs else SeekTo(rs, start.value)
  }

  function UpTo(rs: seq<Record>, end: Option<Key>): seq<Record> {
    if end.None? then rs else TakeBelow(rs, end.value)
  }

  /** What the subcompaction of [start, end) writes. */
  ghost function Piece(cfg: Config, rs: seq<Record>, start: Option<Key>, end: Option<Key>): seq<Record> {
    UpTo(Compact(cfg, FromStart(rs, start)), end)
  }

  lemma {:induction false} SeekToSorted(rs: seq<Record>, start: Key)
    requires Sorted(rs)
    ensures Sorted(SeekTo(rs, start))
    ensures forall r :: r in SeekTo(rs, start) ==> r in rs && r.key >= start
  {
    if rs != [] && rs[0].key < start {
      SeekToSorted(rs[1..], start);
    } else {
      forall i | 0 <= i < |rs| ensures rs[i].key >= start {
        if i > 0 { assert Before(rs[0], rs[i]); }
      }
    }
  }

  /** The subcompaction's loop: seek, then take records until the range's end. */
  method RunPiece(cfg: Config, rs: seq<Record>, start: Option<Key>, end: Option<Key>) returns (out: seq<Record>)
    requires ValidConfig(cfg) && Sorted(rs) && (cfg.job.Some? ==> WellFormed(cfg.job.value.compaction))
    ensures out == Piece(cfg, rs, start, end)
  {
    hide Process, WellFormed, ValidConfig, Sorted, CursorsFit, CompactionIterator.Consistent, SeekTo, TakeBelow;
    var input := FromStart(rs, start);
    if start.Some? { SeekToSorted(rs, start.value); }
    var it := new CompactionIterator(input, cfg);
    it.SeekToFirst();
    ghost var whole := it.Remaining();
    out := [];
    while it.valid
      invariant it.Ready() && it.sought && fresh(it) && fresh(it.levelPtrs)
      invariant out + it.Remaining() == whole
      invariant end.Some? ==> AllBelow(out, end.value)
      decreases |it.Remaining()|
    {
      hide AllBelow;
      if end.Some? && it.current.key >= end.value { break; }
      ghost var left := it.Remaining();
      if end.Some? { BelowSnoc(out, it.current, end.value); }
      Regrouped(out, it.current, left);
      out := out + [it.current];
      it.Next();
    }
    if end.Some? { TakeBelowStops(out, it.Remaining(), end.value); }
  }

  predicate AllBelow(rs: seq<Record>, k: Key) { forall r :: r in rs ==> r.key < k }

  lemma BelowSnoc(rs: seq<Record>, r: Record, k: Key)
    requires AllBelow(rs, k) && r.key < k
    ensures AllBelow(rs + [r], k)
  {
  }

  lemma Regrouped(a: seq<Record>, r: Record, b: seq<Record>)
    requires b != [] && b[0] == r
    ensures a + b == (a + [r]) + b[1..]
  {
  }

  lemma {:induction false} TakeBelowStops(a: seq<Record>, b: seq<Record>, k: Key)
    requires (forall r :: r in a ==> r.key < k) && (b == [] || b[0].key >= k)
    ensures TakeBelow(a + b, k) == a
  {
    if a == [] {
      assert a + b == b;
    } else {
      assert (a + b)[1..] == a[1..] + b;
      TakeBelowStops(a[1..], b, k);
    }
  }

  ghost function AllPieces(cfg: Config, rs: seq<Record>, start: Option<Key>, boundaries: seq<Key>): seq<Record>
    decreases |boundaries|
  {
    if boundaries == [] then Piece(cfg, rs, start, None)
    else Piece(cfg, rs, start, Some(boundaries[0])) + AllPieces(cfg, rs, Some(boundaries[0]), boundaries[1..])
  }

  // ---- Cutting a run between two keys ----

  ghost predicate Separated(a: seq<Record>, b: seq<Record>) {
    forall i, j :: 0 <= i < |a| && 0 <= j < |b| ==> a[i].key < b[j].key
  }

  /** The memory of an iterator that is between keys; `sought` says whether it has output anything yet. */
  function Between(sought: bool): State { INITIAL.(sought := sought) }

  /** All that a run remembers of smaller keys is whether it has output anything. */
  lemma ForgetsKey(cfg: Config, rs: seq<Record>, st: State)
    requires !st.clearNext && (st.hasKey && rs != [] ==> st.key != rs[0].key)
    ensures Process(cfg, rs, st) == Process(cfg, rs, Between(st.sought))
  {
    if rs != [] { assert Enter(st, rs[0]) == Enter(Between(st.sought), rs[0]); }
  }

  /** A step within the left part does not look beyond it. */
  lemma StaysLeft(cfg: Config, a: seq<Record>, b: seq<Record>, st: State)
    requires a != [] && Separated(a, b)
    ensures Advance(cfg, a + b, st) == Advance(cfg, a, st)
    ensures var step := Advance(cfg, a, st);
            && (step.next.hasKey ==> step.next.key == a[0].key) && step.next.sought == (st.sought || step.out.Some?)
            && (step.next.clearNext ==> step.used < |a|)
  {
    assert (a + b)[0] == a[0];
    if |a| > 1 {
      assert (a + b)[1] == a[1];
    } else if b != [] {
      assert (a + b)[1] == b[0];
    }
  }

  /** A run over two parts is a run over the first and then, between keys, over the second. */
  lemma {:induction false} CutRun(cfg: Config, a: seq<Record>, b: seq<Record>, st: State)
    requires Separated(a, b) && (st.clearNext ==> a != []) && (st.hasKey ==> forall i :: 0 <= i < |b| ==> st.key != b[i].key)
    ensures Process(cfg, a + b, st) == Process(cfg, a, st) + Process(cfg, b, Between(st.sought || Process(cfg, a, st) != []))
    decreases |a|
  {
    hide Advance, Process;
    if a == [] {
      assert a + b == b;
      ForgetsKey(cfg, b, st);
      assert Process(cfg, a, st) == [] by { EmptyRun(cfg, st); }
    } else {
      var step := Advance(cfg, a, st);
      StaysLeft(cfg, a, b, st);
      var rest := a[step.used..];
      assert (a + b)[step.used..] == rest + b;
      assert Separated(rest, b) && forall i :: 0 <= i < |b| ==> a[0].key != b[i].key;
      hide Separated;
      CutRun(cfg, rest, b, step.next);
      Unfold(cfg, a, st);
      Unfold(cfg, a + b, st);
      var left := Process(cfg, rest, step.next);
      Joined(Shown(step.out), left, Process(cfg, b, Between(step.next.sought || left != [])));
    }
  }

  lemma EmptyRun(cfg: Config, st: State)
    ensures Process(cfg, [], st) == []
  {
  }

  lemma Unfold(cfg: Config, rs: seq<Record>, st: State)
    requires rs != []
    ensures var step := Advance(cfg, rs, st);
            Process(cfg, rs, st) == Shown(step.out) + Process(cfg, rs[step.used..], step.next)
  {
  }

  lemma Joined(x: seq<Record>, y: seq<Record>, z: seq<Record>)
    ensures x + (y + z) == (x + y) + z && (x + y == [] <==> x == [] && y == [])
  {
  }

  lemma {:induction false} CutAt(rs: seq<Record>, k: Key)
    requires Sorted(rs)
    ensures rs == TakeBelow(rs, k) + SeekTo(rs, k)
    ensures forall r :: r in TakeBelow(rs, k) ==> r.key < k
    ensures forall r :: r in SeekTo(rs, k) ==> r.key >= k
  {
    if rs != [] && rs[0].key < k {
      CutAt(rs[1..], k);
    } else {
      SeekToSorted(rs, k);
    }
  }

  lemma {:induction false} SeekTwice(rs: seq<Record>, j: Key, k: Key)
    requires j <= k
    ensures SeekTo(SeekTo(rs, j), k) == SeekTo(rs, k)
  {
    if rs != [] && rs[0].key < j { SeekTwice(rs[1..], j, k); }
  }

  lemma OutputKeys(cfg: Config, rs: seq<Record>, st: State, o: Record)
    requires o in Process(cfg, rs, st)
    ensures exists r :: r in rs && r.key == o.key
  {
    OutputsComeFromInput(cfg, rs, st);
    var i :| 0 <= i < |rs| && ComesFrom(cfg, o, rs[i]);
    assert rs[i] in rs;
  }

  /** The output of the whole falls apart at a key into the output of the part below it and what the run, between
      keys, writes of the rest. */
  lemma CutCompaction(cfg: Config, rs: seq<Record>, k: Key, sought: bool)
    requires Sorted(rs)
    ensures var low := Process(cfg, TakeBelow(rs, k), Between(sought));
            && Process(cfg, rs, Between(sought)) == low + Process(cfg, SeekTo(rs, k), Between(sought || low != []))
            && TakeBelow(Process(cfg, rs, Between(sought)), k) == low
  {
    hide Process;
    var a, b := TakeBelow(rs, k), SeekTo(rs, k);
    CutAt(rs, k);
    assert Separated(a, b) by {
      forall i, j | 0 <= i < |a| && 0 <= j < |b| ensures a[i].key < b[j].key {
        assert a[i] in a && b[j] in b;
      }
    }
    CutRun(cfg, a, b, Between(sought));
    var low := Process(cfg, a, Between(sought));
    var high := Process(cfg, b, Between(sought || low != []));
    forall o | o in low ensures o.key < k { OutputKeys(cfg, a, Between(sought), o); }
    forall o | o in high ensures o.key >= k { OutputKeys(cfg, b, Between(sought || low != []), o); }
    TakeBelowStops(low, high, k);
  }

  // ---- What the first output of a piece decides ----

  /** Before its next output, and still within the current key, the run takes up a pair above the write-conflict
      boundary. */
  ghost predicate MeetsPair(cfg: Config, rs: seq<Record>, st: State)
    decreases |rs|
  {
    && rs != [] && st.hasKey && rs[0].key == st.key && !st.clearNext
    && (PairAbove(cfg, rs, 0) ||
        var step := Advance(cfg, rs, st);
        step.out == None && MeetsPair(cfg, rs[step.used..], step.next))
  }

  /** The run meets such a pair between its first and its second output, within the key of the first. */
  ghost predicate FirstMatters(cfg: Config, rs: seq<Record>, st: State)
    decreases |rs|
  {
    rs != [] &&
    var step := Advance(cfg, rs, st);
    if step.out == None then FirstMatters(cfg, rs[step.used..], step.next) else MeetsPair(cfg, rs[step.used..], step.next)
  }

  /** The same memory with the key's earlier output on record. */
  function OnRecord(st: State): State { st.(outputted := true) }

  /** Without such a pair at the head, the flag changes neither the step nor, beyond itself, the memory. */
  lemma FlagIdle(cfg: Config, rs: seq<Record>, st: State)
    requires rs != [] && st.sought && !st.outputted && !(st.hasKey && rs[0].key == st.key && !st.clearNext && PairAbove(cfg, rs, 0))
    ensures var step, step' := Advance(cfg, rs, st), Advance(cfg, rs, OnRecord(st));
            && step'.out == step.out && step'.used == step.used
            && (step'.next == step.next || (step.out == None && step'.next == OnRecord(step.next) && !step.next.outputted))
            && (step'.next != step.next ==> st.hasKey && rs[0].key == st.key && !st.clearNext) && step.next.sought
  {
  }

  lemma {:induction false} FlagNeverUsed(cfg: Config, rs: seq<Record>, st: State)
    requires st.sought && !st.outputted && !MeetsPair(cfg, rs, st)
    ensures Process(cfg, rs, st) == Process(cfg, rs, OnRecord(st))
    decreases |rs|
  {
    if rs != [] {
      var step, step' := Advance(cfg, rs, st), Advance(cfg, rs, OnRecord(st));
      FlagIdle(cfg, rs, st);
      hide Advance;
      if step'.next != step.next { FlagNeverUsed(cfg, rs[step.used..], step.next); }
    }
  }

  /** At the pair, one run shows the single delete and the other nothing that could stand in its place. */
  lemma PairTells(cfg: Config, rs: seq<Record>, st: State)
    requires ValidConfig(cfg) && Sorted(rs) && st.sought && !st.outputted && !st.clearNext
    requires PairAbove(cfg, rs, 0) && st.hasKey && rs[0].key == st.key
    ensures Process(cfg, rs, st) != Process(cfg, rs, OnRecord(st))
  {
    var step, step' := Advance(cfg, rs, st), Advance(cfg, rs, OnRecord(st));
    assert step.out == Some(rs[0]) && step'.out == None && step'.used == 2;
    var other := Process(cfg, rs[2..], step'.next);
    OutputsComeFromInput(cfg, rs[2..], step'.next);
    forall o | o in other ensures o != rs[0] {
      var i :| 0 <= i < |rs[2..]| && ComesFrom(cfg, o, rs[2..][i]);
      assert Before(rs[0], rs[2 + i]);
    }
    assert Process(cfg, rs, st)[0] == rs[0] && Process(cfg, rs, OnRecord(st)) == other;
    hide Process;
    assert other != [] ==> other[0] in other;
  }

  lemma {:induction false} FlagUsed(cfg: Config, rs: seq<Record>, st: State)
    requires ValidConfig(cfg) && Sorted(rs) && st.sought && !st.outputted && MeetsPair(cfg, rs, st)
    ensures Process(cfg, rs, st) != Process(cfg, rs, OnRecord(st))
    decreases |rs|
  {
    if PairAbove(cfg, rs, 0) {
      PairTells(cfg, rs, st);
    } else {
      var step := Advance(cfg, rs, st);
      FlagIdle(cfg, rs, st);
      SameKeyGoesOn(cfg, rs, st);
      FlagUsed(cfg, rs[step.used..], step.next);
      Unfold(cfg, rs, st);
      Unfold(cfg, rs, OnRecord(st));
      hide Advance, Process;
      NothingShown(Process(cfg, rs[step.used..], step.next));
      NothingShown(Process(cfg, rs[step.used..], OnRecord(step.next)));
    }
  }

  /** While the run stays silent within a key, the flag stays the only difference. */
  lemma SameKeyGoesOn(cfg: Config, rs: seq<Record>, st: State)
    requires rs != [] && st.sought && !st.outputted && st.hasKey && rs[0].key == st.key && !st.clearNext && !PairAbove(cfg, rs, 0)
    requires Advance(cfg, rs, st).out == None
    ensures Advance(cfg, rs, OnRecord(st)).next == OnRecord(Advance(cfg, rs, st).next) && !Advance(cfg, rs, st).next.outputted
  {
  }

  /** A step before the first output: having output something earlier shows only once this step outputs. */
  lemma FirstStep(cfg: Config, rs: seq<Record>, st: State)
    requires rs != [] && !st.sought && !st.outputted
    ensures var step, step' := Advance(cfg, rs, st), Advance(cfg, rs, st.(sought := true));
            && step'.out == step.out && step'.used == step.used && !step.next.outputted && step.next.sought == step.out.Some?
            && step'.next == if step.out == None then step.next.(sought := true) else OnRecord(step.next)
  {
  }

  /** Having output something earlier makes a difference exactly if the first output matters. */
  lemma {:induction false} FirstDecides(cfg: Config, rs: seq<Record>, st: State)
    requires ValidConfig(cfg) && Sorted(rs) && !st.sought && !st.outputted
    ensures Process(cfg, rs, st) == Process(cfg, rs, st.(sought := true)) <==> !FirstMatters(cfg, rs, st)
    ensures Process(cfg, rs, st) == [] <==> Process(cfg, rs, st.(sought := true)) == []
    decreases |rs|
  {
    if rs != [] {
      var step := Advance(cfg, rs, st);
      FirstStep(cfg, rs, st);
      Unfold(cfg, rs, st);
      Unfold(cfg, rs, st.(sought := true));
      assert FirstMatters(cfg, rs, st) == if step.out == None then FirstMatters(cfg, rs[step.used..], step.next) else MeetsPair(cfg, rs[step.used..], step.next);
      hide Advance, Process, FirstMatters, MeetsPair;
      var rest := rs[step.used..];
      if step.out == None {
        FirstDecides(cfg, rest, step.next);
        NothingShown(Process(cfg, rest, step.next));
        NothingShown(Process(cfg, rest, step.next.(sought := true)));
      } else {
        if MeetsPair(cfg, rest, step.next) { FlagUsed(cfg, rest, step.next); } else { FlagNeverUsed(cfg, rest, step.next); }
        SameHead(Shown(step.out), Process(cfg, rest, step.next), Process(cfg, rest, OnRecord(step.next)));
      }
    }
  }

  lemma NothingShown(x: seq<Record>)
    ensures Shown(None) + x == x
  {
  }

  lemma SameHead(x: seq<Record>, y: seq<Record>, z: seq<Record>)
    ensures x + y == x + z <==> y == z
    ensures x != [] ==> x + y != [] && x + z != []
  {
    assert (x + y)[|x|..] == y && (x + z)[|x|..] == z;
  }

  // ---- Splitting ----

  function FirstOf(boundaries: seq<Key>): Option<Key> { if boundaries == [] then None else Some(boundaries[0]) }

  /** The input records of the range from `start` to the first boundary. */
  function Part(rs: seq<Record>, start: Option<Key>, boundaries: seq<Key>): seq<Record> {
    UpTo(FromStart(rs, start), FirstOf(boundaries))
  }

  /** Some piece after the first output meets a pair between its own first and second output. */
  ghost predicate PiecesTell(cfg: Config, rs: seq<Record>, start: Option<Key>, boundaries: seq<Key>, sought: bool)
    decreases |boundaries|
  {
    || (sought && FirstMatters(cfg, Part(rs, start, boundaries), INITIAL))
    || (boundaries != [] &&
        PiecesTell(cfg, rs, Some(boundaries[0]), boundaries[1..], sought || Compact(cfg, Part(rs, start, boundaries)) != []))
  }

  /** Records below and from a key on: equal sums have equal parts. */
  lemma PartsApart(x: seq<Record>, y: seq<Record>, x': seq<Record>, y': seq<Record>, k: Key)
    requires (forall r :: r in x + x' ==> r.key < k) && (forall r :: r in y + y' ==> r.key >= k)
    ensures x + y == x' + y' <==> x == x' && y == y'
  {
    assert (forall r :: r in x ==> r in x + x') && (forall r :: r in x' ==> r in x + x');
    assert (forall r :: r in y ==> r in y + y') && (forall r :: r in y' ==> r in y + y');
    TakeBelowStops(x, y, k);
    TakeBelowStops(x', y', k);
    assert (x + y)[|x|..] == y && (x' + y')[|x'|..] == y';
  }

  lemma PieceIsPart(cfg: Config, rs: seq<Record>, start: Option<Key>, boundaries: seq<Key>)
    requires Sorted(rs)
    ensures Piece(cfg, rs, start, FirstOf(boundaries)) == Compact(cfg, Part(rs, start, boundaries))
  {
    hide Process;
    if start.Some? { SeekToSorted(rs, start.value); }
    if boundaries != [] { CutCompaction(cfg, FromStart(rs, start), boundaries[0], false); }
  }

  lemma {:induction false} PiecesAbove(cfg: Config, rs: seq<Record>, start: Key, boundaries: seq<Key>, o: Record)
    requires Sorted(rs) && StrictlyIncreasing(boundaries) && (boundaries != [] ==> start < boundaries[0])
    requires o in AllPieces(cfg, rs, Some(start), boundaries)
    ensures o.key >= start
    decreases |boundaries|
  {
    hide Process;
    SeekToSorted(rs, start);
    if boundaries != [] && o in AllPieces(cfg, rs, Some(boundaries[0]), boundaries[1..]) {
      PiecesAbove(cfg, rs, boundaries[0], boundaries[1..], o);
    } else {
      PieceIsPart(cfg, rs, Some(start), boundaries);
      var input := SeekTo(rs, start);
      if boundaries != [] { CutAt(input, boundaries[0]); }
      OutputKeys(cfg, Part(rs, Some(start), boundaries), INITIAL, o);
    }
  }

  /** The pieces from `start` on are what the unsplit run writes there exactly if no later first output matters. */
  lemma {:induction false} PiecesFromStart(cfg: Config, rs: seq<Record>, start: Option<Key>, boundaries: seq<Key>, sought: bool)
    requires ValidConfig(cfg) && Sorted(rs)
    requires StrictlyIncreasing(boundaries) && (start.Some? && boundaries != [] ==> start.value < boundaries[0])
    ensures AllPieces(cfg, rs, start, boundaries) == Process(cfg, FromStart(rs, start), Between(sought)) <==>
            !PiecesTell(cfg, rs, start, boundaries, sought)
    decreases |boundaries|
  {
    hide Process, FirstMatters;
    var input, part := FromStart(rs, start), Part(rs, start, boundaries);
    if start.Some? { SeekToSorted(rs, start.value); }
    PieceIsPart(cfg, rs, start, boundaries);
    PartSorted(rs, start, boundaries);
    if sought { FirstDecides(cfg, part, INITIAL); }
    if boundaries != [] {
      var k := boundaries[0];
      var low := Process(cfg, part, Between(sought));
      var next := sought || Compact(cfg, part) != [];
      CutCompaction(cfg, input, k, sought);
      if start.Some? { SeekTwice(rs, start.value, k); }
      PiecesFromStart(cfg, rs, Some(k), boundaries[1..], next);
      var high := Process(cfg, SeekTo(rs, k), Between(next));
      var rest := AllPieces(cfg, rs, Some(k), boundaries[1..]);
      CutAt(input, k);
      SeekToSorted(rs, k);
      forall r | r in Compact(cfg, part) + low ensures r.key < k {
        if r in low { OutputKeys(cfg, part, Between(sought), r); } else { OutputKeys(cfg, part, INITIAL, r); }
      }
      forall r: Record | r in rest + high ensures r.key >= k {
        if r in high { OutputKeys(cfg, SeekTo(rs, k), Between(next), r); } else { PiecesAbove(cfg, rs, k, boundaries[1..], r); }
      }
      PartsApart(Compact(cfg, part), rest, low, high, k);
    }
  }

  lemma PartSorted(rs: seq<Record>, start: Option<Key>, boundaries: seq<Key>)
    requires Sorted(rs)
    ensures Sorted(Part(rs, start, boundaries)) && forall r :: r in Part(rs, start, boundaries) ==> r in rs
  {
    var input := FromStart(rs, start);
    if start.Some? { SeekToSorted(rs, start.value); }
    if boundaries != [] {
      CutAt(input, boundaries[0]);
      var part, rest := TakeBelow(input, boundaries[0]), SeekTo(input, boundaries[0]);
      assert forall i :: 0 <= i < |part| ==> input[i] == part[i];
    }
  }
}
