/** Obsolete table files are removed while jobs write new ones.  A job first captures the next file number in the
    list of pending outputs, then allocates numbers, writes files and installs them; a purger takes its decisions
    under the mutex and deletes later, without it.  Every step that is atomic in the source is one step here. */
module FilePurge {
  import opened Records

  type JobId = nat
  type PurgerId = nat
  type FileNumber = nat

  /** outputs: numbers allocated and not yet installed; written: those of them whose file exists. */
  datatype Job = Idle | Running(captured: FileNumber, outputs: set<FileNumber>, written: set<FileNumber>)

  /** A purger's job context.  No minimum stands for the largest number. */
  datatype Purger = Resting | Purging(min: Option<FileNumber>, live: set<FileNumber>, candidates: set<FileNumber>)

  datatype Slot = Slot(job: JobId, number: FileNumber)

  datatype State = State(
    next: FileNumber,
    pending: seq<Slot>,          // in the order of the list; erased anywhere, appended at the end
    disk: set<FileNumber>,
    live: set<FileNumber>,       // in some version
    obsolete: set<FileNumber>,   // dropped from every version, waiting for a purger
    jobs: seq<Job>,
    purgers: seq<Purger>,
    scanner: Option<PurgerId>)   // holds the mutex while it lists the directory

  datatype Action =
    | TakeNumber                                        // a log or manifest takes a number
    | Capture(job: JobId) | Allocate(job: JobId) | Write(job: JobId, n: FileNumber)
    | Install(job: JobId, adds: set<FileNumber>)
    | Release(job: JobId)
    | Drop(n: FileNumber)                               // the last version naming a file goes
    | BeginScan(p: PurgerId) | List(p: PurgerId, n: FileNumber) | EndScan(p: PurgerId)
    | Consider(p: PurgerId, n: FileNumber) | EndPurge(p: PurgerId)

  function Min(pending: seq<Slot>): Option<FileNumber> { if pending == [] then None else Some(pending[0].number) }

  predicate Below(n: FileNumber, min: Option<FileNumber>) { min == None || n < min.value }

  /** The rule for table files: keep what was live at the scan and what may still be written. */
  predicate Keeps(p: Purger, n: FileNumber)
    requires p.Purging?
  {
    n in p.live || !Below(n, p.min)
  }

  predicate Enabled(s: State, a: Action) {
    match a
    case TakeNumber => true
    case Capture(j) => s.scanner == None && j < |s.jobs| && s.jobs[j] == Idle
    case Allocate(j) => j < |s.jobs| && s.jobs[j].Running?
    case Write(j, n) => j < |s.jobs| && s.jobs[j].Running? && n in s.jobs[j].outputs
    case Install(j, adds) => s.scanner == None && j < |s.jobs| && s.jobs[j].Running? && adds <= s.jobs[j].written
    case Release(j) => s.scanner == None && j < |s.jobs| && s.jobs[j].Running?
    case Drop(n) => s.scanner == None && n in s.live
    case BeginScan(p) => s.scanner == None && p < |s.purgers| && s.purgers[p] == Resting
    case List(p, n) => s.scanner == Some(p) && p < |s.purgers| && s.purgers[p].Purging? && n in s.disk
    case EndScan(p) => s.scanner == Some(p)
    case Consider(p, n) => s.scanner != Some(p) && p < |s.purgers| && s.purgers[p].Purging? && n in s.purgers[p].candidates
    case EndPurge(p) => s.scanner != Some(p) && p < |s.purgers| && s.purgers[p].Purging? && s.purgers[p].candidates == {}
  }

  function WithJob(s: State, j: JobId, job: Job): State
    requires j < |s.jobs|
  {
    s.(jobs := s.jobs[j := job])
  }

  function WithPurger(s: State, p: PurgerId, purger: Purger): State
    requires p < |s.purgers|
  {
    s.(purgers := s.purgers[p := purger])
  }

  /** The list without the element of a job. */
  function Without(pending: seq<Slot>, j: JobId): seq<Slot> {
    if pending == [] then []
    else if pending[0].job == j then pending[1..]
    else [pending[0]] + Without(pending[1..], j)
  }

  /** The obsolete files a purger may take now; the others wait. */
  function Ripe(obsolete: set<FileNumber>, min: Option<FileNumber>): set<FileNumber> {
    set n | n in obsolete && Below(n, min)
  }

  function Apply(s: State, a: Action): State
    requires Enabled(s, a)
  {
    match a
    case TakeNumber => s.(next := s.next + 1)
    case Capture(j) => WithJob(s, j, Running(s.next, {}, {})).(pending := s.pending + [Slot(j, s.next)])
    case Allocate(j) => WithJob(s, j, s.jobs[j].(outputs := s.jobs[j].outputs + {s.next})).(next := s.next + 1)
    case Write(j, n) => WithJob(s, j, s.jobs[j].(written := s.jobs[j].written + {n})).(disk := s.disk + {n})
    case Install(j, adds) =>
      WithJob(s, j, s.jobs[j].(outputs := s.jobs[j].outputs - adds, written := s.jobs[j].written - adds)).(live := s.live + adds)
    case Release(j) => WithJob(s, j, Idle).(pending := Without(s.pending, j))
    case Drop(n) => s.(live := s.live - {n}, obsolete := s.obsolete + {n})
    case BeginScan(p) =>
      var min := Min(s.pending);
      WithPurger(s, p, Purging(min, s.live, Ripe(s.obsolete, min))).(obsolete := s.obsolete - Ripe(s.obsolete, min), scanner := Some(p))
    case List(p, n) => WithPurger(s, p, s.purgers[p].(candidates := s.purgers[p].candidates + {n}))
    case EndScan(p) => s.(scanner := None)
    case Consider(p, n) =>
      WithPurger(s, p, s.purgers[p].(candidates := s.purgers[p].candidates - {n}))
        .(disk := if Keeps(s.purgers[p], n) then s.disk else s.disk - {n})
    case EndPurge(p) => WithPurger(s, p, Resting)
  }

  // ---- The list of pending outputs ----

  predicate Sorted(pending: seq<Slot>) { forall i, j :: 0 <= i < j < |pending| ==> pending[i].number <= pending[j].number }

  predicate OncePerJob(pending: seq<Slot>) { forall i, j :: 0 <= i < j < |pending| ==> pending[i].job != pending[j].job }

  /** Every running job has its captured number in the list, the list is sorted although elements are erased
      anywhere, and no number in it is ahead of the next one. */
  ghost predicate PendingFits(s: State) {
    && Sorted(s.pending) && OncePerJob(s.pending)
    && (forall i :: 0 <= i < |s.pending| ==> s.pending[i].number <= s.next)
    && (forall j :: 0 <= j < |s.jobs| && s.jobs[j].Running? ==> Slot(j, s.jobs[j].captured) in s.pending)
    && (forall i :: 0 <= i < |s.pending| ==> s.pending[i].job < |s.jobs| && s.jobs[s.pending[i].job].Running?)
  }

  lemma {:induction false} WithoutMembers(pending: seq<Slot>, j: JobId, x: Slot)
    requires OncePerJob(pending)
    ensures x in Without(pending, j) <==> x in pending && x.job != j
  {
    if pending != [] {
      assert pending == [pending[0]] + pending[1..];
      WithoutMembers(pending[1..], j, x);
    }
  }

  lemma {:induction false} WithoutSorted(pending: seq<Slot>, j: JobId)
    requires OncePerJob(pending) && Sorted(pending)
    ensures OncePerJob(Without(pending, j)) && Sorted(Without(pending, j))
  {
    if pending != [] && pending[0].job != j {
      var rest := pending[1..];
      WithoutSorted(rest, j);
      forall i | 0 <= i < |Without(rest, j)|
        ensures Without(rest, j)[i].job != pending[0].job && pending[0].number <= Without(rest, j)[i].number
      {
        WithoutMembers(rest, j, Without(rest, j)[i]);
      }
    }
  }

  /** The front of the list is the least number any running job captured. */
  lemma FrontIsLeast(s: State, j: JobId)
    requires PendingFits(s) && j < |s.jobs| && s.jobs[j].Running?
    ensures Min(s.pending).Some? && Min(s.pending).value <= s.jobs[j].captured
  {
    var i :| 0 <= i < |s.pending| && s.pending[i] == Slot(j, s.jobs[j].captured);
  }

  // ---- The invariant ----

  predicate JobFits(s: State, j: JobId)
    requires j < |s.jobs|
  {
    s.jobs[j].Running? ==>
      && s.jobs[j].written <= s.jobs[j].outputs && s.jobs[j].written <= s.disk
      && (forall n :: n in s.jobs[j].outputs ==> s.jobs[j].captured <= n < s.next && n !in s.live && n !in s.obsolete)
  }

  predicate Apart(a: Job, b: Job) { a.Running? && b.Running? ==> a.outputs !! b.outputs }

  predicate FilesFit(s: State) {
    && s.live <= s.disk && s.live !! s.obsolete
    && (forall n :: n in s.disk ==> n < s.next) && (forall n :: n in s.obsolete ==> n < s.next)
  }

  /** A file a purger will still delete is dead: not live and not going to be installed. */
  ghost predicate Dead(s: State, n: FileNumber) {
    n < s.next && n !in s.live && forall j :: 0 <= j < |s.jobs| && s.jobs[j].Running? ==> n !in s.jobs[j].outputs
  }

  ghost predicate PurgerFits(s: State, p: PurgerId)
    requires p < |s.purgers|
  {
    s.purgers[p].Purging? ==>
      && (forall n :: n in s.purgers[p].candidates && !Keeps(s.purgers[p], n) ==> Dead(s, n))
      && (forall n :: n in s.purgers[p].candidates ==> n < s.next)
      && (s.scanner == Some(p) ==> s.purgers[p].live == s.live && s.purgers[p].min == Min(s.pending))
  }

  ghost predicate Inv(s: State) {
    && PendingFits(s) && FilesFit(s)
    && (forall j :: 0 <= j < |s.jobs| ==> JobFits(s, j))
    && (forall i, j :: 0 <= i < j < |s.jobs| ==> Apart(s.jobs[i], s.jobs[j]))
    && (forall p :: 0 <= p < |s.purgers| ==> PurgerFits(s, p))
    && (s.scanner.Some? ==> s.scanner.value < |s.purgers| && s.purgers[s.scanner.value].Purging?)
  }

  // ---- Every step keeps it ----

  lemma ReleasedPending(s: State, j: JobId)
    requires PendingFits(s) && Enabled(s, Release(j))
    ensures PendingFits(Apply(s, Release(j)))
  {
    var s' := Apply(s, Release(j));
    WithoutSorted(s.pending, j);
    forall x ensures x in s'.pending <==> x in s.pending && x.job != j { WithoutMembers(s.pending, j, x); }
    forall i | 0 <= i < |s'.pending|
      ensures s'.pending[i].number <= s'.next && s'.pending[i].job < |s'.jobs| && s'.jobs[s'.pending[i].job].Running?
    {
      assert s'.pending[i] in s.pending && s'.pending[i].job != j;
    }
  }

  lemma CapturedPending(s: State, j: JobId)
    requires PendingFits(s) && Enabled(s, Capture(j))
    ensures PendingFits(Apply(s, Capture(j)))
  {
  }

  lemma PendingKept(s: State, a: Action)
    requires PendingFits(s) && Enabled(s, a)
    ensures PendingFits(Apply(s, a))
  {
    if a.Release? {
      ReleasedPending(s, a.job);
    } else if a.Capture? {
      CapturedPending(s, a.job);
    } else {
      var s' := Apply(s, a);
      hide Sorted, OncePerJob;
      assert s'.pending == s.pending && |s'.jobs| == |s.jobs|;
      assert forall j :: 0 <= j < |s.jobs| ==> (s'.jobs[j].Running? <==> s.jobs[j].Running?);
      assert forall j :: 0 <= j < |s.jobs| && s.jobs[j].Running? ==> s'.jobs[j].captured == s.jobs[j].captured;
    }
  }

  lemma FilesKept(s: State, a: Action)
    requires Inv(s) && Enabled(s, a)
    ensures FilesFit(Apply(s, a))
  {
    if a.Write? || a.Install? { assert JobFits(s, a.job); }
    if a.Consider? { assert PurgerFits(s, a.p); }
  }

  lemma JobKept(s: State, a: Action, j: JobId)
    requires Inv(s) && Enabled(s, a) && j < |s.jobs|
    ensures |Apply(s, a).jobs| == |s.jobs| && JobFits(Apply(s, a), j)
  {
    assert JobFits(s, j);
    if a.Consider? { assert PurgerFits(s, a.p); }
    if a.Install? {
      assert JobFits(s, a.job);
      if j < a.job { assert Apart(s.jobs[j], s.jobs[a.job]); }
      if a.job < j { assert Apart(s.jobs[a.job], s.jobs[j]); }
    }
  }

  lemma ApartKept(s: State, a: Action, i: JobId, j: JobId)
    requires Inv(s) && Enabled(s, a) && i < j < |s.jobs|
    ensures j < |Apply(s, a).jobs| && Apart(Apply(s, a).jobs[i], Apply(s, a).jobs[j])
  {
    assert JobFits(s, i) && JobFits(s, j) && Apart(s.jobs[i], s.jobs[j]);
  }

  /** Dead files stay dead. */
  lemma DeadKept(s: State, a: Action, n: FileNumber)
    requires Inv(s) && Enabled(s, a) && Dead(s, n)
    ensures Dead(Apply(s, a), n)
  {
    var s' := Apply(s, a);
    if a.Install? { assert JobFits(s, a.job); }
    forall j | 0 <= j < |s'.jobs| && s'.jobs[j].Running? ensures n !in s'.jobs[j].outputs {}
  }

  /** Whatever is found on disk during a scan and not kept is dead: a file still to be installed is numbered at
      least as its job's captured number, which the minimum does not exceed. */
  lemma ListedDead(s: State, p: PurgerId, n: FileNumber)
    requires Inv(s) && s.scanner == Some(p) && p < |s.purgers| && s.purgers[p].Purging? && n in s.disk && !Keeps(s.purgers[p], n)
    ensures Dead(s, n)
  {
    assert PurgerFits(s, p);
    forall j | 0 <= j < |s.jobs| && s.jobs[j].Running? ensures n !in s.jobs[j].outputs {
      assert JobFits(s, j);
      FrontIsLeast(s, j);
    }
  }

  lemma ObsoleteDead(s: State, n: FileNumber)
    requires Inv(s) && n in s.obsolete
    ensures Dead(s, n)
  {
    forall j | 0 <= j < |s.jobs| && s.jobs[j].Running? ensures n !in s.jobs[j].outputs { assert JobFits(s, j); }
  }

  lemma PurgerKept(s: State, a: Action, p: PurgerId)
    requires Inv(s) && Enabled(s, a) && p < |s.purgers|
    ensures |Apply(s, a).purgers| == |s.purgers| && PurgerFits(Apply(s, a), p)
  {
    var s' := Apply(s, a);
    assert PurgerFits(s, p) && FilesFit(s);
    if s'.purgers[p].Purging? {
      forall n | n in s'.purgers[p].candidates && !Keeps(s'.purgers[p], n) ensures Dead(s', n) {
        if a.BeginScan? && a.p == p {
          ObsoleteDead(s, n);
        } else if a.List? && a.p == p && n !in s.purgers[p].candidates {
          ListedDead(s, p, n);
        }
        hide Inv, PurgerFits, FilesFit;
        DeadKept(s, a, n);
      }
      hide Inv, Dead, Keeps;
    }
  }

  lemma StepKeepsInv(s: State, a: Action)
    requires Inv(s) && Enabled(s, a)
    ensures Inv(Apply(s, a))
  {
    hide PendingFits, FilesFit, JobFits, Apart, PurgerFits;
    var s' := Apply(s, a);
    PendingKept(s, a);
    FilesKept(s, a);
    forall j | 0 <= j < |s'.jobs| ensures JobFits(s', j) { JobKept(s, a, j); }
    forall i, j | 0 <= i < j < |s'.jobs| ensures Apart(s'.jobs[i], s'.jobs[j]) { ApartKept(s, a, i, j); }
    forall p | 0 <= p < |s'.purgers| ensures PurgerFits(s', p) { PurgerKept(s, a, p); }
  }

  // ---- Whole runs ----

  predicate Initial(s: State) {
    && s.pending == [] && s.live <= s.disk && s.obsolete == {} && s.scanner == None
    && (forall n :: n in s.disk ==> n < s.next)
    && (forall j :: 0 <= j < |s.jobs| ==> s.jobs[j] == Idle) && (forall p :: 0 <= p < |s.purgers| ==> s.purgers[p] == Resting)
  }

  ghost predicate Reaches(s: State, run: seq<Action>, end: State)
    decreases |run|
  {
    if run == [] then s == end else Enabled(s, run[0]) && Reaches(Apply(s, run[0]), run[1..], end)
  }

  /** Every live file is on disk, and so is every file a running job has written and may still install. */
  predicate Safe(s: State) {
    s.live <= s.disk && forall j :: 0 <= j < |s.jobs| && s.jobs[j].Running? ==> s.jobs[j].written <= s.disk
  }

  lemma {:induction false} RunKeepsInv(s: State, run: seq<Action>, end: State)
    requires Inv(s) && Reaches(s, run, end)
    ensures Inv(end)
    decreases |run|
  {
    hide Inv, Apply, Enabled;
    if run != [] {
      StepKeepsInv(s, run[0]);
      RunKeepsInv(Apply(s, run[0]), run[1..], end);
    }
  }

  lemma InvIsSafe(s: State)
    requires Inv(s)
    ensures Safe(s)
  {
    forall j | 0 <= j < |s.jobs| && s.jobs[j].Running? ensures s.jobs[j].written <= s.disk { assert JobFits(s, j); }
  }

  lemma InitialFits(s: State)
    requires Initial(s)
    ensures Inv(s)
  {
  }

  // ---- What a run has done to a file ----

  predicate Installs(a: Action, n: FileNumber) { a.Install? && n in a.adds }

  /** Some version names the file: it was live at first or the run has installed it, and it has not been dropped since. */
  ghost predicate StillInstalled(first: State, run: seq<Action>, n: FileNumber) {
    || (n in first.live && Drop(n) !in run)
    || exists i :: 0 <= i < |run| && Installs(run[i], n) && Drop(n) !in run[i + 1..]
  }

  /** The job has written the file and neither installed nor given it up since. */
  ghost predicate StillWritten(run: seq<Action>, j: JobId, n: FileNumber) {
    exists i :: 0 <= i < |run| && run[i] == Write(j, n) && forall k :: i < k < |run| ==> !GivesUp(run[k], j, n)
  }

  predicate GivesUp(a: Action, j: JobId, n: FileNumber) { a == Release(j) || a == Capture(j) || (Installs(a, n) && a.job == j) }

  predicate HasWritten(s: State, j: JobId, n: FileNumber) { j < |s.jobs| && s.jobs[j].Running? && n in s.jobs[j].written }

  lemma {:induction false} LiveByHistory(first: State, run: seq<Action>, end: State, n: FileNumber)
    requires Reaches(first, run, end)
    ensures n in end.live <==> StillInstalled(first, run, n)
    decreases |run|
  {
    if run != [] {
      var s := Apply(first, run[0]);
      assert n in s.live <==> Installs(run[0], n) || (n in first.live && run[0] != Drop(n));
      hide Apply, Enabled;
      LiveByHistory(s, run[1..], end, n);
      assert run == [run[0]] + run[1..];
      if StillInstalled(s, run[1..], n) {
        if n in s.live && Drop(n) !in run[1..] {
          assert Installs(run[0], n) || n in first.live;
        } else {
          var i :| 0 <= i < |run[1..]| && Installs(run[1..][i], n) && Drop(n) !in run[1..][i + 1..];
          assert run[1..][i + 1..] == run[i + 2..] && Installs(run[i + 1], n);
        }
      }
      if StillInstalled(first, run, n) && !(n in first.live && Drop(n) !in run) {
        var i :| 0 <= i < |run| && Installs(run[i], n) && Drop(n) !in run[i + 1..];
        if i > 0 { assert run[1..][i - 1] == run[i] && run[1..][i..] == run[i + 1..]; }
      }
    }
  }

  lemma {:induction false} WrittenFrom(s: State, run: seq<Action>, end: State, j: JobId, n: FileNumber)
    requires Reaches(s, run, end)
    ensures HasWritten(end, j, n) <==>
            StillWritten(run, j, n) || (HasWritten(s, j, n) && forall k :: 0 <= k < |run| ==> !GivesUp(run[k], j, n))
    decreases |run|
  {
    if run != [] {
      var next := Apply(s, run[0]);
      assert HasWritten(next, j, n) <==> run[0] == Write(j, n) || (HasWritten(s, j, n) && !GivesUp(run[0], j, n));
      hide Apply, Enabled, HasWritten;
      var rest := run[1..];
      WrittenFrom(next, rest, end, j, n);
      assert forall k :: 0 <= k < |rest| ==> rest[k] == run[k + 1];
      assert forall k :: 0 < k < |run| ==> run[k] == rest[k - 1];
      assert (forall k :: 0 < k < |run| ==> !GivesUp(run[k], j, n)) <==> (forall k :: 0 <= k < |rest| ==> !GivesUp(rest[k], j, n));
      if StillWritten(rest, j, n) {
        var i :| 0 <= i < |rest| && rest[i] == Write(j, n) && forall k :: i < k < |rest| ==> !GivesUp(rest[k], j, n);
        assert run[i + 1] == Write(j, n);
      }
      if StillWritten(run, j, n) {
        var i :| 0 <= i < |run| && run[i] == Write(j, n) && forall k :: i < k < |run| ==> !GivesUp(run[k], j, n);
        if i > 0 { assert rest[i - 1] == Write(j, n); }
      }
    }
  }

  /** After every run: the live files are those first live or installed and not dropped since; all of them are on disk, and
      so is every file a job has written and neither installed nor given up. */
  lemma EveryRunSafe(s: State, run: seq<Action>, end: State)
    requires Initial(s) && Reaches(s, run, end)
    ensures Safe(end) && Sorted(end.pending)
    ensures forall n :: n in end.live <==> StillInstalled(s, run, n)
    ensures forall n :: StillInstalled(s, run, n) ==> n in end.disk
    ensures forall j: JobId, n :: StillWritten(run, j, n) ==> n in end.disk
  {
    InitialFits(s);
    RunKeepsInv(s, run, end);
    InvIsSafe(end);
    forall n ensures n in end.live <==> StillInstalled(s, run, n) { LiveByHistory(s, run, end, n); }
    forall j: JobId, n | StillWritten(run, j, n) ensures n in end.disk {
      WrittenFrom(s, run, end, j, n);
      assert HasWritten(end, j, n);
    }
    hide Inv, Reaches;
  }

  /** In a reachable state no pending deletion can hit a live file or one a job will still install. */
  lemma NoPurgeHitsNeededFile(s: State, run: seq<Action>, end: State, p: PurgerId, n: FileNumber)
    requires Initial(s) && Reaches(s, run, end) && Enabled(end, Consider(p, n)) && n !in Apply(end, Consider(p, n)).disk && n in end.disk
    ensures n !in end.live && forall j :: 0 <= j < |end.jobs| && end.jobs[j].Running? ==> n !in end.jobs[j].outputs
  {
    InitialFits(s);
    RunKeepsInv(s, run, end);
    assert PurgerFits(end, p);
  }

  // ---- A whole purge ----

  function Elements(names: seq<FileNumber>): set<FileNumber> { set n | n in names }

  /** The state after a scanner has listed the names it finds. */
  function AfterListing(s: State, p: PurgerId, names: seq<FileNumber>): (s': State)
    requires s.scanner == Some(p) && p < |s.purgers| && s.purgers[p].Purging? && Elements(names) <= s.disk
    ensures s' == WithPurger(s, p, s.purgers[p].(candidates := s.purgers[p].candidates + Elements(names)))
    decreases |names|
  {
    if names == [] then
      assert s.purgers[p].candidates + Elements(names) == s.purgers[p].candidates;
      assert s.purgers[p := s.purgers[p]] == s.purgers;
      s
    else
      assert names == [names[0]] + names[1..];
      assert s.purgers[p].candidates + {names[0]} + Elements(names[1..]) == s.purgers[p].candidates + Elements(names);
      AfterListing(Apply(s, List(p, names[0])), p, names[1..])
  }

  /** The state after a purger has considered the names of its candidates. */
  function AfterConsidering(s: State, p: PurgerId, names: seq<FileNumber>): (s': State)
    requires s.scanner == None && p < |s.purgers| && s.purgers[p].Purging? && Elements(names) <= s.purgers[p].candidates
    requires forall i, j :: 0 <= i < j < |names| ==> names[i] != names[j]
    ensures s' == WithPurger(s, p, s.purgers[p].(candidates := s.purgers[p].candidates - Elements(names))).(disk := s'.disk)
    ensures s'.disk == set n | n in s.disk && (n !in names || Keeps(s.purgers[p], n))
    decreases |names|
  {
    if names == [] then
      assert s.purgers[p].candidates - Elements(names) == s.purgers[p].candidates;
      assert s.purgers[p := s.purgers[p]] == s.purgers;
      s
    else
      assert names == [names[0]] + names[1..];
      assert s.purgers[p].candidates - {names[0]} - Elements(names[1..]) == s.purgers[p].candidates - Elements(names);
      AfterConsidering(Apply(s, Consider(p, names[0])), p, names[1..])
  }

  lemma PurgeLeaves(s: State, p: PurgerId, names: seq<FileNumber>, order: seq<FileNumber>)
    requires Inv(s) && Enabled(s, BeginScan(p)) && Elements(names) == s.disk
    requires forall i, j :: 0 <= i < j < |order| ==> order[i] != order[j]
    requires Elements(order) == s.disk + Ripe(s.obsolete, Min(s.pending))
    ensures var listed := AfterListing(Apply(s, BeginScan(p)), p, names);
            var end := AfterConsidering(Apply(listed, EndScan(p)), p, order);
            && end.disk == s.live + (set n | n in s.disk && !Below(n, Min(s.pending)))
            && ((forall j :: 0 <= j < |s.jobs| ==> s.jobs[j] == Idle) ==> end.disk == s.live)
  {
    var listed := AfterListing(Apply(s, BeginScan(p)), p, names);
    var end := AfterConsidering(Apply(listed, EndScan(p)), p, order);
    assert forall n :: n in s.disk ==> n in Elements(order) && n in order;
    SomebodyPending(s);
  }

  /** It has then no candidate left and is done. */
  lemma PurgeEnds(s: State, p: PurgerId, names: seq<FileNumber>, order: seq<FileNumber>)
    requires Enabled(s, BeginScan(p)) && Elements(names) == s.disk
    requires forall i, j :: 0 <= i < j < |order| ==> order[i] != order[j]
    requires Elements(order) == s.disk + Ripe(s.obsolete, Min(s.pending))
    ensures var listed := AfterListing(Apply(s, BeginScan(p)), p, names);
            var end := AfterConsidering(Apply(listed, EndScan(p)), p, order);
            Enabled(end, EndPurge(p)) && Apply(end, EndPurge(p)).purgers == s.purgers
  {
    var scanned := Apply(s, BeginScan(p));
    var listed := AfterListing(scanned, p, names);
    var end := AfterConsidering(Apply(listed, EndScan(p)), p, order);
    assert listed.purgers[p].candidates == Elements(order);
    assert end.purgers[p].candidates == {};
    assert end.purgers[p := Resting] == s.purgers;
  }

  /** After any run, a purge that lists the whole directory and considers every candidate leaves exactly the live
      files and those not below the least captured number; with no job running, exactly the live files.  So every file
      the run has installed and not dropped since is on disk afterwards. */
  lemma FullPurge(first: State, run: seq<Action>, s: State, p: PurgerId, names: seq<FileNumber>, order: seq<FileNumber>)
    requires Initial(first) && Reaches(first, run, s) && Enabled(s, BeginScan(p)) && Elements(names) == s.disk
    requires forall i, j :: 0 <= i < j < |order| ==> order[i] != order[j]
    requires Elements(order) == s.disk + Ripe(s.obsolete, Min(s.pending))
    ensures var listed := AfterListing(Apply(s, BeginScan(p)), p, names);
            var end := AfterConsidering(Apply(listed, EndScan(p)), p, order);
            && end.disk == s.live + (set n | n in s.disk && !Below(n, Min(s.pending)))
            && ((forall j :: 0 <= j < |s.jobs| ==> s.jobs[j] == Idle) ==> end.disk == s.live)
    ensures var listed := AfterListing(Apply(s, BeginScan(p)), p, names);
            var end := AfterConsidering(Apply(listed, EndScan(p)), p, order);
            && Enabled(end, EndPurge(p)) && Apply(end, EndPurge(p)).purgers == s.purgers
            && (forall n :: StillInstalled(first, run, n) ==> n in end.disk)
            && ((forall j :: 0 <= j < |s.jobs| ==> s.jobs[j] == Idle) ==> forall n :: n in end.disk <==> StillInstalled(first, run, n))
  {
    InitialFits(first);
    RunKeepsInv(first, run, s);
    PurgeLeaves(s, p, names, order);
    PurgeEnds(s, p, names, order);
    hide Inv, Reaches, Apply, Enabled;
    forall n ensures n in s.live <==> StillInstalled(first, run, n) { LiveByHistory(first, run, s, n); }
  }

  lemma JobCaptures(s: State, j: JobId)
    requires s.scanner == None && j < |s.jobs| && s.jobs[j] == Idle
    ensures var n := s.next;
            var s1 := WithJob(s, j, Running(n, {}, {})).(pending := s.pending + [Slot(j, n)]);
            var s2 := WithJob(s1, j, Running(n, {n}, {})).(next := n + 1);
            && Enabled(s, Capture(j)) && Apply(s, Capture(j)) == s1
            && Enabled(s1, Allocate(j)) && Apply(s1, Allocate(j)) == s2
            && Enabled(s2, Write(j, n)) && Apply(s2, Write(j, n)) == WithJob(s2, j, Running(n, {n}, {n})).(disk := s.disk + {n})
  {
    var none: set<FileNumber> := {};
    assert none + {s.next} == {s.next};
  }

  lemma JobInstalls(s: State, j: JobId, n: FileNumber)
    requires s.scanner == None && j < |s.jobs| && s.jobs[j] == Running(n, {n}, {n})
    ensures var s1 := WithJob(s, j, Running(n, {}, {})).(live := s.live + {n});
            && Enabled(s, Install(j, {n})) && Apply(s, Install(j, {n})) == s1
            && Enabled(s1, Release(j)) && Apply(s1, Release(j)) == WithJob(s, j, Idle).(live := s.live + {n}, pending := Without(s.pending, j))
  {
    assert {n} - {n} == {};
  }

  lemma JobRuns(s: State, j: JobId)
    requires s.scanner == None && j < |s.jobs| && s.jobs[j] == Idle && Without(s.pending + [Slot(j, s.next)], j) == s.pending
    ensures var n := s.next;
            Reaches(s, [Capture(j), Allocate(j), Write(j, n), Install(j, {n}), Release(j)],
                    s.(next := n + 1, disk := s.disk + {n}, live := s.live + {n}))
  {
    hide Apply, Enabled, Without, Reaches;
    var n := s.next;
    JobCaptures(s, j);
    var s1 := Apply(s, Capture(j));
    var s2 := Apply(s1, Allocate(j));
    var s3 := Apply(s2, Write(j, n));
    JobInstalls(s3, j, n);
    var s4 := Apply(s3, Install(j, {n}));
    var end := s.(next := n + 1, disk := s.disk + {n}, live := s.live + {n});
    assert s3.jobs[j := Idle] == s.jobs && Apply(s4, Release(j)) == end;
    NoMore(end);
    OneMore(s4, Release(j), [], end);
    OneMore(s3, Install(j, {n}), [Release(j)] + [], end);
    OneMore(s2, Write(j, n), [Install(j, {n})] + ([Release(j)] + []), end);
    OneMore(s1, Allocate(j), [Write(j, n)] + ([Install(j, {n})] + ([Release(j)] + [])), end);
    OneMore(s, Capture(j), [Allocate(j)] + ([Write(j, n)] + ([Install(j, {n})] + ([Release(j)] + []))), end);
    assert [Capture(j)] + ([Allocate(j)] + ([Write(j, n)] + ([Install(j, {n})] + ([Release(j)] + [])))) ==
           [Capture(j), Allocate(j), Write(j, n), Install(j, {n}), Release(j)];
  }

  /** A job with nobody in between adds one file, numbered next, to the directory and to the live files. */
  lemma JobAlone(first: State, run: seq<Action>, s: State, j: JobId)
    requires Initial(first) && Reaches(first, run, s) && s.scanner == None && j < |s.jobs| && s.jobs[j] == Idle
    ensures var n := s.next;
            Reaches(s, [Capture(j), Allocate(j), Write(j, n), Install(j, {n}), Release(j)],
                    s.(next := n + 1, disk := s.disk + {n}, live := s.live + {n}))
  {
    InitialFits(first);
    RunKeepsInv(first, run, s);
    hide Reaches, Apply, Enabled;
    assert PendingFits(s);
    hide Inv;
    SlotGone(s.pending, Slot(j, s.next));
    JobRuns(s, j);
  }

  lemma NoMore(s: State)
    ensures Reaches(s, [], s)
  {
  }

  lemma OneMore(s: State, a: Action, rest: seq<Action>, end: State)
    requires Enabled(s, a) && Reaches(Apply(s, a), rest, end)
    ensures Reaches(s, [a] + rest, end)
  {
    assert ([a] + rest)[1..] == rest;
    hide Apply, Enabled;
  }

  /** A slot appended for a job that has none comes off again without a trace. */
  lemma {:induction false} SlotGone(pending: seq<Slot>, x: Slot)
    requires forall i :: 0 <= i < |pending| ==> pending[i].job != x.job
    ensures Without(pending + [x], x.job) == pending
  {
    if pending != [] {
      assert (pending + [x])[1..] == pending[1..] + [x];
      SlotGone(pending[1..], x);
    }
  }

  /** The run has dropped the file, and no purge has begun since. */
  ghost predicate JustDropped(run: seq<Action>, n: FileNumber) {
    exists i :: 0 <= i < |run| && run[i] == Drop(n) && forall k :: i < k < |run| ==> !run[k].BeginScan?
  }

  lemma {:induction false} DroppedIsObsolete(s: State, run: seq<Action>, end: State, n: FileNumber)
    requires Reaches(s, run, end)
    requires JustDropped(run, n) || (n in s.obsolete && forall k :: 0 <= k < |run| ==> !run[k].BeginScan?)
    ensures n in end.obsolete
    decreases |run|
  {
    if run != [] {
      var next, rest := Apply(s, run[0]), run[1..];
      assert (run[0] == Drop(n) || n in s.obsolete) && !run[0].BeginScan? ==> n in next.obsolete;
      hide Apply, Enabled;
      assert forall k :: 0 <= k < |rest| ==> rest[k] == run[k + 1];
      if JustDropped(run, n) {
        var i :| 0 <= i < |run| && run[i] == Drop(n) && forall k :: i < k < |run| ==> !run[k].BeginScan?;
        if i > 0 { assert rest[i - 1] == Drop(n); }
      }
      DroppedIsObsolete(next, rest, end, n);
    }
  }

  /** After any run, a purge that does not list the directory deletes exactly the obsolete files below the least captured
      number, among them every file dropped since the last purge began. */
  lemma ShortPurge(first: State, run: seq<Action>, s: State, p: PurgerId, order: seq<FileNumber>)
    requires Initial(first) && Reaches(first, run, s) && Enabled(s, BeginScan(p))
    requires (forall i, j :: 0 <= i < j < |order| ==> order[i] != order[j]) && Elements(order) == Ripe(s.obsolete, Min(s.pending))
    ensures var scanned := Apply(s, BeginScan(p));
            var end := AfterConsidering(Apply(scanned, EndScan(p)), p, order);
            && end.disk == s.disk - Ripe(s.obsolete, Min(s.pending))
            && forall n :: JustDropped(run, n) && Below(n, Min(s.pending)) ==> n !in end.disk
  {
    InitialFits(first);
    RunKeepsInv(first, run, s);
    var scanned := Apply(s, BeginScan(p));
    var end := AfterConsidering(Apply(scanned, EndScan(p)), p, order);
    assert FilesFit(s) && forall n :: n in order <==> n in Elements(order);
    forall n | JustDropped(run, n) ensures n in s.obsolete { DroppedIsObsolete(first, run, s, n); }
    hide Inv, Reaches;
  }

  lemma SomebodyPending(s: State)
    requires PendingFits(s)
    ensures s.pending != [] ==> exists j :: 0 <= j < |s.jobs| && s.jobs[j].Running?
  {
    if s.pending != [] { assert s.jobs[s.pending[0].job].Running?; }
  }
}
