/** Which write-ahead logs still hold prepared sections of undecided transactions.  Completions are only counted;
    the heap drops a completed section when a query meets it at the top. */
module PrepHeap {
  import opened Records

  type Log = nat

  datatype Event = Prepared(log: Log) | Completed(log: Log) | Query

  function Count(logs: seq<Log>, l: Log): nat {
    if logs == [] then 0 else (if logs[0] == l then 1 else 0) + Count(logs[1..], l)
  }

  predicate Ascending(logs: seq<Log>) { forall i, j :: 0 <= i < j < |logs| ==> logs[i] <= logs[j] }

  function CompletedOf(completed: map<Log, nat>, l: Log): nat { if l in completed then completed[l] else 0 }

  lemma {:induction false} CountConcat(a: seq<Log>, b: seq<Log>, l: Log)
    ensures Count(a + b, l) == Count(a, l) + Count(b, l)
  {
    if a == [] {
      assert a + b == b;
    } else {
      assert (a + b)[1..] == a[1..] + b;
      CountConcat(a[1..], b, l);
    }
  }

  lemma {:induction false} CountMember(logs: seq<Log>, l: Log)
    ensures Count(logs, l) > 0 <==> l in logs
  {
    if logs != [] {
      assert logs == [logs[0]] + logs[1..];
      CountMember(logs[1..], l);
    }
  }

  // ---- What a run of events leaves open ----

  /** Prepared sections of log l that have not been completed. */
  function Balance(events: seq<Event>, l: Log): int {
    if events == [] then 0
    else
      var n := |events| - 1;
      Balance(events[..n], l) + (if events[n] == Prepared(l) then 1 else if events[n] == Completed(l) then -1 else 0)
  }

  /** Log numbers are positive, and a completion names a log that some prepared section was in. */
  ghost predicate Legal(events: seq<Event>) {
    forall i :: 0 <= i < |events| ==> LegalNext(events[..i], events[i])
  }

  ghost predicate LegalNext(past: seq<Event>, e: Event) {
    match e
    case Prepared(l) => l != 0
    case Completed(l) => l != 0 && Prepared(l) in past
    case Query => true
  }

  /** r is the least log with an open section, or 0 if there is none. */
  ghost predicate LeastOpen(events: seq<Event>, r: Log) {
    if r == 0 then forall l :: Balance(events, l) <= 0
    else Balance(events, r) > 0 && forall l :: Balance(events, l) > 0 ==> r <= l
  }

  // ---- The tracker ----

  class PrepTracker {
    const allow2pc: bool
    /** The priority queue, least first. */
    var heap: seq<Log>
    var completed: map<Log, nat>

    constructor (allow2pc: bool)
      ensures Valid() && this.allow2pc == allow2pc && completed == map[] && forall l :: Outstanding(l) == 0
    {
      this.allow2pc, heap, completed := allow2pc, [], map[];
    }

    ghost predicate Valid()
      reads this
    {
      Ascending(heap) && forall l :: l in heap ==> l != 0 && l in completed
    }

    /** Prepared sections of a log, less completions: the multiset the lazy heap stands for. */
    ghost function Outstanding(l: Log): int
      reads this
    {
      Count(heap, l) - CompletedOf(completed, l)
    }

    method MarkLogAsContainingPrepSection(log: Log)
      requires Valid() && log != 0
      modifies this
      ensures Valid() && forall l :: Outstanding(l) == old(Outstanding(l)) + (if l == log then 1 else 0)
      ensures completed.Keys == old(completed).Keys + {log}
    {
      Push(log);
      if log !in completed { completed := completed[log := 0]; }
    }

    /** priority_queue::push */
    method Push(log: Log)
      requires Ascending(heap)
      modifies `heap
      ensures Ascending(heap) && forall l :: Count(heap, l) == Count(old(heap), l) + (if l == log then 1 else 0)
      ensures forall l :: l in heap <==> l == log || l in old(heap)
    {
      var at := 0;
      while at < |heap| && heap[at] < log
        invariant at <= |heap| && forall i :: 0 <= i < at ==> heap[i] < log
      {
        at := at + 1;
      }
      var was := heap;
      heap := was[..at] + [log] + was[at..];
      assert was == was[..at] + was[at..];
      forall l ensures Count(heap, l) == Count(was, l) + (if l == log then 1 else 0) {
        CountConcat(was[..at], was[at..], l);
        CountConcat(was[..at] + [log], was[at..], l);
        CountConcat(was[..at], [log], l);
      }
    }

    method MarkLogAsHavingPrepSectionFlushed(log: Log)
      requires Valid() && log != 0 && log in completed
      modifies `completed
      ensures Valid() && forall l :: Outstanding(l) == old(Outstanding(l)) - (if l == log then 1 else 0)
      ensures completed.Keys == old(completed).Keys
    {
      completed := completed[log := completed[log] + 1];
    }

    /** The query cleans the heap up, which changes nothing it stands for. */
    method FindMinLogContainingOutstandingPrep() returns (minLog: Log)
      requires Valid()
      modifies this
      ensures Valid() && forall l :: Outstanding(l) == old(Outstanding(l))
      ensures completed.Keys == old(completed).Keys
      ensures !allow2pc ==> minLog == 0 && heap == old(heap) && completed == old(completed)
      ensures allow2pc ==> if minLog == 0 then forall l :: Outstanding(l) <= 0
                           else Outstanding(minLog) > 0 && forall l :: Outstanding(l) > 0 ==> minLog <= l
    {
      if !allow2pc { return 0; }
      while heap != []
        invariant Valid() && completed.Keys == old(completed).Keys && forall l :: Outstanding(l) == old(Outstanding(l))
        decreases |heap|
      {
        minLog := heap[0];
        if minLog in completed && completed[minLog] > 0 {
          assert forall l :: Count(heap, l) == (if heap[0] == l then 1 else 0) + Count(heap[1..], l);
          completed := completed[minLog := completed[minLog] - 1];
          heap := heap[1..];
        } else {
          forall l | Outstanding(l) > 0 ensures minLog <= l { CountMember(heap, l); }
          return;
        }
      }
      minLog := 0;
    }
  }

  /** The tracker stands for the events so far. */
  ghost predicate StandsFor(tracker: PrepTracker, events: seq<Event>)
    reads tracker
  {
    && tracker.Valid() && tracker.allow2pc
    && (forall l :: tracker.Outstanding(l) == Balance(events, l))
    && (forall l :: l in tracker.completed <==> Prepared(l) in events)
  }

  lemma BalanceSnoc(past: seq<Event>, e: Event)
    ensures forall l :: Balance(past + [e], l) == Balance(past, l) + (if e == Prepared(l) then 1 else if e == Completed(l) then -1 else 0)
    ensures forall l :: Prepared(l) in past + [e] <==> Prepared(l) in past || e == Prepared(l)
  {
    assert (past + [e])[..|past|] == past;
  }

  method Feed(tracker: PrepTracker, e: Event, ghost past: seq<Event>) returns (answer: Log)
    requires StandsFor(tracker, past) && LegalNext(past, e)
    modifies tracker
    ensures StandsFor(tracker, past + [e]) && (e == Query ==> LeastOpen(past, answer))
  {
    hide Balance;
    BalanceSnoc(past, e);
    answer := 0;
    match e {
      case Prepared(l) => tracker.MarkLogAsContainingPrepSection(l);
      case Completed(l) => tracker.MarkLogAsHavingPrepSectionFlushed(l);
      case Query => answer := tracker.FindMinLogContainingOutstandingPrep();
    }
  }

  /** Any legal run: every query answers for the events before it. */
  method RunAll(events: seq<Event>) returns (answers: seq<Log>)
    requires Legal(events)
    ensures |answers| == |events|
    ensures forall i :: 0 <= i < |events| && events[i] == Query ==> LeastOpen(events[..i], answers[i])
  {
    var tracker := new PrepTracker(true);
    answers := [];
    for i := 0 to |events|
      invariant fresh(tracker) && StandsFor(tracker, events[..i]) && |answers| == i
      invariant forall k :: 0 <= k < i && events[k] == Query ==> LeastOpen(events[..k], answers[k])
    {
      hide Balance, StandsFor, LeastOpen;
      assert LegalNext(events[..i], events[i]);
      assert events[..i + 1] == events[..i] + [events[i]];
      var answer := Feed(tracker, events[i], events[..i]);
      answers := answers + [answer];
    }
  }
}
