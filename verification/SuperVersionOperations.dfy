/** What the SuperVersion operations give their callers: alone, and with other threads in between. */
module SuperVersionOperations {
  import opened Records
  import opened SuperVersion

  // ---- When a return caches its version ----

  /** An installer has scraped the slot of thread t since t last swapped it. */
  predicate ScrapedSince(run: seq<(Tid, Action)>, t: Tid) {
    run != [] &&
    var last := run[|run| - 1];
    if last == (t, Swap) then false else last.1 == Scrape(t) || ScrapedSince(run[..|run| - 1], t)
  }

  /** Between swap and return the slot is in use until it is scraped. */
  predicate SlotKnown(s: State, t: Tid, scraped: bool) {
    t < |s.threads| && InGet(s.threads[t].pc) ==> s.threads[t].slot == if scraped then Obsolete else InUse
  }

  lemma SlotStep(s: State, u: Tid, a: Action, t: Tid, scraped: bool)
    requires Enabled(s, u, a) && SlotKnown(s, t, scraped)
    ensures SlotKnown(Apply(s, u, a), t, if u == t && a == Swap then false else a == Scrape(t) || scraped)
  {
  }

  lemma {:induction false} SlotByHistory(first: State, run: seq<(Tid, Action)>, s: State, t: Tid)
    requires Initial(first) && Reaches(first, run, s)
    ensures SlotKnown(s, t, ScrapedSince(run, t))
    decreases |run|
  {
    if run != [] {
      var mid := LastStep(first, run, s);
      SlotByHistory(first, run[..|run| - 1], mid, t);
      hide SlotKnown, Apply, Enabled;
      SlotStep(mid, run[|run| - 1].0, run[|run| - 1].1, t, ScrapedSince(run[..|run| - 1], t));
    }
  }

  /** A return succeeds exactly if no scrape has taken the slot since the swap; the slot then caches the version returned, and
      otherwise stays obsolete and the thread has a reference to drop. */
  lemma ReturnCaches(first: State, run: seq<(Tid, Action)>, s: State, t: Tid)
    requires Initial(first) && Reaches(first, run, s) && t < |s.threads| && s.threads[t].pc.Using?
    ensures Enabled(s, t, Return)
    ensures var pc, s' := s.threads[t].pc, Apply(s, t, Return);
            s' == s.(threads := s.threads[t :=
                    if !ScrapedSince(run, t) then Thread(Cached(pc.sv), if pc.extra then Handing(pc.sv) else Idle)
                    else Thread(Obsolete, if pc.extra then DropIgnored(pc.sv) else Dropping(pc.sv))])
  {
    SlotByHistory(first, run, s, t);
    InitialFits(first);
    RunKeepsInv(first, run, s);
    hide Reaches, ScrapedSince, AllAccounted, ThreadsFit;
  }

  // ---- Operations with nobody in between ----

  ghost predicate Alone(s: State, t: Tid, actions: seq<Action>, end: State)
    decreases |actions|
  {
    if actions == [] then s == end
    else Enabled(s, t, actions[0]) && Alone(Apply(s, t, actions[0]), t, actions[1..], end)
  }

  lemma NoSteps(s: State, t: Tid)
    ensures Alone(s, t, [], s)
  {
  }

  lemma First(s: State, t: Tid, a: Action, next: State, rest: seq<Action>, end: State)
    requires Enabled(s, t, a) && Apply(s, t, a) == next && Alone(next, t, rest, end)
    ensures Alone(s, t, [a] + rest, end)
  {
    assert ([a] + rest)[1..] == rest;
    hide Apply, Enabled;
  }

  function InThread(s: State, t: Tid, slot: Slot, pc: Pc): State
    requires t < |s.threads|
  {
    s.(threads := s.threads[t := Thread(slot, pc)])
  }

  lemma SwapSteps(s: State, t: Tid, slot: Slot)
    requires t < |s.threads| && |s.svs| > 0 && s.threads[t] == Thread(slot, Idle) && (slot == Obsolete || slot == Cached(Current(s)))
    ensures var mid := InThread(s, t, InUse, Swapped(if slot.Cached? then Some(Current(s)) else None));
            var end := InThread(s, t, InUse, if slot.Cached? then Using(Current(s), false) else WantLock(None, true));
            && Enabled(s, t, Swap) && Apply(s, t, Swap) == mid
            && Enabled(mid, t, Check) && Apply(mid, t, Check) == end
  {
  }

  lemma CachedGet(s: State, t: Tid)
    requires t < |s.threads| && |s.svs| > 0 && s.threads[t] == Thread(Cached(Current(s)), Idle)
    ensures Alone(s, t, [Swap, Check], InThread(s, t, InUse, Using(Current(s), false)))
  {
    hide Alone, Apply, Enabled, InThread;
    SwapSteps(s, t, Cached(Current(s)));
    var mid, end := InThread(s, t, InUse, Swapped(Some(Current(s)))), InThread(s, t, InUse, Using(Current(s), false));
    NoSteps(end, t);
    First(mid, t, Check, end, [], end);
    First(s, t, Swap, mid, [Check] + [], end);
    assert [Swap] + ([Check] + []) == [Swap, Check];
  }

  lemma LockedSteps(s: State, t: Tid)
    requires t < |s.threads| && |s.svs| > 0 && s.mutex == None
    ensures var c := Current(s);
            var wants := InThread(s, t, InUse, WantLock(None, true));
            var locked := InThread(s, t, InUse, HasLock(None, true)).(mutex := Some(t));
            var referenced := InThread(Plus(s, c), t, InUse, HasRef(c)).(mutex := Some(t));
            && Enabled(wants, t, Lock) && Apply(wants, t, Lock) == locked
            && Enabled(locked, t, RefCurrent) && Apply(locked, t, RefCurrent) == referenced
            && Enabled(referenced, t, Unlock) && Apply(referenced, t, Unlock) == InThread(Plus(s, c), t, InUse, Using(c, false))
  {
  }

  lemma FreshGet(s: State, t: Tid)
    requires t < |s.threads| && |s.svs| > 0 && s.mutex == None && s.threads[t] == Thread(Obsolete, Idle)
    ensures Alone(s, t, [Swap, Check, Lock, RefCurrent, Unlock], InThread(Plus(s, Current(s)), t, InUse, Using(Current(s), false)))
  {
    hide Alone, Apply, Enabled, InThread, Plus;
    var c := Current(s);
    SwapSteps(s, t, Obsolete);
    LockedSteps(s, t);
    SameThreads(s, c);
    var swapped, wants := InThread(s, t, InUse, Swapped(None)), InThread(s, t, InUse, WantLock(None, true));
    var locked := InThread(s, t, InUse, HasLock(None, true)).(mutex := Some(t));
    var referenced := InThread(Plus(s, c), t, InUse, HasRef(c)).(mutex := Some(t));
    var end := InThread(Plus(s, c), t, InUse, Using(c, false));
    NoSteps(end, t);
    First(referenced, t, Unlock, end, [], end);
    First(locked, t, RefCurrent, referenced, [Unlock] + [], end);
    First(wants, t, Lock, locked, [RefCurrent] + ([Unlock] + []), end);
    First(swapped, t, Check, wants, [Lock] + ([RefCurrent] + ([Unlock] + [])), end);
    First(s, t, Swap, swapped, [Check] + ([Lock] + ([RefCurrent] + ([Unlock] + []))), end);
    assert [Swap] + ([Check] + ([Lock] + ([RefCurrent] + ([Unlock] + [])))) == [Swap, Check, Lock, RefCurrent, Unlock];
  }

  lemma SameThreads(s: State, sv: Sv)
    requires sv < |s.svs|
    ensures Plus(s, sv).threads == s.threads
  {
  }

  /** A get with nobody in between uses the current version: the cached one without the mutex and without touching a count, or
      one more reference taken under the mutex. */
  lemma GetAlone(first: State, run: seq<(Tid, Action)>, s: State, t: Tid)
    requires Initial(first) && Reaches(first, run, s) && t < |s.threads| && s.threads[t].pc == Idle && s.mutex == None
    ensures |s.svs| > 0
    ensures if s.threads[t].slot.Cached?
            then Alone(s, t, [Swap, Check], InThread(s, t, InUse, Using(Current(s), false)))
            else Alone(s, t, [Swap, Check, Lock, RefCurrent, Unlock], InThread(Plus(s, Current(s)), t, InUse, Using(Current(s), false)))
  {
    InitialFits(first);
    RunKeepsInv(first, run, s);
    ThreadFacts(s, t);
    hide Reaches, Inv, Alone, Apply, Enabled;
    assert Pending(s) == {};
    if s.threads[t].slot.Cached? { CachedGet(s, t); } else { FreshGet(s, t); }
  }

  function AfterDrop(s: State, sv: Sv): Pc
    requires sv < |s.svs|
  {
    if s.svs[sv].refs == 1 then WantLock(Some(sv), false) else Idle
  }

  lemma ExitSteps(s: State, t: Tid, sv: Sv)
    requires t < |s.threads| && s.threads[t] == Thread(Cached(sv), Idle) && Held(s, sv)
    ensures var mid := InThread(s, t, Obsolete, Dropping(sv));
            && Enabled(s, t, Exit) && Apply(s, t, Exit) == mid
            && Enabled(mid, t, Unref) && Apply(mid, t, Unref) == InThread(Minus(s, sv), t, Obsolete, AfterDrop(s, sv))
  {
  }

  lemma CachedIsHeld(s: State, t: Tid)
    requires Inv(s) && t < |s.threads| && s.threads[t].slot.Cached?
    ensures Held(s, s.threads[t].slot.sv)
  {
    ThreadFacts(s, t);
    var sv := s.threads[t].slot.sv;
    SharesUpdate(s.threads, t, s.threads[t], sv);
    assert Accounted(s, sv);
    hide Shares, Cleaners, ThreadsFit;
  }

  /** A thread that goes away gives up the version its slot caches. */
  lemma ExitAlone(first: State, run: seq<(Tid, Action)>, s: State, t: Tid)
    requires Initial(first) && Reaches(first, run, s) && t < |s.threads| && s.threads[t].pc == Idle && s.threads[t].slot.Cached?
    ensures var sv := s.threads[t].slot.sv;
            Held(s, sv) && Alone(s, t, [Exit, Unref], InThread(Minus(s, sv), t, Obsolete, AfterDrop(s, sv)))
  {
    hide Alone, Apply, Enabled, InThread, Inv, Reaches, AfterDrop;
    InitialFits(first);
    RunKeepsInv(first, run, s);
    CachedIsHeld(s, t);
    var sv := s.threads[t].slot.sv;
    ExitSteps(s, t, sv);
    var end := InThread(Minus(s, sv), t, Obsolete, AfterDrop(s, sv));
    NoSteps(end, t);
    First(InThread(s, t, Obsolete, Dropping(sv)), t, Unref, end, [], end);
    First(s, t, Exit, InThread(s, t, Obsolete, Dropping(sv)), [Unref] + [], end);
    assert [Exit] + ([Unref] + []) == [Exit, Unref];
  }

  /** One reference to sv more, or fewer, that a client of GetReferencedSuperVersion holds. */
  function Ticketed(s: State, sv: Sv): State
    requires sv < |s.svs|
  {
    Set(s, sv, s.svs[sv].(refs := s.svs[sv].refs + 1, tickets := s.svs[sv].tickets + 1))
  }

  function Unticketed(s: State, sv: Sv): State
    requires sv < |s.svs| && s.svs[sv].tickets > 0 && s.svs[sv].refs > 0
  {
    Set(s, sv, s.svs[sv].(refs := s.svs[sv].refs - 1, tickets := s.svs[sv].tickets - 1))
  }

  lemma HandOutSteps(s: State, t: Tid, sv: Sv)
    requires t < |s.threads| && sv < |s.svs| && s.threads[t] == Thread(InUse, Using(sv, false))
    ensures var s1, s2 := InThread(Plus(s, sv), t, InUse, Using(sv, true)), InThread(Plus(s, sv), t, Cached(sv), Handing(sv));
            && Enabled(s, t, AddRef) && Apply(s, t, AddRef) == s1
            && Enabled(s1, t, Return) && Apply(s1, t, Return) == s2
            && Enabled(s2, t, HandOut) && Apply(s2, t, HandOut) == InThread(Ticketed(s, sv), t, Cached(sv), Idle)
  {
  }

  /** GetReferencedSuperVersion hands out one reference more. */
  lemma HandOutAlone(s: State, t: Tid, sv: Sv)
    requires t < |s.threads| && sv < |s.svs| && s.threads[t] == Thread(InUse, Using(sv, false))
    ensures Alone(s, t, [AddRef, Return, HandOut], InThread(Ticketed(s, sv), t, Cached(sv), Idle))
  {
    hide Alone, Apply, Enabled, InThread, Plus, Ticketed;
    HandOutSteps(s, t, sv);
    SameThreads(s, sv);
    assert |Ticketed(s, sv).threads| == |s.threads| by { TicketThreads(s, sv); }
    var s1, s2 := InThread(Plus(s, sv), t, InUse, Using(sv, true)), InThread(Plus(s, sv), t, Cached(sv), Handing(sv));
    var end := InThread(Ticketed(s, sv), t, Cached(sv), Idle);
    NoSteps(end, t);
    First(s2, t, HandOut, end, [], end);
    First(s1, t, Return, s2, [HandOut] + [], end);
    First(s, t, AddRef, s1, [Return] + ([HandOut] + []), end);
    assert [AddRef] + ([Return] + ([HandOut] + [])) == [AddRef, Return, HandOut];
  }

  lemma TicketThreads(s: State, sv: Sv)
    requires sv < |s.svs|
    ensures Ticketed(s, sv).threads == s.threads
    ensures s.svs[sv].tickets > 0 && s.svs[sv].refs > 0 ==> Unticketed(s, sv).threads == s.threads
  {
  }

  lemma ReleaseSteps(s: State, t: Tid, sv: Sv, slot: Slot)
    requires t < |s.threads| && s.threads[t] == Thread(slot, Idle) && Held(s, sv) && s.svs[sv].tickets > 0
    ensures var mid := InThread(Set(s, sv, s.svs[sv].(tickets := s.svs[sv].tickets - 1)), t, slot, Dropping(sv));
            && Enabled(s, t, Release(sv)) && Apply(s, t, Release(sv)) == mid
            && Enabled(mid, t, Unref) && Apply(mid, t, Unref) == InThread(Unticketed(s, sv), t, slot, AfterDrop(s, sv))
  {
  }

  /** Releasing such a reference gives it back. */
  lemma ReleaseAlone(first: State, run: seq<(Tid, Action)>, s: State, t: Tid, sv: Sv)
    requires Initial(first) && Reaches(first, run, s) && t < |s.threads| && s.threads[t].pc == Idle && sv < |s.svs| && s.svs[sv].tickets > 0
    ensures s.svs[sv].refs > 0
    ensures Alone(s, t, [Release(sv), Unref], InThread(Unticketed(s, sv), t, s.threads[t].slot, AfterDrop(s, sv)))
  {
    hide Alone, Apply, Enabled, InThread, Reaches, Shares, Cleaners;
    InitialFits(first);
    RunKeepsInv(first, run, s);
    assert Accounted(s, sv);
    hide Inv, Accounted, AfterDrop, Unticketed;
    TicketThreads(s, sv);
    var slot := s.threads[t].slot;
    ReleaseSteps(s, t, sv, slot);
    var mid := InThread(Set(s, sv, s.svs[sv].(tickets := s.svs[sv].tickets - 1)), t, slot, Dropping(sv));
    var end := InThread(Unticketed(s, sv), t, slot, AfterDrop(s, sv));
    NoSteps(end, t);
    First(mid, t, Unref, end, [], end);
    First(s, t, Release(sv), mid, [Unref] + [], end);
    assert [Release(sv)] + ([Unref] + []) == [Release(sv), Unref];
  }
}
