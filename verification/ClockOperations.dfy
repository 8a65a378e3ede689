/** What the operations of the CLOCK cache shard give their callers: alone, and with other sessions in between. */
module ClockOperations {
  import opened Records
  import opened ClockCache

  /** Session t takes these steps one after the other, nobody else in between. */
  ghost predicate Alone(s: State, t: Tid, actions: seq<Action>, end: State)
    decreases |actions|
  {
    if actions == [] then s == end
    else Enabled(s, t, actions[0]) && Alone(Apply(s, t, actions[0]), t, actions[1..], end)
  }

  lemma NoSteps(s: State, t: Tid)
    ensures Alone(s, t, [], s)
  {
  }

  /** One step more at the front. */
  lemma First(s: State, t: Tid, a: Action, rest: seq<Action>, end: State)
    requires Enabled(s, t, a) && Alone(Apply(s, t, a), t, rest, end)
    ensures Alone(s, t, [a] + rest, end)
  {
    assert ([a] + rest)[1..] == rest;
    hide Apply, Enabled;
  }

  /** What every run leaves true of a free mutex, a key and a handle. */
  lemma Facts(first: State, run: seq<(Tid, Action)>, s: State)
    requires Initial(first) && Reaches(first, run, s)
    ensures Inv(s) && Safe(s)
  {
    RunKeepsInv(first, run, s);
    InvIsSafe(s);
  }

  // ---- Lookup ----

  lemma FindStep(s: State, t: Tid, k: CacheKey)
    requires t < |s.pcs| && s.pcs[t] == Idle
    ensures Enabled(s, t, Find(k))
    ensures Apply(s, t, Find(k)) == if k in s.table then s.(pcs := s.pcs[t := Pc.Found(k, s.table[k])]) else s
  {
  }

  lemma LoadStep(s: State, t: Tid, k: CacheKey, h: Hid)
    requires t < |s.pcs| && s.pcs[t] == Pc.Found(k, h) && h < |s.handles|
    ensures Enabled(s, t, LoadFlags) && Apply(s, t, LoadFlags) == s.(pcs := s.pcs[t := Loaded(k, h, s.handles[h].flags)])
  {
  }

  lemma CasStep(s: State, t: Tid, k: CacheKey, h: Hid)
    requires t < |s.pcs| && h < |s.handles| && s.handles[h].flags.inCache && s.pcs[t] == Loaded(k, h, s.handles[h].flags)
    ensures Enabled(s, t, TryCas)
    ensures Apply(s, t, TryCas) == s.(pcs := s.pcs[t := Checking(k, h)],
              handles := s.handles[h := s.handles[h].(flags := s.handles[h].flags.(refs := s.handles[h].flags.refs + 1))])
  {
  }

  lemma CheckStep(s: State, t: Tid, k: CacheKey, h: Hid)
    requires t < |s.pcs| && h < |s.handles| && s.pcs[t] == Checking(k, h)
    ensures Enabled(s, t, CheckKey)
    ensures Apply(s, t, CheckKey) == s.(pcs := s.pcs[t := if s.handles[h].key == k then Held(k, h) else Unrefing(h)])
  {
  }

  /** The state with one more reference to h, held by session t for key k. */
  function WithHold(s: State, t: Tid, k: CacheKey, h: Hid): State
    requires t < |s.pcs| && h < |s.handles|
  {
    s.(pcs := s.pcs[t := Held(k, h)],
       handles := s.handles[h := s.handles[h].(flags := s.handles[h].flags.(refs := s.handles[h].flags.refs + 1))])
  }

  lemma HitTail(s: State, t: Tid, k: CacheKey, h: Hid)
    requires t < |s.pcs| && h < |s.handles| && s.handles[h].flags.inCache && s.handles[h].key == k
    ensures Alone(s.(pcs := s.pcs[t := Loaded(k, h, s.handles[h].flags)]), t, [TryCas] + ([CheckKey] + []), WithHold(s, t, k, h))
  {
    hide Alone, Apply, Enabled;
    var end := WithHold(s, t, k, h);
    var loaded, checking := s.(pcs := s.pcs[t := Loaded(k, h, s.handles[h].flags)]), end.(pcs := s.pcs[t := Checking(k, h)]);
    CasStep(loaded, t, k, h);
    assert loaded.pcs[t := Checking(k, h)] == checking.pcs;
    CheckStep(checking, t, k, h);
    assert checking.pcs[t := Held(k, h)] == end.pcs;
    NoSteps(end, t);
    First(checking, t, CheckKey, [], end);
    First(loaded, t, TryCas, [CheckKey] + [], end);
  }

  lemma Hit(s: State, t: Tid, k: CacheKey)
    requires t < |s.pcs| && s.pcs[t] == Idle && k in s.table && s.table[k] < |s.handles|
    requires s.handles[s.table[k]].flags.inCache && s.handles[s.table[k]].key == k
    ensures Alone(s, t, [Find(k), LoadFlags, TryCas, CheckKey], WithHold(s, t, k, s.table[k]))
  {
    hide Alone, Apply, Enabled, WithHold;
    var h := s.table[k];
    var found, loaded := s.(pcs := s.pcs[t := Pc.Found(k, h)]), s.(pcs := s.pcs[t := Loaded(k, h, s.handles[h].flags)]);
    FindStep(s, t, k);
    LoadStep(found, t, k, h);
    assert found.pcs[t := Loaded(k, h, s.handles[h].flags)] == loaded.pcs;
    HitTail(s, t, k, h);
    First(found, t, LoadFlags, [TryCas] + ([CheckKey] + []), WithHold(s, t, k, h));
    First(s, t, Find(k), [LoadFlags] + ([TryCas] + ([CheckKey] + [])), WithHold(s, t, k, h));
    assert [Find(k)] + ([LoadFlags] + ([TryCas] + ([CheckKey] + []))) == [Find(k), LoadFlags, TryCas, CheckKey];
  }

  lemma Miss(s: State, t: Tid, k: CacheKey)
    requires t < |s.pcs| && s.pcs[t] == Idle && k !in s.table
    ensures Alone(s, t, [Find(k)], s)
  {
    hide Alone, Apply, Enabled;
    FindStep(s, t, k);
    NoSteps(s, t);
    First(s, t, Find(k), [], s);
    assert [Find(k)] + [] == [Find(k)];
  }

  /** A lookup with nobody in between finds what the table lists, and takes one reference; otherwise nothing changes. */
  lemma LookupAlone(first: State, run: seq<(Tid, Action)>, s: State, t: Tid, k: CacheKey)
    requires Initial(first) && Reaches(first, run, s) && s.op == None && t < |s.pcs| && s.pcs[t] == Idle
    ensures k in s.table ==> s.table[k] < |s.handles| && Alone(s, t, [Find(k), LoadFlags, TryCas, CheckKey], WithHold(s, t, k, s.table[k]))
    ensures k !in s.table ==> Alone(s, t, [Find(k)], s)
  {
    hide Alone, Apply, Enabled, WithHold, Reaches, Inv, SafeHandle, SafeHold;
    Facts(first, run, s);
    if k in s.table {
      assert Lists(s, k, s.table[k]);
      Hit(s, t, k);
    } else {
      Miss(s, t, k);
    }
  }

  /** No step of session t. */
  predicate Others(run: seq<(Tid, Action)>, t: Tid) { forall i :: 0 <= i < |run| ==> run[i].0 != t }

  /** While others run, a session that is checking a handle stays there, and the handle keeps its key. */
  lemma {:induction false} CheckingWaits(s: State, t: Tid, run: seq<(Tid, Action)>, end: State)
    requires Inv(s) && Reaches(s, run, end) && Others(run, t) && t < |s.pcs| && s.pcs[t].Checking?
    ensures t < |end.pcs| && end.pcs[t] == s.pcs[t] && s.pcs[t].h < |s.handles| <= |end.handles|
    ensures end.handles[s.pcs[t].h].key == s.handles[s.pcs[t].h].key
    decreases |run|
  {
    if run == [] {
      assert PcFits(s.pcs[t], s.handles, OwnedBy(s, t));
    } else {
      var u, a := run[0].0, run[0].1;
      var next := Apply(s, u, a);
      ReferencedKeepsKey(s, u, a, t);
      NotHandedTo(s, u, a, t);
      OthersUntouched(s, u, a, t);
      StepKeepsInv(s, u, a);
      hide Inv, Apply, Enabled;
      assert forall i :: 0 <= i < |run[1..]| ==> run[1..][i] == run[i + 1];
      CheckingWaits(next, t, run[1..], end);
    }
  }

  lemma NotHandedTo(s: State, u: Tid, a: Action, t: Tid)
    requires Enabled(s, u, a) && t < |s.pcs| && s.pcs[t] != Idle
    ensures !(Shares(s, u, a) && t == a.to)
  {
  }

  /** A lookup whose compare-and-swap succeeds gets the handle in the end, whatever others do before it compares the key,
      exactly if the handle had the key it looks for at that moment. */
  lemma LookupUnderInterference(first: State, before: seq<(Tid, Action)>, s: State, t: Tid, run: seq<(Tid, Action)>, later: State)
    requires Initial(first) && Reaches(first, before, s) && Enabled(s, t, TryCas) && Refs(s, t, TryCas)
    requires Reaches(Apply(s, t, TryCas), run, later) && Others(run, t)
    ensures t < |s.pcs| && s.pcs[t].Loaded? && s.pcs[t].h < |s.handles| && Enabled(later, t, CheckKey)
    ensures var pc := s.pcs[t];
            Apply(later, t, CheckKey).pcs == later.pcs[t := if s.handles[pc.h].key == pc.key then Held(pc.key, pc.h) else Unrefing(pc.h)]
  {
    Facts(first, before, s);
    RefsEffect(s, t, TryCas);
    StepKeepsInv(s, t, TryCas);
    hide Inv, Apply, Enabled, Safe;
    var pc := s.pcs[t];
    var checking := Apply(s, t, TryCas);
    CheckingWaits(checking, t, run, later);
    CheckStep(later, t, pc.key, pc.h);
  }

  // ---- Release ----

  /** Session t gives back its reference to h and marks the entry as used; the last one to go from an entry out of cache has
      to recycle it. */
  function WithoutHold(s: State, t: Tid, h: Hid): State
    requires t < |s.pcs| && h < |s.handles| && s.handles[h].flags.refs > 0
  {
    var f := s.handles[h].flags;
    s.(pcs := s.pcs[t := if f.refs == 1 && !f.inCache then MustRecycle(h) else Idle],
       handles := s.handles[h := s.handles[h].(flags := Flags(f.inCache, true, f.refs - 1))])
  }

  lemma UseStep(s: State, t: Tid)
    requires t < |s.pcs| && s.pcs[t].Held? && s.pcs[t].h < |s.handles|
    ensures var h := s.pcs[t].h;
            && Enabled(s, t, SetUsage)
            && Apply(s, t, SetUsage) == s.(pcs := s.pcs[t := Unrefing(h)], handles := s.handles[h := s.handles[h].(flags := s.handles[h].flags.(usage := true))])
  {
  }

  lemma SubStep(s: State, t: Tid, h: Hid)
    requires t < |s.pcs| && s.pcs[t] == Unrefing(h) && h < |s.handles| && s.handles[h].flags.refs > 0
    ensures var f := s.handles[h].flags;
            && Enabled(s, t, FetchSub)
            && Apply(s, t, FetchSub) == s.(pcs := s.pcs[t := if f.refs == 1 && !f.inCache then MustRecycle(h) else Idle],
                                           handles := s.handles[h := s.handles[h].(flags := f.(refs := f.refs - 1))])
  {
  }

  lemma ReleaseAlone(first: State, run: seq<(Tid, Action)>, s: State, t: Tid)
    requires Initial(first) && Reaches(first, run, s) && t < |s.pcs| && s.pcs[t].Held?
    ensures var h := s.pcs[t].h;
            h < |s.handles| && s.handles[h].flags.refs > 0 && Alone(s, t, [SetUsage, FetchSub], WithoutHold(s, t, h))
  {
    hide Alone, Apply, Enabled, Reaches, Inv, SafeHandle;
    Facts(first, run, s);
    assert SafeHold(s, t);
    hide Safe;
    var h := s.pcs[t].h;
    UseStep(s, t);
    var used := Apply(s, t, SetUsage);
    SubStep(used, t, h);
    var end := WithoutHold(s, t, h);
    assert Apply(used, t, FetchSub) == end;
    NoSteps(end, t);
    First(used, t, FetchSub, [], end);
    First(s, t, SetUsage, [FetchSub] + [], end);
    assert [SetUsage] + ([FetchSub] + []) == [SetUsage, FetchSub];
  }

  // ---- Steps of the mutex holder ----

  function Holding(s: State, t: Tid, job: Job, stage: Stage): State
    requires t < |s.pcs|
  {
    s.(pcs := s.pcs[t := Locked], op := Some(Op(t, job, stage, NoHandle, false)))
  }

  /** Handle h goes into the recycle bin. */
  function Binned(s: State, h: Hid): State
    requires h < |s.handles| && s.handles[h].charge <= s.usage
  {
    var x := s.handles[h];
    s.(handles := s.handles[h := x.(key := 0, inBin := x.inBin + 1, recycles := x.recycles + 1)], usage := s.usage - x.charge)
  }

  lemma BinStep(s: State, t: Tid, job: Job, h: Hid)
    requires t < |s.pcs| && h < |s.handles| && s.handles[h].charge <= s.usage
    ensures var busy := Holding(s, t, job, Recycling(h));
            Enabled(busy, t, Recycle) && Apply(busy, t, Recycle) == Holding(Binned(s, h), t, job, Ready)
  {
  }

  lemma UnlockStep(s: State, t: Tid, job: Job)
    requires t < |s.pcs| && (job.RecycleJob? || job.ResizeJob? || (job.EraseJob? && job.key !in s.table))
    ensures var busy := Holding(s, t, job, Ready);
            Enabled(busy, t, Unlock) && Apply(busy, t, Unlock) == s.(pcs := s.pcs[t := Idle], op := None)
  {
    var busy := Holding(s, t, job, Ready);
    assert busy.pcs[t := Idle] == s.pcs[t := Idle];
  }

  lemma RecycleAlone(first: State, run: seq<(Tid, Action)>, s: State, t: Tid)
    requires Initial(first) && Reaches(first, run, s) && t < |s.pcs| && s.pcs[t].MustRecycle? && s.op == None
    ensures var h := s.pcs[t].h;
            && h < |s.handles| && s.handles[h].charge <= s.usage
            && Alone(s, t, [LockRecycle, Recycle, Unlock], Binned(s, h).(pcs := s.pcs[t := Idle]))
  {
    hide Alone, Reaches;
    Facts(first, run, s);
    assert PcFits(s.pcs[t], s.handles, OwnedBy(s, t));
    var h := s.pcs[t].h;
    assert HandleFits(s, h);
    TokensUpdate(s.pcs, t, s.pcs[t], h);
    ChargedUpdate(s.handles, None, h, s.handles[h], None);
    assert s.handles[h].charge <= s.usage;
    assert Enabled(s, t, LockRecycle) && Apply(s, t, LockRecycle) == Holding(s, t, RecycleJob, Recycling(h));
    hide Inv, Safe, Apply, Enabled, Holding, HandleFits, Binned;
    BinStep(s, t, RecycleJob, h);
    var end := Binned(s, h).(pcs := s.pcs[t := Idle]);
    assert Binned(s, h).pcs == s.pcs && Binned(s, h).op == None by { BinnedElse(s, h); }
    UnlockStep(Binned(s, h), t, RecycleJob);
    NoSteps(end, t);
    First(Holding(Binned(s, h), t, RecycleJob, Ready), t, Unlock, [], end);
    First(Holding(s, t, RecycleJob, Recycling(h)), t, Recycle, [Unlock] + [], end);
    First(s, t, LockRecycle, [Recycle] + ([Unlock] + []), end);
    assert [LockRecycle] + ([Recycle] + ([Unlock] + [])) == [LockRecycle, Recycle, Unlock];
  }

  lemma BinnedElse(s: State, h: Hid)
    requires h < |s.handles| && s.handles[h].charge <= s.usage
    ensures Binned(s, h).pcs == s.pcs && Binned(s, h).op == s.op && Binned(s, h).table == s.table && |Binned(s, h).handles| == |s.handles|
  {
  }

  // ---- Erase ----

  /** The entry of k leaves the table and the cache. */
  function Uncached(s: State, k: CacheKey): State
    requires k in s.table && s.table[k] < |s.handles|
  {
    var h := s.table[k];
    s.(table := s.table - {k}, handles := s.handles[h := s.handles[h].(flags := s.handles[h].flags.(inCache := false))])
  }

  lemma ExistingStep(s: State, t: Tid, k: CacheKey)
    requires t < |s.pcs| && k in s.table
    ensures var busy := Holding(s, t, EraseJob(k), Ready);
            && Enabled(busy, t, EraseExisting)
            && Apply(busy, t, EraseExisting) == Holding(s.(table := s.table - {k}), t, EraseJob(k), Unsetting(s.table[k]))
  {
  }

  lemma UnsetStep(s: State, t: Tid, k: CacheKey)
    requires t < |s.pcs| && k in s.table && s.table[k] < |s.handles| && s.handles[s.table[k]].flags.inCache
    ensures var h := s.table[k];
            var busy := Holding(s.(table := s.table - {k}), t, EraseJob(k), Unsetting(h));
            && Enabled(busy, t, UnsetInCache)
            && Apply(busy, t, UnsetInCache) ==
               Holding(Uncached(s, k), t, EraseJob(k), if s.handles[h].flags.refs == 0 then Recycling(h) else Ready)
  {
  }

  lemma LockEraseStep(s: State, t: Tid, k: CacheKey)
    requires t < |s.pcs| && s.pcs[t] == Idle && s.op == None
    ensures Enabled(s, t, LockErase(k)) && Apply(s, t, LockErase(k)) == Holding(s, t, EraseJob(k), Ready)
  {
  }

  lemma EraseHeld(s: State, t: Tid, k: CacheKey)
    requires t < |s.pcs| && s.pcs[t] == Idle && s.op == None && k in s.table && s.table[k] < |s.handles|
    requires s.handles[s.table[k]].flags.inCache && s.handles[s.table[k]].flags.refs > 0
    ensures Alone(s, t, [LockErase(k), EraseExisting, UnsetInCache, Unlock], Uncached(s, k))
  {
    hide Alone, Apply, Enabled, Holding;
    LockEraseStep(s, t, k);
    ExistingStep(s, t, k);
    UnsetStep(s, t, k);
    var end := Uncached(s, k);
    UnlockStep(end, t, EraseJob(k));
    assert end.pcs[t := Idle] == end.pcs && end.(pcs := end.pcs[t := Idle], op := None) == end;
    NoSteps(end, t);
    First(Holding(end, t, EraseJob(k), Ready), t, Unlock, [], end);
    First(Holding(s.(table := s.table - {k}), t, EraseJob(k), Unsetting(s.table[k])), t, UnsetInCache, [Unlock] + [], end);
    First(Holding(s, t, EraseJob(k), Ready), t, EraseExisting, [UnsetInCache] + ([Unlock] + []), end);
    First(s, t, LockErase(k), [EraseExisting] + ([UnsetInCache] + ([Unlock] + [])), end);
    assert [LockErase(k)] + ([EraseExisting] + ([UnsetInCache] + ([Unlock] + []))) == [LockErase(k), EraseExisting, UnsetInCache, Unlock];
  }

  lemma EraseUnheld(s: State, t: Tid, k: CacheKey)
    requires t < |s.pcs| && s.pcs[t] == Idle && s.op == None && k in s.table && s.table[k] < |s.handles|
    requires s.handles[s.table[k]].flags.inCache && s.handles[s.table[k]].flags.refs == 0 && s.handles[s.table[k]].charge <= s.usage
    ensures Alone(s, t, [LockErase(k), EraseExisting, UnsetInCache, Recycle, Unlock], Binned(Uncached(s, k), s.table[k]))
  {
    hide Alone, Apply, Enabled, Holding, Binned;
    var h, mid := s.table[k], Uncached(s, k);
    LockEraseStep(s, t, k);
    ExistingStep(s, t, k);
    UnsetStep(s, t, k);
    BinStep(mid, t, EraseJob(k), h);
    BinnedElse(mid, h);
    var end := Binned(mid, h);
    UnlockStep(end, t, EraseJob(k));
    assert end.pcs[t := Idle] == end.pcs && end.(pcs := end.pcs[t := Idle], op := None) == end;
    NoSteps(end, t);
    First(Holding(end, t, EraseJob(k), Ready), t, Unlock, [], end);
    First(Holding(mid, t, EraseJob(k), Recycling(h)), t, Recycle, [Unlock] + [], end);
    First(Holding(s.(table := s.table - {k}), t, EraseJob(k), Unsetting(h)), t, UnsetInCache, [Recycle] + ([Unlock] + []), end);
    First(Holding(s, t, EraseJob(k), Ready), t, EraseExisting, [UnsetInCache] + ([Recycle] + ([Unlock] + [])), end);
    First(s, t, LockErase(k), [EraseExisting] + ([UnsetInCache] + ([Recycle] + ([Unlock] + []))), end);
    assert [LockErase(k)] + ([EraseExisting] + ([UnsetInCache] + ([Recycle] + ([Unlock] + [])))) ==
           [LockErase(k), EraseExisting, UnsetInCache, Recycle, Unlock];
  }

  lemma EraseAbsent(s: State, t: Tid, k: CacheKey)
    requires t < |s.pcs| && s.pcs[t] == Idle && s.op == None && k !in s.table
    ensures Alone(s, t, [LockErase(k), Unlock], s)
  {
    hide Alone, Apply, Enabled, Holding;
    LockEraseStep(s, t, k);
    UnlockStep(s, t, EraseJob(k));
    assert s.pcs[t := Idle] == s.pcs && s.(pcs := s.pcs[t := Idle], op := None) == s;
    NoSteps(s, t);
    First(Holding(s, t, EraseJob(k), Ready), t, Unlock, [], s);
    First(s, t, LockErase(k), [Unlock] + [], s);
    assert [LockErase(k)] + ([Unlock] + []) == [LockErase(k), Unlock];
  }

  lemma ListedEntry(s: State, k: CacheKey)
    requires Inv(s) && s.op == None && k in s.table
    ensures var h := s.table[k];
            h < |s.handles| && s.handles[h].flags.inCache && s.handles[h].key == k && s.handles[h].charge <= s.usage
  {
    assert EntryFits(s, k) && HandleFits(s, s.table[k]);
    ChargedUpdate(s.handles, None, s.table[k], s.handles[s.table[k]], None);
  }

  /** An erase with nobody in between: the entry leaves the table and the cache, and goes into the bin exactly if nobody
      holds it; a key that is not listed changes nothing. */
  lemma EraseAlone(first: State, run: seq<(Tid, Action)>, s: State, t: Tid, k: CacheKey)
    requires Initial(first) && Reaches(first, run, s) && s.op == None && t < |s.pcs| && s.pcs[t] == Idle
    ensures k !in s.table ==> Alone(s, t, [LockErase(k), Unlock], s)
    ensures k in s.table ==>
              var h := s.table[k];
              && h < |s.handles| && s.handles[h].charge <= s.usage
              && if s.handles[h].flags.refs == 0
                 then Alone(s, t, [LockErase(k), EraseExisting, UnsetInCache, Recycle, Unlock], Binned(Uncached(s, k), h))
                 else Alone(s, t, [LockErase(k), EraseExisting, UnsetInCache, Unlock], Uncached(s, k))
  {
    hide Alone, Apply, Enabled, Reaches, Safe;
    Facts(first, run, s);
    if k !in s.table {
      EraseAbsent(s, t, k);
    } else {
      ListedEntry(s, k);
      hide Inv, Binned;
      if s.handles[s.table[k]].flags.refs == 0 { EraseUnheld(s, t, k); } else { EraseHeld(s, t, k); }
    }
  }

  // ---- What the mutex holder leaves behind, whatever others do meanwhile ----

  /** When an erase ends its key is not listed; when a clear ends nothing is in cache; when an insertion ends the table lists
      its key, for the handle with its charge, and the caller has the handle if asked for. */
  lemma OperationEnds(first: State, run: seq<(Tid, Action)>, s: State, t: Tid)
    requires Initial(first) && Reaches(first, run, s)
    ensures Enabled(s, t, Unlock) && s.op.value.job.EraseJob? ==> s.op.value.job.key !in s.table
    ensures Enabled(s, t, Unlock) && s.op.value.job.ClearJob? ==>
              s.table == map[] && forall h :: 0 <= h < |s.handles| ==> !s.handles[h].flags.inCache
    ensures Enabled(s, t, Publish) ==>
              var job, h, end := s.op.value.job, FreshOf(s).h, Apply(s, t, Publish);
              && h < |s.handles| && end.table == s.table[job.key := h] && end.usage == s.usage + job.charge && end.handles == s.handles
              && s.handles[h].key == job.key && s.handles[h].charge == job.charge && s.handles[h].flags.inCache
              && end.pcs == s.pcs[t := if job.hold then Held(job.key, h) else Idle]
  {
    hide Reaches;
    Facts(first, run, s);
    hide Safe, HandleFits, PcFits, EntryFits, Apply, Enabled;
    if Enabled(s, t, Unlock) {
      LockStep(s, t, Unlock);
      if s.op.value.job.ClearJob? {
        forall h | 0 <= h < |s.handles| ensures !s.handles[h].flags.inCache { assert ListingFits(s, h); }
      }
    }
    if Enabled(s, t, Publish) { InsertStep(s, t, Publish); }
  }

  // ---- Eviction ----

  /** Trying to evict a handle takes it out of table and cache and into the bin exactly if it is in cache, unreferenced and
      unused since it was last tried; otherwise it only loses its usage bit. */
  lemma EvictAlone(first: State, run: seq<(Tid, Action)>, s: State, t: Tid, h: Hid)
    requires Initial(first) && Reaches(first, run, s) && Enabled(s, t, TryEvict(h))
    ensures h < |s.handles|
    ensures s.handles[h].flags == Flags(true, false, 0) ==>
              var x := s.handles[h];
              && x.charge <= s.usage && s.table[x.key := h] == s.table
              && Alone(s, t, [TryEvict(h), EraseEvicted, Recycle],
                       Binned(s.(table := s.table - {x.key}, handles := s.handles[h := x.(flags := Flags(false, false, 0))]), h))
    ensures s.handles[h].flags != Flags(true, false, 0) ==>
              Apply(s, t, TryEvict(h)) == s.(handles := s.handles[h := s.handles[h].(flags := s.handles[h].flags.(usage := false))])
  {
    hide Reaches;
    Facts(first, run, s);
    hide Safe, PcFits, EntryFits, Apply, Enabled, Tokens, Recyclers;
    EvictionStep(s, t, TryEvict(h));
    if s.handles[h].flags == Flags(true, false, 0) {
      assert ListingFits(s, h) && HandleFits(s, h);
      ChargedUpdate(s.handles, None, h, s.handles[h], None);
      hide Inv;
      var x := s.handles[h];
      assert x.charge <= s.usage && Lists(s, x.key, h);
      Evicts(s, t, h);
    }
  }

  lemma Evicts(s: State, t: Tid, h: Hid)
    requires Enabled(s, t, TryEvict(h)) && h < |s.handles| && s.handles[h].flags == Flags(true, false, 0) && s.handles[h].charge <= s.usage
    ensures var x := s.handles[h];
            Alone(s, t, [TryEvict(h), EraseEvicted, Recycle],
                  Binned(s.(table := s.table - {x.key}, handles := s.handles[h := x.(flags := Flags(false, false, 0))]), h))
  {
    var x := s.handles[h];
    var mid := s.(table := s.table - {x.key}, handles := s.handles[h := x.(flags := Flags(false, false, 0))]);
    var end := Binned(mid, h);
    var s1, s2 := AtStage(mid, Evicted(h)).(table := s.table), AtStage(mid, Recycling(h));
    hide Alone, Apply, Enabled;
    EvictionStep(s, t, TryEvict(h));
    assert Apply(s, t, TryEvict(h)) == s1;
    EvictTail(s, t, h);
    hide Binned, AtStage;
    NoSteps(end, t);
    First(s2, t, Recycle, [], end);
    First(s1, t, EraseEvicted, [Recycle] + [], end);
    First(s, t, TryEvict(h), [EraseEvicted] + ([Recycle] + []), end);
    assert [TryEvict(h)] + ([EraseEvicted] + ([Recycle] + [])) == [TryEvict(h), EraseEvicted, Recycle];
  }

  lemma EvictTail(s: State, t: Tid, h: Hid)
    requires Owns(s, t) && StageOf(s) == Ready && h < |s.handles| && s.handles[h].charge <= s.usage
    ensures var x := s.handles[h];
            var mid := s.(table := s.table - {x.key}, handles := s.handles[h := x.(flags := Flags(false, false, 0))]);
            var s1, s2 := AtStage(mid, Evicted(h)).(table := s.table), AtStage(mid, Recycling(h));
            && Enabled(s1, t, EraseEvicted) && Apply(s1, t, EraseEvicted) == s2
            && Enabled(s2, t, Recycle) && Apply(s2, t, Recycle) == Binned(mid, h)
  {
  }

  /** The usage bit of a handle: set by a release, cleared by a try to evict and by a new entry, else untouched. */
  lemma UsageBit(s: State, t: Tid, a: Action, h: Hid)
    requires Enabled(s, t, a) && h < |s.handles|
    ensures t < |s.pcs| && h < |Apply(s, t, a).handles|
    ensures Apply(s, t, a).handles[h].flags.usage ==
            if a.SetUsage? && s.pcs[t].Held? && s.pcs[t].h == h then true
            else if (a.TryEvict? && a.h == h) || (a.Store? && FreshOf(s) == Filled(h)) then false
            else s.handles[h].flags.usage
  {
    hide Apply, Enabled;
    if OfReader(a) {
      ReaderStep(s, t, a);
    } else if OfLock(a) {
      LockStep(s, t, a);
    } else if OfEviction(a) {
      EvictionStep(s, t, a);
    } else {
      InsertStep(s, t, a);
    }
  }

  // ---- Insertion ----

  /** The handle an insertion takes: one from the bin, or a new one when the bin is empty. */
  predicate Available(s: State, h: Hid) { if h < |s.handles| then s.handles[h].inBin > 0 else h == |s.handles| && BinEmpty(s) }

  function Put(handles: seq<Handle>, h: Hid, x: Handle): seq<Handle>
    requires h <= |handles|
  {
    if h < |handles| then handles[h := x] else handles + [x]
  }

  function TakenHandle(s: State, h: Hid): Handle
    requires Available(s, h)
  {
    if h < |s.handles| then s.handles[h].(inBin := s.handles[h].inBin - 1) else BLANK
  }

  function EntryIn(x: Handle, k: CacheKey, c: nat, flags: Flags): Handle { x.(key := k, charge := c, fills := x.fills + 1, flags := flags) }

  function Preparing(s: State, t: Tid, job: Job, handles: seq<Handle>, prep: Fresh): State
    requires t < |s.pcs|
  {
    s.(handles := handles, pcs := s.pcs[t := Locked], op := Some(Op(t, job, Ready, prep, Full(s, job))))
  }

  lemma TakeStep(s: State, t: Tid, job: Job, h: Hid)
    requires t < |s.pcs| && job.InsertJob? && Available(s, h) && (Full(s, job) ==> !s.strict && job.hold)
    ensures var busy := Holding(s, t, job, Ready);
            && Enabled(busy, t, TakeHandle(h))
            && Apply(busy, t, TakeHandle(h)) == Preparing(s, t, job, Put(s.handles, h, TakenHandle(s, h)), Taken(h))
  {
  }

  lemma FillStep(s: State, t: Tid, job: Job, h: Hid, x: Handle)
    requires t < |s.pcs| && job.InsertJob? && h <= |s.handles|
    ensures var busy := Preparing(s, t, job, Put(s.handles, h, x), Taken(h));
            && Enabled(busy, t, Fill)
            && Apply(busy, t, Fill) == Preparing(s, t, job, Put(s.handles, h, EntryIn(x, job.key, job.charge, x.flags)), Filled(h))
  {
  }

  lemma StoreStep(s: State, t: Tid, job: Job, h: Hid, x: Handle)
    requires t < |s.pcs| && job.InsertJob? && h <= |s.handles|
    ensures var busy := Preparing(s, t, job, Put(s.handles, h, x), Filled(h));
            && Enabled(busy, t, Store)
            && Apply(busy, t, Store) ==
               Preparing(s, t, job, Put(s.handles, h, x.(flags := Flags(true, false, if job.hold then 1 else 0))), Stored(h))
  {
  }

  lemma PublishStep(s: State, t: Tid, job: Job, h: Hid, handles: seq<Handle>)
    requires t < |s.pcs| && job.InsertJob? && h < |handles| && job.key !in s.table
    ensures var busy := Preparing(s, t, job, handles, Stored(h));
            && Enabled(busy, t, Publish)
            && Apply(busy, t, Publish) == s.(handles := handles, table := s.table[job.key := h], usage := s.usage + job.charge,
                                             pcs := s.pcs[t := if job.hold then Held(job.key, h) else Idle], op := None)
  {
    var busy := Preparing(s, t, job, handles, Stored(h));
    assert busy.pcs[t := Idle] == s.pcs[t := Idle] && busy.pcs[t := Held(job.key, h)] == s.pcs[t := Held(job.key, h)];
  }

  /** An insertion of a key that is not listed, with nobody in between: with room, or if it may do without, the table lists the
      new entry and the caller has its handle if asked for; otherwise nothing changes. */
  lemma InsertAlone(s: State, t: Tid, k: CacheKey, c: nat, hold: bool, h: Hid)
    requires t < |s.pcs| && s.pcs[t] == Idle && s.op == None && k !in s.table && Available(s, h)
    ensures s.usage + c <= s.capacity || (!s.strict && hold) ==>
              Alone(s, t, [LockInsert(k, c, hold), TakeHandle(h), Fill, Store, Publish],
                    s.(handles := Put(s.handles, h, EntryIn(TakenHandle(s, h), k, c, Flags(true, false, if hold then 1 else 0))),
                       table := s.table[k := h], usage := s.usage + c, pcs := s.pcs[t := if hold then Held(k, h) else Idle]))
    ensures s.usage + c > s.capacity && (s.strict || !hold) ==> Alone(s, t, [LockInsert(k, c, hold), Unlock], s)
  {
    if s.usage + c > s.capacity && (s.strict || !hold) { Refused(s, t, k, c, hold); } else { Accepted(s, t, k, c, hold, h); }
    hide Alone;
  }

  lemma LockInsertStep(s: State, t: Tid, k: CacheKey, c: nat, hold: bool)
    requires t < |s.pcs| && s.pcs[t] == Idle && s.op == None
    ensures Enabled(s, t, LockInsert(k, c, hold)) && Apply(s, t, LockInsert(k, c, hold)) == Holding(s, t, InsertJob(k, c, hold), Ready)
  {
  }

  lemma Refused(s: State, t: Tid, k: CacheKey, c: nat, hold: bool)
    requires t < |s.pcs| && s.pcs[t] == Idle && s.op == None && s.usage + c > s.capacity && (s.strict || !hold)
    ensures Alone(s, t, [LockInsert(k, c, hold), Unlock], s)
  {
    hide Alone;
    var busy := Holding(s, t, InsertJob(k, c, hold), Ready);
    assert busy.pcs[t := Idle] == s.pcs && Enabled(busy, t, Unlock) && Apply(busy, t, Unlock) == s;
    hide Apply, Enabled;
    LockInsertStep(s, t, k, c, hold);
    NoSteps(s, t);
    First(busy, t, Unlock, [], s);
    First(s, t, LockInsert(k, c, hold), [Unlock] + [], s);
    assert [LockInsert(k, c, hold)] + ([Unlock] + []) == [LockInsert(k, c, hold), Unlock];
  }

  lemma Accepted(s: State, t: Tid, k: CacheKey, c: nat, hold: bool, h: Hid)
    requires t < |s.pcs| && s.pcs[t] == Idle && s.op == None && k !in s.table && Available(s, h)
    requires s.usage + c <= s.capacity || (!s.strict && hold)
    ensures Alone(s, t, [LockInsert(k, c, hold), TakeHandle(h), Fill, Store, Publish],
                  s.(handles := Put(s.handles, h, EntryIn(TakenHandle(s, h), k, c, Flags(true, false, if hold then 1 else 0))),
                     table := s.table[k := h], usage := s.usage + c, pcs := s.pcs[t := if hold then Held(k, h) else Idle]))
  {
    hide Alone, Apply, Enabled, Holding, Preparing;
    var job, x := InsertJob(k, c, hold), TakenHandle(s, h);
    var filled := EntryIn(x, k, c, x.flags);
    var stored := EntryIn(x, k, c, Flags(true, false, if hold then 1 else 0));
    var end := s.(handles := Put(s.handles, h, stored), table := s.table[k := h], usage := s.usage + c,
                  pcs := s.pcs[t := if hold then Held(k, h) else Idle]);
    LockInsertStep(s, t, k, c, hold);
    TakeStep(s, t, job, h);
    FillStep(s, t, job, h, x);
    StoreStep(s, t, job, h, filled);
    PublishStep(s, t, job, h, Put(s.handles, h, stored));
    NoSteps(end, t);
    First(Preparing(s, t, job, Put(s.handles, h, stored), Stored(h)), t, Publish, [], end);
    First(Preparing(s, t, job, Put(s.handles, h, filled), Filled(h)), t, Store, [Publish] + [], end);
    First(Preparing(s, t, job, Put(s.handles, h, x), Taken(h)), t, Fill, [Store] + ([Publish] + []), end);
    First(Holding(s, t, job, Ready), t, TakeHandle(h), [Fill] + ([Store] + ([Publish] + [])), end);
    First(s, t, LockInsert(k, c, hold), [TakeHandle(h)] + ([Fill] + ([Store] + ([Publish] + []))), end);
    assert [LockInsert(k, c, hold)] + ([TakeHandle(h)] + ([Fill] + ([Store] + ([Publish] + [])))) ==
           [LockInsert(k, c, hold), TakeHandle(h), Fill, Store, Publish];
  }

  // ---- A client's Ref, the setters, and clearing ----

  lemma ShareLoadStep(s: State, t: Tid, k: CacheKey, h: Hid)
    requires t < |s.pcs| && s.pcs[t] == Held(k, h) && h < |s.handles|
    ensures Enabled(s, t, ShareLoad) && Apply(s, t, ShareLoad) == s.(pcs := s.pcs[t := Sharing(k, h, s.handles[h].flags)])
  {
  }

  lemma ShareCasStep(s: State, t: Tid, k: CacheKey, h: Hid, to: Tid)
    requires t < |s.pcs| && h < |s.handles| && s.pcs[t] == Sharing(k, h, s.handles[h].flags) && to < |s.pcs| && s.pcs[to] == Idle
    ensures Enabled(s, t, ShareCas(to))
    ensures Apply(s, t, ShareCas(to)) ==
            if s.handles[h].flags.inCache then WithHold(s.(pcs := s.pcs[t := Held(k, h)]), to, k, h) else s.(pcs := s.pcs[t := Held(k, h)])
  {
  }

  /** A client's Ref with nobody in between: one more reference, for another session, exactly if the entry is in cache. */
  lemma RefAlone(s: State, t: Tid, k: CacheKey, h: Hid, to: Tid)
    requires t < |s.pcs| && h < |s.handles| && s.pcs[t] == Held(k, h) && to < |s.pcs| && s.pcs[to] == Idle
    ensures Alone(s, t, [ShareLoad, ShareCas(to)], if s.handles[h].flags.inCache then WithHold(s, to, k, h) else s)
  {
    hide Alone, Apply, Enabled;
    ShareLoadStep(s, t, k, h);
    var sharing := s.(pcs := s.pcs[t := Sharing(k, h, s.handles[h].flags)]);
    ShareCasStep(sharing, t, k, h, to);
    assert sharing.pcs[t := Held(k, h)] == s.pcs && sharing.(pcs := s.pcs) == s;
    var end := if s.handles[h].flags.inCache then WithHold(s, to, k, h) else s;
    NoSteps(end, t);
    First(sharing, t, ShareCas(to), [], end);
    First(s, t, ShareLoad, [ShareCas(to)] + [], end);
    assert [ShareLoad] + ([ShareCas(to)] + []) == [ShareLoad, ShareCas(to)];
  }

  /** The setters set their fields and nothing else. */
  lemma SettersAlone(s: State, t: Tid, capacity: nat, strict: bool)
    requires t < |s.pcs| && s.pcs[t] == Idle && s.op == None
    ensures Alone(s, t, [LockResize(capacity), Unlock], s.(capacity := capacity))
    ensures Alone(s, t, [SetStrict(strict)], s.(strict := strict))
  {
    assert Enabled(s, t, LockResize(capacity)) && Apply(s, t, LockResize(capacity)) == Holding(s.(capacity := capacity), t, ResizeJob, Ready);
    assert Enabled(s, t, SetStrict(strict)) && Apply(s, t, SetStrict(strict)) == s.(strict := strict);
    hide Alone, Apply, Enabled;
    var end, other := s.(capacity := capacity), s.(strict := strict);
    UnlockStep(end, t, ResizeJob);
    assert end.pcs[t := Idle] == end.pcs && end.(pcs := end.pcs[t := Idle], op := None) == end;
    NoSteps(end, t);
    NoSteps(other, t);
    First(Holding(end, t, ResizeJob, Ready), t, Unlock, [], end);
    First(s, t, LockResize(capacity), [Unlock] + [], end);
    First(s, t, SetStrict(strict), [], other);
    assert [LockResize(capacity)] + ([Unlock] + []) == [LockResize(capacity), Unlock] && [SetStrict(strict)] + [] == [SetStrict(strict)];
  }

  predicate Clearing(s: State, t: Tid) {
    && Owns(s, t) && s.op.value.job.ClearJob? && s.op.value.job.next <= |s.handles|
    && s.op.value.prep == NoHandle && (s.op.value.stage == Ready || s.op.value.stage.Recycling?)
  }

  /** How far a clear still has to go. */
  function ToClear(s: State): int
    requires s.op.Some? && s.op.value.job.ClearJob?
  {
    2 * (|s.handles| - s.op.value.job.next) + (if s.op.value.stage == Ready then 0 else 1)
  }

  function NextClear(s: State): Action
    requires s.op.Some? && s.op.value.job.ClearJob?
  {
    if s.op.value.stage.Recycling? then Recycle else if s.op.value.job.next < |s.handles| then ClearNext else Unlock
  }

  lemma ClearGoesOn(s: State, t: Tid)
    requires Inv(s) && Clearing(s, t)
    ensures Enabled(s, t, NextClear(s))
    ensures var s' := Apply(s, t, NextClear(s));
            if NextClear(s) == Unlock then s' == s.(pcs := s.pcs[t := Idle], op := None)
            else Clearing(s', t) && ToClear(s') < ToClear(s) && s'.pcs == s.pcs && |s'.handles| == |s.handles| && ToClear(s) > 0
  {
    hide Apply, Enabled;
    InvImpliesAssertions(s, t);
    assert Enabled(s, t, NextClear(s)) by { ClearMay(s, t); }
    if NextClear(s) == Unlock { LockStep(s, t, Unlock); } else { EvictionStep(s, t, NextClear(s)); }
    assert OpFits(s);
    hide Inv;
  }

  lemma ClearMay(s: State, t: Tid)
    requires Clearing(s, t)
    requires s.op.value.stage.Recycling? ==> s.op.value.stage.h < |s.handles| && s.handles[s.op.value.stage.h].charge <= s.usage
    ensures Enabled(s, t, NextClear(s))
  {
  }

  lemma {:induction false} ClearRest(s: State, t: Tid) returns (actions: seq<Action>, end: State)
    requires Inv(s) && Clearing(s, t)
    ensures Alone(s, t, actions, end) && Inv(end) && end.pcs == s.pcs[t := Idle] && end.op == None
    ensures end.table == map[] && |end.handles| == |s.handles| && forall h :: 0 <= h < |end.handles| ==> !end.handles[h].flags.inCache
    decreases ToClear(s)
  {
    hide Alone, Apply, Enabled;
    ClearGoesOn(s, t);
    StepKeepsInv(s, t, NextClear(s));
    var next := Apply(s, t, NextClear(s));
    if NextClear(s) == Unlock {
      assert OpFits(s);
      forall h | 0 <= h < |s.handles| ensures !s.handles[h].flags.inCache { assert ListingFits(s, h); }
      NoSteps(next, t);
      First(s, t, Unlock, [], next);
      actions, end := [Unlock] + [], next;
    } else {
      hide Inv;
      var rest;
      rest, end := ClearRest(next, t);
      First(s, t, NextClear(s), rest, end);
      actions := [NextClear(s)] + rest;
    }
  }

  /** Clearing with nobody in between empties the table and leaves nothing in cache. */
  lemma ClearAlone(first: State, run: seq<(Tid, Action)>, s: State, t: Tid) returns (rest: seq<Action>, end: State)
    requires Initial(first) && Reaches(first, run, s) && s.op == None && t < |s.pcs| && s.pcs[t] == Idle
    ensures Alone(s, t, [LockClear] + rest, end) && end.pcs == s.pcs && end.op == None
    ensures end.table == map[] && |end.handles| == |s.handles| && forall h :: 0 <= h < |end.handles| ==> !end.handles[h].flags.inCache
  {
    Facts(first, run, s);
    assert Enabled(s, t, LockClear);
    var next := Apply(s, t, LockClear);
    StepKeepsInv(s, t, LockClear);
    assert Clearing(next, t) && next.pcs == s.pcs[t := Locked] && |next.handles| == |s.handles|;
    hide Alone, Apply, Enabled, Inv, Reaches, Safe;
    rest, end := ClearRest(next, t);
    First(s, t, LockClear, rest, end);
    assert next.pcs[t := Idle] == s.pcs;
  }
}
