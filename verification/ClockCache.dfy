/** The CLOCK cache shard under concurrency: readers find handles in the hash table and reference them with
    a compare-and-swap on the handle's flag word, while one mutex holder at a time evicts, erases, recycles
    and refills handles.  Every atomic operation is one step. */
module ClockCache {
  import opened Records

  type Tid = nat
  type Hid = nat
  type CacheKey = nat

  /** The packed word of a handle: in-cache bit, usage bit and reference count. */
  datatype Flags = Flags(inCache: bool, usage: bool, refs: nat)

  /** A handle of the circular list.  `inBin` is how often the recycle bin lists it; `fills` and `recycles`
      count how often it was filled with an entry and put into the bin. */
  datatype Handle = Handle(key: CacheKey, charge: nat, flags: Flags, inBin: nat, fills: nat, recycles: nat)

  datatype Pc =
    | Idle
    | Found(key: CacheKey, h: Hid)              // the table named h; the accessor is released
    | Loaded(key: CacheKey, h: Hid, seen: Flags)   // inside the loop of Ref
    | Checking(key: CacheKey, h: Hid)           // referenced; about to compare the key
    | Held(key: CacheKey, h: Hid)               // a client owns this reference
    | Sharing(key: CacheKey, h: Hid, seen: Flags)  // a client in Ref on a handle it holds
    | Unrefing(h: Hid)
    | MustRecycle(h: Hid)                       // dropped the last reference of an entry out of cache
    | Locked                                    // owns the mutex

  datatype Job =
    | InsertJob(key: CacheKey, charge: nat, hold: bool) | EraseJob(key: CacheKey) | ClearJob(next: nat) | ResizeJob | RecycleJob

  datatype Stage = Ready | Evicted(h: Hid) | Unsetting(h: Hid) | Recycling(h: Hid)

  /** The handle an insertion is preparing. */
  datatype Fresh = NoHandle | Taken(h: Hid) | Filled(h: Hid) | Stored(h: Hid)

  /** `loose` says that an insertion went on although eviction had not made room for it. */
  datatype Op = Op(owner: Tid, job: Job, stage: Stage, prep: Fresh, loose: bool)

  datatype State = State(
    handles: seq<Handle>,
    table: map<CacheKey, Hid>,
    usage: nat,
    capacity: nat,
    strict: bool,
    pcs: seq<Pc>,
    op: Option<Op>)              // what the mutex holder is doing

  datatype Action =
    | Find(key: CacheKey) | LoadFlags | TryCas | CheckKey | SetUsage | FetchSub
    | ShareLoad | ShareCas(to: Tid)                       // the new reference goes to session `to`
    | LockRecycle | LockInsert(key: CacheKey, charge: nat, hold: bool) | LockErase(key: CacheKey) | LockClear
    | LockResize(capacity: nat) | SetStrict(strict: bool)
    | TryEvict(h: Hid) | EraseEvicted | Recycle
    | TakeHandle(h: Hid) | Fill | Store | EraseExisting | UnsetInCache | Publish
    | ClearNext | Unlock

  function StageOf(s: State): Stage { if s.op.Some? then s.op.value.stage else Ready }

  function FreshOf(s: State): Fresh { if s.op.Some? then s.op.value.prep else NoHandle }

  predicate Owns(s: State, t: Tid) { s.op.Some? && s.op.value.owner == t && t < |s.pcs| && s.pcs[t] == Locked }

  predicate BinEmpty(s: State) { forall h :: 0 <= h < |s.handles| ==> s.handles[h].inBin == 0 }

  /** There is no room for what the job wants to add: eviction goes on, and an insertion fails if it is told to. */
  predicate Full(s: State, job: Job) { s.usage + (if job.InsertJob? then job.charge else 0) > s.capacity }

  // ---- Four kinds of steps ----

  /** A session's own steps, without the mutex. */
  predicate OfReader(a: Action) {
    a.Find? || a.LoadFlags? || a.TryCas? || a.CheckKey? || a.SetUsage? || a.FetchSub? || a.SetStrict? || OfShare(a)
  }

  predicate OfShare(a: Action) { a.ShareLoad? || a.ShareCas? }

  /** Taking and giving back the mutex. */
  predicate OfLock(a: Action) {
    a.LockRecycle? || a.LockInsert? || a.LockErase? || a.LockClear? || a.LockResize? || a.Unlock?
  }

  /** Evicting and erasing, by the mutex holder. */
  predicate OfEviction(a: Action) {
    a.TryEvict? || a.EraseEvicted? || a.Recycle? || a.ClearNext? || a.UnsetInCache?
  }

  predicate ReaderMay(s: State, t: Tid, a: Action)
    requires t < |s.pcs|
  {
    var pc := s.pcs[t];
    var n := |s.handles|;
    match a
    case Find(_) => pc == Idle
    case LoadFlags => pc.Found? && pc.h < n
    case TryCas => pc.Loaded? && pc.h < n
    case CheckKey => pc.Checking? && pc.h < n
    case SetUsage => pc.Held? && pc.h < n
    case FetchSub => pc.Unrefing? && pc.h < n && s.handles[pc.h].flags.refs > 0
    case ShareLoad => pc.Held? && pc.h < n
    case ShareCas(to) => pc.Sharing? && pc.h < n && to < |s.pcs| && s.pcs[to] == Idle
    case SetStrict(_) => pc == Idle
    case _ => false
  }

  predicate LockMay(s: State, t: Tid, a: Action)
    requires t < |s.pcs|
  {
    var pc := s.pcs[t];
    match a
    case LockRecycle => pc.MustRecycle? && s.op == None
    case LockInsert(_, _, _) => pc == Idle && s.op == None
    case LockErase(_) => pc == Idle && s.op == None
    case LockClear => pc == Idle && s.op == None
    case LockResize(_) => pc == Idle && s.op == None
    case Unlock =>
      && Owns(s, t) && StageOf(s) == Ready && FreshOf(s) == NoHandle
      && (s.op.value.job.ClearJob? ==> s.op.value.job.next >= |s.handles|)
      && (s.op.value.job.EraseJob? ==> s.op.value.job.key !in s.table)
      && (s.op.value.job.InsertJob? ==> Full(s, s.op.value.job) && (s.strict || !s.op.value.job.hold))
    case _ => false
  }

  predicate EvictionMay(s: State, t: Tid, a: Action) {
    var n := |s.handles|;
    Owns(s, t) &&
    match a
    case TryEvict(h) =>
      && (s.op.value.job.InsertJob? || s.op.value.job.ResizeJob?) && StageOf(s) == Ready && FreshOf(s) == NoHandle && h < n
      && Full(s, s.op.value.job)
    case EraseEvicted => StageOf(s).Evicted? && StageOf(s).h < n
    case Recycle => StageOf(s).Recycling? && StageOf(s).h < n && s.handles[StageOf(s).h].charge <= s.usage
    case ClearNext => s.op.value.job.ClearJob? && StageOf(s) == Ready && s.op.value.job.next < n
    case UnsetInCache => StageOf(s).Unsetting? && StageOf(s).h < n
    case _ => false
  }

  predicate InsertMay(s: State, t: Tid, a: Action) {
    var n := |s.handles|;
    Owns(s, t) &&
    match a
    case TakeHandle(h) =>
      && s.op.value.job.InsertJob? && StageOf(s) == Ready && FreshOf(s) == NoHandle
      && (Full(s, s.op.value.job) ==> !s.strict && s.op.value.job.hold)
      && (if h < n then s.handles[h].inBin > 0 else h == n && BinEmpty(s))
    case Fill => s.op.value.job.InsertJob? && FreshOf(s).Taken? && FreshOf(s).h < n
    case Store => s.op.value.job.InsertJob? && FreshOf(s).Filled? && FreshOf(s).h < n
    case EraseExisting =>
      && StageOf(s) == Ready
      && (if s.op.value.job.InsertJob? then FreshOf(s).Stored? && s.op.value.job.key in s.table
          else s.op.value.job.EraseJob? && s.op.value.job.key in s.table)
    case Publish =>
      s.op.value.job.InsertJob? && StageOf(s) == Ready && FreshOf(s).Stored? && s.op.value.job.key !in s.table
    case _ => false
  }

  predicate Enabled(s: State, t: Tid, a: Action) {
    t < |s.pcs| &&
    if OfReader(a) then ReaderMay(s, t, a)
    else if OfLock(a) then LockMay(s, t, a)
    else if OfEviction(a) then EvictionMay(s, t, a)
    else InsertMay(s, t, a)
  }

  function Goto(s: State, t: Tid, pc: Pc): State
    requires t < |s.pcs|
  {
    s.(pcs := s.pcs[t := pc])
  }

  function SetFlags(s: State, h: Hid, f: Flags): State
    requires h < |s.handles|
  {
    s.(handles := s.handles[h := s.handles[h].(flags := f)])
  }

  function Begin(s: State, t: Tid, job: Job, stage: Stage): State
    requires t < |s.pcs|
  {
    Goto(s, t, Locked).(op := Some(Op(t, job, stage, NoHandle, false)))
  }

  function AtStage(s: State, stage: Stage): State
    requires s.op.Some?
  {
    s.(op := Some(s.op.value.(stage := stage)))
  }

  function WithFresh(s: State, prep: Fresh): State
    requires s.op.Some?
  {
    s.(op := Some(s.op.value.(prep := prep)))
  }

  /** UnsetInCache: clear the in-cache bit; recycle if it was set and nobody holds a reference. */
  function Unset(s: State, h: Hid): State
    requires h < |s.handles| && s.op.Some?
  {
    var f := s.handles[h].flags;
    AtStage(SetFlags(s, h, f.(inCache := false)), if f.inCache && f.refs == 0 then Recycling(h) else Ready)
  }

  function ReaderDoes(s: State, t: Tid, a: Action): State
    requires t < |s.pcs| && ReaderMay(s, t, a)
  {
    var pc := s.pcs[t];
    match a
    case Find(k) => if k in s.table then Goto(s, t, Pc.Found(k, s.table[k])) else s
    case LoadFlags => Goto(s, t, Loaded(pc.key, pc.h, s.handles[pc.h].flags))
    case TryCas =>
      var f := s.handles[pc.h].flags;
      if !pc.seen.inCache then Goto(s, t, Idle)
      else if f == pc.seen then Goto(SetFlags(s, pc.h, f.(refs := f.refs + 1)), t, Checking(pc.key, pc.h))
      else Goto(s, t, Loaded(pc.key, pc.h, f))
    case CheckKey => Goto(s, t, if s.handles[pc.h].key == pc.key then Held(pc.key, pc.h) else Unrefing(pc.h))
    case SetUsage => Goto(SetFlags(s, pc.h, s.handles[pc.h].flags.(usage := true)), t, Unrefing(pc.h))
    case FetchSub =>
      var f := s.handles[pc.h].flags;
      Goto(SetFlags(s, pc.h, f.(refs := f.refs - 1)), t, if f.refs == 1 && !f.inCache then MustRecycle(pc.h) else Idle)
    case ShareLoad => Goto(s, t, Sharing(pc.key, pc.h, s.handles[pc.h].flags))
    case ShareCas(to) =>
      var f := s.handles[pc.h].flags;
      if !pc.seen.inCache then Goto(s, t, Held(pc.key, pc.h))
      else if f == pc.seen
      then Goto(Goto(SetFlags(s, pc.h, f.(refs := f.refs + 1)), t, Held(pc.key, pc.h)), to, Held(pc.key, pc.h))
      else Goto(s, t, Sharing(pc.key, pc.h, f))
    case SetStrict(strict) => s.(strict := strict)
    case _ => s
  }

  function LockDoes(s: State, t: Tid, a: Action): State
    requires t < |s.pcs| && LockMay(s, t, a)
  {
    match a
    case LockRecycle => Begin(s, t, RecycleJob, Recycling(s.pcs[t].h))
    case LockInsert(k, c, hold) => Begin(s, t, InsertJob(k, c, hold), Ready)
    case LockErase(k) => Begin(s, t, EraseJob(k), Ready)
    case LockClear => Begin(s, t, ClearJob(0), Ready).(table := map[])
    case LockResize(c) => Begin(s, t, ResizeJob, Ready).(capacity := c)
    case Unlock => Goto(s, t, Idle).(op := None)
    case _ => s
  }

  function EvictionDoes(s: State, t: Tid, a: Action): State
    requires EvictionMay(s, t, a)
  {
    match a
    case TryEvict(h) =>
      if s.handles[h].flags == Flags(true, false, 0) then AtStage(SetFlags(s, h, Flags(false, false, 0)), Evicted(h))
      else SetFlags(s, h, s.handles[h].flags.(usage := false))
    case EraseEvicted =>
      var h := StageOf(s).h;
      AtStage(s, Recycling(h)).(table := s.table - {s.handles[h].key})
    case Recycle =>
      var h := StageOf(s).h;
      var x := s.handles[h];
      AtStage(s, Ready).(handles := s.handles[h := x.(key := 0, inBin := x.inBin + 1, recycles := x.recycles + 1)],
                         usage := s.usage - x.charge)
    case ClearNext =>
      var i := s.op.value.job.next;
      var u := Unset(s, i);
      u.(op := Some(u.op.value.(job := ClearJob(i + 1))))
    case UnsetInCache => Unset(s, StageOf(s).h)
    case _ => s
  }

  function InsertDoes(s: State, t: Tid, a: Action): State
    requires InsertMay(s, t, a)
  {
    match a
    case TakeHandle(h) =>
      var handles := if h < |s.handles| then s.handles[h := s.handles[h].(inBin := s.handles[h].inBin - 1)]
                     else s.handles + [Handle(0, 0, Flags(false, false, 0), 0, 0, 0)];
      s.(handles := handles, op := Some(s.op.value.(prep := Taken(h), loose := Full(s, s.op.value.job))))
    case Fill =>
      var h := FreshOf(s).h;
      var x := s.handles[h];
      WithFresh(s, Filled(h)).(handles := s.handles[h := x.(key := s.op.value.job.key, charge := s.op.value.job.charge, fills := x.fills + 1)])
    case Store =>
      var h := FreshOf(s).h;
      WithFresh(SetFlags(s, h, Flags(true, false, if s.op.value.job.hold then 1 else 0)), Stored(h))
    case EraseExisting =>
      var k := s.op.value.job.key;
      AtStage(s, Unsetting(s.table[k])).(table := s.table - {k})
    case Publish =>
      var k, h := s.op.value.job.key, FreshOf(s).h;
      Goto(s, t, if s.op.value.job.hold then Held(k, h) else Idle)
        .(table := s.table[k := h], usage := s.usage + s.op.value.job.charge, op := None)
    case _ => s
  }

  function Apply(s: State, t: Tid, a: Action): State
    requires Enabled(s, t, a)
  {
    if OfReader(a) then ReaderDoes(s, t, a)
    else if OfLock(a) then LockDoes(s, t, a)
    else if OfEviction(a) then EvictionDoes(s, t, a)
    else InsertDoes(s, t, a)
  }

  lemma ReaderStep(s: State, t: Tid, a: Action)
    requires Enabled(s, t, a) && OfReader(a)
    ensures t < |s.pcs| && ReaderMay(s, t, a) && Apply(s, t, a) == ReaderDoes(s, t, a)
  {
  }

  lemma LockStep(s: State, t: Tid, a: Action)
    requires Enabled(s, t, a) && OfLock(a)
    ensures t < |s.pcs| && LockMay(s, t, a) && Apply(s, t, a) == LockDoes(s, t, a)
  {
  }

  lemma EvictionStep(s: State, t: Tid, a: Action)
    requires Enabled(s, t, a) && OfEviction(a)
    ensures EvictionMay(s, t, a) && Apply(s, t, a) == EvictionDoes(s, t, a)
  {
  }

  lemma InsertStep(s: State, t: Tid, a: Action)
    requires Enabled(s, t, a) && !OfReader(a) && !OfLock(a) && !OfEviction(a)
    ensures InsertMay(s, t, a) && Apply(s, t, a) == InsertDoes(s, t, a)
  {
  }

  // ---- Counting references and recyclers ----

  function One(b: bool): nat { if b then 1 else 0 }

  /** The reference a session owns. */
  function Token(pc: Pc): Option<Hid> {
    if pc.Checking? || pc.Held? || pc.Sharing? || pc.Unrefing? then Some(pc.h) else None
  }

  function Tokens(pcs: seq<Pc>, h: Hid): nat {
    if pcs == [] then 0 else Tokens(pcs[..|pcs| - 1], h) + One(Token(pcs[|pcs| - 1]) == Some(h))
  }

  function Recyclers(pcs: seq<Pc>, h: Hid): nat {
    if pcs == [] then 0 else Recyclers(pcs[..|pcs| - 1], h) + One(pcs[|pcs| - 1] == MustRecycle(h))
  }

  lemma {:induction false} TokensUpdate(pcs: seq<Pc>, t: Tid, pc: Pc, h: Hid)
    requires t < |pcs|
    ensures Tokens(pcs[t := pc], h) + One(Token(pcs[t]) == Some(h)) == Tokens(pcs, h) + One(Token(pc) == Some(h))
    ensures Recyclers(pcs[t := pc], h) + One(pcs[t] == MustRecycle(h)) == Recyclers(pcs, h) + One(pc == MustRecycle(h))
    ensures Tokens(pcs, h) >= One(Token(pcs[t]) == Some(h)) && Recyclers(pcs, h) >= One(pcs[t] == MustRecycle(h))
    decreases |pcs|
  {
    hide Token;
    var n := |pcs| - 1;
    if t == n {
      assert pcs[t := pc][..n] == pcs[..n];
    } else {
      assert pcs[t := pc][..n] == pcs[..n][t := pc];
      TokensUpdate(pcs[..n], t, pc, h);
    }
  }

  /** The reference an insertion holds for its caller before it returns. */
  function OpToken(s: State): Option<Hid> {
    if FreshOf(s).Stored? && s.op.value.job.InsertJob? && s.op.value.job.hold then Some(FreshOf(s).h) else None
  }

  predicate IsFresh(s: State, h: Hid) { FreshOf(s) != NoHandle && FreshOf(s).h == h }

  /** Taken out of the bin, but its flags are not stored yet. */
  predicate Unstored(s: State, h: Hid) { (FreshOf(s).Taken? || FreshOf(s).Filled?) && FreshOf(s).h == h }

  /** Charges of the handles outside the recycle bin, without the one being prepared. */
  function Charged(handles: seq<Handle>, prep: Option<Hid>): nat {
    if handles == [] then 0
    else
      var n := |handles| - 1;
      Charged(handles[..n], prep) + if handles[n].inBin == 0 && prep != Some(n) then handles[n].charge else 0
  }

  function FreshHandle(s: State): Option<Hid> { if FreshOf(s) == NoHandle then None else Some(FreshOf(s).h) }

  function Cost(x: Handle, prep: bool): nat { if x.inBin == 0 && !prep then x.charge else 0 }

  lemma {:induction false} ChargedUpdate(handles: seq<Handle>, prep: Option<Hid>, h: Hid, x: Handle, prep': Option<Hid>)
    requires h < |handles| && forall i :: 0 <= i < |handles| && i != h ==> (prep == Some(i) <==> prep' == Some(i))
    ensures Charged(handles[h := x], prep') + Cost(handles[h], prep == Some(h)) ==
            Charged(handles, prep) + Cost(x, prep' == Some(h))
    ensures Charged(handles, prep) >= Cost(handles[h], prep == Some(h))
    decreases |handles|
  {
    var n := |handles| - 1;
    if h == n {
      assert handles[h := x][..n] == handles[..n];
      ChargedSame(handles[..n], prep, prep');
    } else {
      assert handles[h := x][..n] == handles[..n][h := x];
      ChargedUpdate(handles[..n], prep, h, x, prep');
    }
  }

  lemma {:induction false} ChargedSame(handles: seq<Handle>, prep: Option<Hid>, prep': Option<Hid>)
    requires forall i :: 0 <= i < |handles| ==> (prep == Some(i) <==> prep' == Some(i))
    ensures Charged(handles, prep) == Charged(handles, prep')
  {
    if handles != [] { ChargedSame(handles[..|handles| - 1], prep, prep'); }
  }

  // ---- The invariant ----

  /** Out of cache, unreferenced and not in the bin: somebody owes it to the bin. */
  predicate Owed(s: State, h: Hid)
    requires h < |s.handles|
  {
    var x := s.handles[h];
    !x.flags.inCache && x.flags.refs == 0 && x.inBin == 0 && !Unstored(s, h)
  }

  predicate HandleFits(s: State, h: Hid)
    requires h < |s.handles|
  {
    var x := s.handles[h];
    && x.flags.refs == Tokens(s.pcs, h) + One(OpToken(s) == Some(h))
    && x.inBin <= 1 && x.fills == x.recycles + One(x.inBin == 0 && FreshOf(s) != Taken(h))
    && (x.inBin == 1 || Unstored(s, h) ==> !x.flags.inCache && x.flags.refs == 0)
    && (IsFresh(s, h) ==> x.inBin == 0)
    && Recyclers(s.pcs, h) + One(StageOf(s) == Recycling(h) || StageOf(s) == Evicted(h)) == One(Owed(s, h))
  }

  predicate PcFits(pc: Pc, handles: seq<Handle>, owner: bool) {
    && (pc == Locked <==> owner)
    && (pc.Found? || pc.Loaded? || pc.Checking? || pc.Held? || pc.Sharing? || pc.Unrefing? || pc.MustRecycle? ==> pc.h < |handles|)
    && (pc.Held? || pc.Sharing? ==> handles[pc.h].key == pc.key)
  }

  predicate OwnedBy(s: State, t: Tid) { s.op.Some? && s.op.value.owner == t }

  /** In cache, but the table need not list it now. */
  predicate MayBeUnlisted(s: State, h: Hid) {
    || FreshOf(s) == Stored(h) || StageOf(s) == Unsetting(h)
    || (s.op.Some? && s.op.value.job.ClearJob? && s.op.value.job.next <= h)
  }

  predicate Lists(s: State, k: CacheKey, h: Hid) { k in s.table && s.table[k] == h }

  predicate ListingFits(s: State, h: Hid)
    requires h < |s.handles|
  {
    var x := s.handles[h];
    && (x.flags.inCache && !MayBeUnlisted(s, h) ==> Lists(s, x.key, h))
    && (MayBeUnlisted(s, h) ==> !Lists(s, x.key, h))
    && (StageOf(s) == Evicted(h) ==> Lists(s, x.key, h))
  }

  predicate EntryFits(s: State, k: CacheKey)
    requires k in s.table
  {
    var h := s.table[k];
    h < |s.handles| && s.handles[h].key == k && (s.handles[h].flags.inCache || StageOf(s) == Evicted(h))
  }

  predicate OpFits(s: State) {
    s.op.Some? ==>
      var op := s.op.value;
      && op.owner < |s.pcs|
      && (op.prep != NoHandle ==> op.prep.h < |s.handles| && op.job.InsertJob?)
      && (op.prep.Filled? || op.prep.Stored? ==>
            s.handles[op.prep.h].key == op.job.key && s.handles[op.prep.h].charge == op.job.charge)
      && (op.stage != Ready ==> op.stage.h < |s.handles| && !IsFresh(s, op.stage.h))
      && (op.stage.Evicted? ==> op.prep == NoHandle && (op.job.InsertJob? || op.job.ResizeJob?))
      && (op.stage.Unsetting? ==> s.handles[op.stage.h].flags.inCache && (op.job.InsertJob? || op.job.EraseJob?))
      && (op.prep.Taken? || op.prep.Filled? ==> op.stage == Ready)
      && (op.prep.Stored? ==> s.handles[op.prep.h].flags.inCache)
      && (op.job.ClearJob? ==> s.table == map[] && (op.stage == Ready || op.stage.Recycling?))
  }

  ghost predicate Inv(s: State) {
    && OpFits(s)
    && (forall h :: 0 <= h < |s.handles| ==> HandleFits(s, h))
    && (forall t :: 0 <= t < |s.pcs| ==> PcFits(s.pcs[t], s.handles, OwnedBy(s, t)))
    && (forall h :: 0 <= h < |s.handles| ==> ListingFits(s, h))
    && (forall k :: k in s.table ==> EntryFits(s, k))
    && s.usage == Charged(s.handles, FreshHandle(s))
  }

  // ---- Every step keeps it ----

  /** The compare-and-swap of a client's Ref succeeds. */
  predicate Shares(s: State, t: Tid, a: Action)
    requires Enabled(s, t, a)
  {
    a.ShareCas? && s.pcs[t].seen.inCache && s.handles[s.pcs[t].h].flags == s.pcs[t].seen
  }

  /** A session's own steps change reference counts and usage bits only. */
  ghost predicate CountsOnly(s: State, s': State) {
    && s'.op == s.op && s'.table == s.table && s'.usage == s.usage && |s'.pcs| == |s.pcs| && |s'.handles| == |s.handles|
    && forall h :: 0 <= h < |s.handles| ==>
         s'.handles[h] == s.handles[h].(flags := Flags(s.handles[h].flags.inCache, s'.handles[h].flags.usage, s'.handles[h].flags.refs))
  }

  lemma ReaderTouchesCounts(s: State, t: Tid, a: Action)
    requires Enabled(s, t, a) && OfReader(a)
    ensures CountsOnly(s, Apply(s, t, a))
  {
    hide Apply, Enabled;
    ReaderStep(s, t, a);
  }

  /** What the invariant says about the handles and the thread a step touches. */
  ghost predicate Known(s: State, t: Tid, h: Hid)
    requires t < |s.pcs| && h < |s.handles|
  {
    && OpFits(s) && HandleFits(s, h) && ListingFits(s, h) && PcFits(s.pcs[t], s.handles, OwnedBy(s, t))
    && (StageOf(s) != Ready ==> StageOf(s).h < |s.handles| && HandleFits(s, StageOf(s).h) && ListingFits(s, StageOf(s).h))
    && (FreshOf(s) != NoHandle ==> FreshOf(s).h < |s.handles| && HandleFits(s, FreshOf(s).h) && ListingFits(s, FreshOf(s).h))
  }

  lemma Knows(s: State, t: Tid, h: Hid)
    requires Inv(s) && t < |s.pcs| && h < |s.handles|
    ensures Known(s, t, h)
  {
    hide HandleFits, ListingFits, PcFits;
  }

  /** The compare-and-swap of a lookup succeeds. */
  predicate Refs(s: State, t: Tid, a: Action)
    requires Enabled(s, t, a)
  {
    a.TryCas? && s.pcs[t].seen.inCache && s.handles[s.pcs[t].h].flags == s.pcs[t].seen
  }

  lemma RefsEffect(s: State, t: Tid, a: Action)
    requires Enabled(s, t, a) && Refs(s, t, a)
    ensures t < |s.pcs|
    ensures var pc, s' := s.pcs[t], Apply(s, t, a);
            && s'.op == s.op && pc.Loaded? && pc.h < |s.handles| && s.handles[pc.h].flags.inCache
            && s'.pcs == s.pcs[t := Checking(pc.key, pc.h)]
            && s'.handles == s.handles[pc.h := s.handles[pc.h].(flags := s.handles[pc.h].flags.(refs := s.handles[pc.h].flags.refs + 1))]
  {
  }

  lemma CasHandle(s: State, t: Tid, a: Action, h: Hid)
    requires Inv(s) && Enabled(s, t, a) && Refs(s, t, a) && h < |s.handles|
    ensures h < |Apply(s, t, a).handles| && HandleFits(Apply(s, t, a), h)
  {
    hide Apply, Enabled, Tokens, Recyclers, HandleFits;
    RefsEffect(s, t, a);
    assert HandleFits(s, h);
    hide Inv;
    TokensUpdate(s.pcs, t, Checking(s.pcs[t].key, s.pcs[t].h), h);
    CountMatched(s, Apply(s, t, a), h, s.handles[h].flags.refs + One(h == s.pcs[t].h));
  }

  /** Any other step of a lookup or a client's Ref leaves the handles and the session's reference alone. */
  predicate Quiet(s: State, t: Tid, a: Action)
    requires Enabled(s, t, a)
  {
    OfReader(a) && !a.SetUsage? && !a.FetchSub? && !Refs(s, t, a) && !Shares(s, t, a)
  }

  lemma QuietEffect(s: State, t: Tid, a: Action)
    requires Enabled(s, t, a) && Quiet(s, t, a)
    ensures t < |s.pcs|
    ensures var pc, s' := s.pcs[t], Apply(s, t, a);
            && s'.op == s.op && s'.handles == s.handles && |s'.pcs| == |s.pcs| && s'.pcs == s.pcs[t := s'.pcs[t]]
            && Token(s'.pcs[t]) == Token(pc) && !pc.MustRecycle? && !s'.pcs[t].MustRecycle?
  {
    hide Apply, Enabled;
    ReaderStep(s, t, a);
  }

  lemma QuietHandle(s: State, t: Tid, a: Action, h: Hid)
    requires Inv(s) && Enabled(s, t, a) && Quiet(s, t, a) && h < |s.handles|
    ensures h < |Apply(s, t, a).handles| && HandleFits(Apply(s, t, a), h)
  {
    hide Apply, Enabled, Tokens, Recyclers, HandleFits, Token, Quiet;
    QuietEffect(s, t, a);
    assert HandleFits(s, h);
    hide Inv;
    TokensUpdate(s.pcs, t, Apply(s, t, a).pcs[t], h);
    CountMatched(s, Apply(s, t, a), h, s.handles[h].flags.refs);
  }

  lemma SharesEffect(s: State, t: Tid, a: Action)
    requires Enabled(s, t, a) && Shares(s, t, a)
    ensures t < |s.pcs|
    ensures var pc, s' := s.pcs[t], Apply(s, t, a);
            && s'.op == s.op && pc.Sharing? && a.to != t && a.to < |s.pcs| && s.pcs[a.to] == Idle && pc.h < |s.handles| && s.handles[pc.h].flags.inCache
            && s'.pcs == s.pcs[t := Held(pc.key, pc.h)][a.to := Held(pc.key, pc.h)]
            && s'.handles == s.handles[pc.h := s.handles[pc.h].(flags := s.handles[pc.h].flags.(refs := s.handles[pc.h].flags.refs + 1))]
  {
    hide Apply, Enabled;
    ReaderStep(s, t, a);
  }

  /** A change of a handle's count that the sessions match, and that leaves its duties alone, keeps it right. */
  lemma CountMatched(s: State, s': State, h: Hid, refs: nat)
    requires h < |s.handles| == |s'.handles| && s'.op == s.op && HandleFits(s, h)
    requires s'.handles[h] == s.handles[h].(flags := s.handles[h].flags.(refs := refs))
    requires refs + Tokens(s.pcs, h) == s.handles[h].flags.refs + Tokens(s'.pcs, h) && Recyclers(s'.pcs, h) == Recyclers(s.pcs, h)
    requires refs == s.handles[h].flags.refs || s.handles[h].flags.inCache
    ensures HandleFits(s', h)
  {
    hide Tokens, Recyclers;
  }

  lemma SharedHandle(s: State, t: Tid, a: Action, h: Hid)
    requires Inv(s) && Enabled(s, t, a) && Shares(s, t, a) && h < |s.handles|
    ensures h < |Apply(s, t, a).handles| && HandleFits(Apply(s, t, a), h)
  {
    hide Apply, Enabled, Tokens, Recyclers, HandleFits;
    SharesEffect(s, t, a);
    assert HandleFits(s, h);
    hide Inv;
    var now := Held(s.pcs[t].key, s.pcs[t].h);
    TokensUpdate(s.pcs, t, now, h);
    TokensUpdate(s.pcs[t := now], a.to, now, h);
    CountMatched(s, Apply(s, t, a), h, s.handles[h].flags.refs + One(h == s.pcs[t].h));
  }

  lemma ReleaseHandle(s: State, t: Tid, a: Action, h: Hid)
    requires Inv(s) && Enabled(s, t, a) && h < |s.handles| && (a.FetchSub? || a.SetUsage?)
    ensures h < |Apply(s, t, a).handles| && HandleFits(Apply(s, t, a), h)
  {
    hide Apply, Enabled, ListingFits, OpFits, Tokens, Recyclers, EntryFits;
    ReaderStep(s, t, a);
    Knows(s, t, h);
    TokensUpdate(s.pcs, t, Apply(s, t, a).pcs[t], h);
    hide Inv, Tokens, Recyclers, ListingFits, OpFits;
  }

  lemma LockHandle(s: State, t: Tid, a: Action, h: Hid)
    requires Inv(s) && Enabled(s, t, a) && h < |s.handles| && OfLock(a)
    ensures h < |Apply(s, t, a).handles| && HandleFits(Apply(s, t, a), h)
  {
    hide Apply, Enabled, ListingFits, PcFits, Full, Tokens, Recyclers, EntryFits;
    LockStep(s, t, a);
    Knows(s, t, h);
    TokensUpdate(s.pcs, t, Apply(s, t, a).pcs[t], h);
    hide Inv, Tokens, Recyclers;
  }

  lemma EvictionHandle(s: State, t: Tid, a: Action, h: Hid)
    requires Inv(s) && Enabled(s, t, a) && h < |s.handles| && OfEviction(a)
    ensures h < |Apply(s, t, a).handles| && HandleFits(Apply(s, t, a), h)
  {
    hide Apply, Enabled, ListingFits, PcFits, Full, Tokens, Recyclers, EntryFits;
    EvictionStep(s, t, a);
    Knows(s, t, h);
    hide Inv, Tokens, Recyclers;
  }

  lemma InsertHandle(s: State, t: Tid, a: Action, h: Hid)
    requires Inv(s) && Enabled(s, t, a) && h < |s.handles| && !OfReader(a) && !OfLock(a) && !OfEviction(a)
    ensures h < |Apply(s, t, a).handles| && HandleFits(Apply(s, t, a), h)
  {
    hide Apply, Enabled, ListingFits, PcFits, Full, Tokens, Recyclers, EntryFits;
    InsertStep(s, t, a);
    Knows(s, t, h);
    TokensUpdate(s.pcs, t, Apply(s, t, a).pcs[t], h);
    hide Inv, Tokens, Recyclers;
  }

  lemma HandleKept(s: State, t: Tid, a: Action, h: Hid)
    requires Inv(s) && Enabled(s, t, a) && h < |Apply(s, t, a).handles|
    ensures HandleFits(Apply(s, t, a), h)
  {
    hide Apply, Enabled;
    hide Inv, HandleFits;
    if h >= |s.handles| {
      NewHandle(s, t, a);
    } else if a.FetchSub? || a.SetUsage? {
      ReleaseHandle(s, t, a, h);
    } else if OfReader(a) && Refs(s, t, a) {
      CasHandle(s, t, a, h);
    } else if OfReader(a) && Shares(s, t, a) {
      SharedHandle(s, t, a, h);
    } else if OfReader(a) {
      QuietHandle(s, t, a, h);
    } else if OfLock(a) {
      LockHandle(s, t, a, h);
    } else if OfEviction(a) {
      EvictionHandle(s, t, a, h);
    } else {
      InsertHandle(s, t, a, h);
    }
  }

  /** A handle appended to the list: no session can refer to it. */
  lemma {:induction false} NobodyKnows(pcs: seq<Pc>, n: nat)
    requires forall t :: 0 <= t < |pcs| ==> Token(pcs[t]) != Some(n) && pcs[t] != MustRecycle(n)
    ensures Tokens(pcs, n) == 0 && Recyclers(pcs, n) == 0
  {
    if pcs != [] { NobodyKnows(pcs[..|pcs| - 1], n); }
  }

  /** Only taking a handle when the bin is empty lengthens the list. */
  lemma Grows(s: State, t: Tid, a: Action)
    requires Enabled(s, t, a) && |Apply(s, t, a).handles| > |s.handles|
    ensures var n, s' := |s.handles|, Apply(s, t, a);
            && a.TakeHandle? && a.h == n && s.op.Some? && s'.pcs == s.pcs && s'.table == s.table && StageOf(s) == Ready && FreshOf(s) == NoHandle
            && s'.handles == s.handles + [Handle(0, 0, Flags(false, false, 0), 0, 0, 0)]
            && s'.op == Some(s.op.value.(prep := Taken(n), loose := Full(s, s.op.value.job)))
  {
    hide Apply, Enabled;
    if OfReader(a) {
      ReaderStep(s, t, a);
    } else if OfLock(a) {
      LockStep(s, t, a);
    } else if OfEviction(a) {
      EvictionStep(s, t, a);
    } else {
      InsertStep(s, t, a);
    }
  }

  lemma NewHandle(s: State, t: Tid, a: Action)
    requires Inv(s) && Enabled(s, t, a) && |Apply(s, t, a).handles| > |s.handles|
    ensures |Apply(s, t, a).handles| == |s.handles| + 1 && HandleFits(Apply(s, t, a), |s.handles|)
  {
    hide Apply, Enabled, Tokens, Recyclers;
    Grows(s, t, a);
    var n := |s.handles|;
    forall u | 0 <= u < |s.pcs| ensures Token(s.pcs[u]) != Some(n) && s.pcs[u] != MustRecycle(n) {
      assert PcFits(s.pcs[u], s.handles, OwnedBy(s, u));
    }
    NobodyKnows(s.pcs, n);
    hide Inv, Full;
  }

  // ---- Threads ----

  lemma KeyKeptByEviction(s: State, t: Tid, a: Action, h: Hid)
    requires Enabled(s, t, a) && OfEviction(a) && h < |s.handles| && Known(s, t, h) && s.handles[h].flags.refs > 0
    ensures h < |Apply(s, t, a).handles| && Apply(s, t, a).handles[h].key == s.handles[h].key && |s.handles| <= |Apply(s, t, a).handles|
  {
    hide Apply, Enabled, Tokens, ListingFits, PcFits;
    EvictionStep(s, t, a);
    hide Recyclers;
  }

  lemma KeyKeptByInsert(s: State, t: Tid, a: Action, h: Hid)
    requires Enabled(s, t, a) && !OfReader(a) && !OfLock(a) && !OfEviction(a)
    requires h < |s.handles| && Known(s, t, h) && s.handles[h].flags.refs > 0
    ensures h < |Apply(s, t, a).handles| && Apply(s, t, a).handles[h].key == s.handles[h].key && |s.handles| <= |Apply(s, t, a).handles|
  {
    hide Apply, Enabled, Tokens, ListingFits, PcFits;
    InsertStep(s, t, a);
    hide Recyclers;
  }

  /** A referenced handle keeps its key through every step. */
  lemma ReferencedKeepsKey(s: State, t: Tid, a: Action, u: Tid)
    requires Inv(s) && Enabled(s, t, a) && u < |s.pcs| && Token(s.pcs[u]).Some?
    ensures var h := Token(s.pcs[u]).value;
            h < |s.handles| <= |Apply(s, t, a).handles| && Apply(s, t, a).handles[h].key == s.handles[h].key
  {
    assert t < |s.pcs|;
    hide Apply, Enabled, Tokens, Recyclers;
    assert PcFits(s.pcs[u], s.handles, OwnedBy(s, u));
    var h := Token(s.pcs[u]).value;
    assert HandleFits(s, h);
    TokensUpdate(s.pcs, u, s.pcs[u], h);
    assert s.handles[h].flags.refs > 0;
    Knows(s, t, h);
    hide Inv, HandleFits, Known, Token;
    if OfReader(a) {
      ReaderTouchesCounts(s, t, a);
    } else if OfLock(a) {
      LockStep(s, t, a);
    } else if OfEviction(a) {
      KeyKeptByEviction(s, t, a, h);
    } else {
      KeyKeptByInsert(s, t, a, h);
    }
  }

  ghost predicate PcStaysFit(s: State, t: Tid, a: Action, u: Tid)
    requires Enabled(s, t, a)
  {
    var s' := Apply(s, t, a);
    u < |s'.pcs| == |s.pcs| && |s.handles| <= |s'.handles| && PcFits(s'.pcs[u], s'.handles, OwnedBy(s', u))
  }

  /** A step moves only its own thread and a session it hands a reference to; the mutex passes only from or to that thread. */
  lemma OthersUntouched(s: State, t: Tid, a: Action, u: Tid)
    requires Enabled(s, t, a) && u < |s.pcs| && u != t && !(Shares(s, t, a) && u == a.to)
    ensures var s' := Apply(s, t, a);
            |s'.pcs| == |s.pcs| && s'.pcs[u] == s.pcs[u] && (OwnedBy(s', u) <==> OwnedBy(s, u)) && |s.handles| <= |s'.handles|
  {
    hide Apply, Enabled;
    if OfReader(a) {
      ReaderStep(s, t, a);
    } else if OfLock(a) {
      LockStep(s, t, a);
    } else if OfEviction(a) {
      EvictionStep(s, t, a);
    } else {
      InsertStep(s, t, a);
    }
  }

  lemma OtherPcKept(s: State, t: Tid, a: Action, u: Tid)
    requires Inv(s) && Enabled(s, t, a) && u < |s.pcs| && u != t && !(Shares(s, t, a) && u == a.to)
    ensures PcStaysFit(s, t, a, u)
  {
    assert PcFits(s.pcs[u], s.handles, OwnedBy(s, u));
    if Token(s.pcs[u]).Some? { ReferencedKeepsKey(s, t, a, u); }
    OthersUntouched(s, t, a, u);
    hide Inv, Apply, Enabled, OwnedBy;
  }

  lemma SharedPcKept(s: State, t: Tid, a: Action)
    requires Inv(s) && Enabled(s, t, a) && Shares(s, t, a)
    ensures PcStaysFit(s, t, a, a.to)
  {
    hide Apply, Enabled;
    ReaderStep(s, t, a);
    assert PcFits(s.pcs[t], s.handles, OwnedBy(s, t)) && PcFits(s.pcs[a.to], s.handles, OwnedBy(s, a.to));
    hide Inv, HandleFits, ListingFits, OpFits;
  }

  lemma ReaderPcKept(s: State, t: Tid, a: Action)
    requires Inv(s) && Enabled(s, t, a) && OfReader(a)
    ensures PcStaysFit(s, t, a, t)
  {
    hide Apply, Enabled, HandleFits, ListingFits, OpFits, Charged;
    ReaderStep(s, t, a);
    assert PcFits(s.pcs[t], s.handles, OwnedBy(s, t));
    assert a.Find? && a.key in s.table ==> EntryFits(s, a.key);
    hide Inv;
  }

  lemma OwnerPcKept(s: State, t: Tid, a: Action)
    requires Inv(s) && Enabled(s, t, a) && !OfReader(a)
    ensures PcStaysFit(s, t, a, t)
  {
    hide Apply, Enabled, HandleFits, ListingFits, Charged, Full;
    if OfLock(a) {
      LockStep(s, t, a);
    } else if OfEviction(a) {
      EvictionStep(s, t, a);
    } else {
      InsertStep(s, t, a);
    }
    assert PcFits(s.pcs[t], s.handles, OwnedBy(s, t)) && OpFits(s);
    hide Inv, HandleFits, ListingFits;
  }

  lemma PcKept(s: State, t: Tid, a: Action, u: Tid)
    requires Inv(s) && Enabled(s, t, a) && u < |s.pcs|
    ensures PcStaysFit(s, t, a, u)
  {
    hide Apply, Enabled;
    hide Inv, PcStaysFit;
    if u != t && Shares(s, t, a) && u == a.to {
      SharedPcKept(s, t, a);
    } else if u != t {
      OtherPcKept(s, t, a, u);
    } else if OfReader(a) {
      ReaderPcKept(s, t, a);
    } else {
      OwnerPcKept(s, t, a);
    }
  }

  // ---- The mutex holder ----

  lemma OpFacts(s: State, t: Tid)
    requires Inv(s) && t < |s.pcs|
    ensures OpFits(s) && PcFits(s.pcs[t], s.handles, OwnedBy(s, t))
    ensures StageOf(s) != Ready ==> StageOf(s).h < |s.handles| && HandleFits(s, StageOf(s).h)
    ensures FreshOf(s) != NoHandle ==> FreshOf(s).h < |s.handles| && HandleFits(s, FreshOf(s).h)
  {
    hide HandleFits, ListingFits, PcFits;
  }

  lemma OpKeptByReader(s: State, t: Tid, a: Action)
    requires Inv(s) && Enabled(s, t, a) && OfReader(a)
    ensures OpFits(Apply(s, t, a))
  {
    hide Apply, Enabled;
    assert OpFits(s);
    ReaderTouchesCounts(s, t, a);
    hide Inv, Apply, Enabled;
  }

  lemma OpKeptByLock(s: State, t: Tid, a: Action)
    requires Inv(s) && Enabled(s, t, a) && OfLock(a)
    ensures OpFits(Apply(s, t, a))
  {
    hide Apply, Enabled;
    LockStep(s, t, a);
    OpFacts(s, t);
    hide Inv, HandleFits;
  }

  lemma OpKeptByEviction(s: State, t: Tid, a: Action)
    requires Inv(s) && Enabled(s, t, a) && OfEviction(a)
    ensures OpFits(Apply(s, t, a))
  {
    hide Apply, Enabled;
    EvictionStep(s, t, a);
    OpFacts(s, t);
    hide Inv, Tokens, Recyclers;
  }

  lemma OpKeptByInsert(s: State, t: Tid, a: Action)
    requires Inv(s) && Enabled(s, t, a) && !OfReader(a) && !OfLock(a) && !OfEviction(a)
    ensures OpFits(Apply(s, t, a))
  {
    hide Apply, Enabled;
    InsertStep(s, t, a);
    OpFacts(s, t);
    if a.EraseExisting? {
      assert EntryFits(s, s.op.value.job.key);
      Knows(s, t, s.table[s.op.value.job.key]);
    }
    if FreshOf(s) != NoHandle { Knows(s, t, FreshOf(s).h); }
    hide Inv, Tokens, Recyclers;
  }

  lemma OpKept(s: State, t: Tid, a: Action)
    requires Inv(s) && Enabled(s, t, a)
    ensures OpFits(Apply(s, t, a))
  {
    hide Apply, Enabled;
    hide Inv, OpFits;
    if OfReader(a) {
      OpKeptByReader(s, t, a);
    } else if OfLock(a) {
      OpKeptByLock(s, t, a);
    } else if OfEviction(a) {
      OpKeptByEviction(s, t, a);
    } else {
      OpKeptByInsert(s, t, a);
    }
  }

  // ---- The table ----

  /** An entry that stays in the table stays right; only the eviction of its handle takes the in-cache bit first. */
  lemma OldEntryKept(s: State, t: Tid, a: Action, k: CacheKey)
    requires Inv(s) && Enabled(s, t, a) && k in s.table && k in Apply(s, t, a).table && !a.Publish? && !OfReader(a)
    ensures EntryFits(Apply(s, t, a), k)
  {
    hide Apply, Enabled, Tokens, Recyclers, Charged, PcFits, Full;
    if OfLock(a) {
      LockStep(s, t, a);
    } else if OfEviction(a) {
      EvictionStep(s, t, a);
    } else {
      InsertStep(s, t, a);
    }
    assert EntryFits(s, k);
    Knows(s, t, s.table[k]);
    hide Inv, Tokens, Recyclers;
  }

  lemma TableShrinks(s: State, t: Tid, a: Action, k: CacheKey)
    requires Enabled(s, t, a) && !a.Publish? && k in Apply(s, t, a).table
    ensures k in s.table
  {
    hide Apply, Enabled;
    if OfReader(a) {
      ReaderStep(s, t, a);
    } else if OfLock(a) {
      LockStep(s, t, a);
    } else if OfEviction(a) {
      EvictionStep(s, t, a);
    } else {
      InsertStep(s, t, a);
    }
  }

  lemma PublishedEntry(s: State, t: Tid, k: CacheKey)
    requires Inv(s) && Enabled(s, t, Publish) && k in Apply(s, t, Publish).table
    ensures EntryFits(Apply(s, t, Publish), k)
  {
    hide Apply, Enabled, Tokens, Recyclers, Charged, PcFits;
    InsertStep(s, t, Publish);
    if k in s.table { assert EntryFits(s, k); }
    assert OpFits(s);
    hide Inv;
  }

  lemma EntryKept(s: State, t: Tid, a: Action, k: CacheKey)
    requires Inv(s) && Enabled(s, t, a) && k in Apply(s, t, a).table
    ensures EntryFits(Apply(s, t, a), k)
  {
    hide Apply, Enabled;
    if a.Publish? {
      PublishedEntry(s, t, k);
    } else if OfReader(a) {
      ReaderTouchesCounts(s, t, a);
      assert EntryFits(s, k);
      hide Inv;
    } else {
      TableShrinks(s, t, a, k);
      OldEntryKept(s, t, a, k);
    }
  }

  /** What the table says about a handle's key and about the key being inserted. */
  lemma ListingFacts(s: State, t: Tid, h: Hid)
    requires Inv(s) && t < |s.pcs| && h < |s.handles|
    ensures OpFits(s) && PcFits(s.pcs[t], s.handles, OwnedBy(s, t)) && ListingFits(s, h)
    ensures s.handles[h].key in s.table ==> EntryFits(s, s.handles[h].key)
    ensures s.op.Some? && (s.op.value.job.InsertJob? || s.op.value.job.EraseJob?) && s.op.value.job.key in s.table ==>
              EntryFits(s, s.op.value.job.key)
    ensures Unstored(s, h) || s.handles[h].inBin == 1 ==> !s.handles[h].flags.inCache
    ensures StageOf(s) != Ready && StageOf(s).h < |s.handles| ==> ListingFits(s, StageOf(s).h)
    ensures (StageOf(s).Recycling? || StageOf(s).Evicted?) && StageOf(s).h < |s.handles| ==> !s.handles[StageOf(s).h].flags.inCache
  {
    assert HandleFits(s, h);
    if StageOf(s) != Ready && StageOf(s).h < |s.handles| { assert HandleFits(s, StageOf(s).h); }
    hide PcFits, ListingFits, EntryFits, OpFits, Tokens, Recyclers;
  }

  lemma ReaderListing(s: State, t: Tid, a: Action, h: Hid)
    requires Inv(s) && Enabled(s, t, a) && h < |s.handles| && OfReader(a)
    ensures h < |Apply(s, t, a).handles| && ListingFits(Apply(s, t, a), h)
  {
    hide Apply, Enabled;
    assert ListingFits(s, h);
    ReaderTouchesCounts(s, t, a);
    hide Inv, Apply, Enabled;
  }

  lemma LockListing(s: State, t: Tid, a: Action, h: Hid)
    requires Inv(s) && Enabled(s, t, a) && h < |s.handles| && OfLock(a)
    ensures h < |Apply(s, t, a).handles| && ListingFits(Apply(s, t, a), h)
  {
    hide Apply, Enabled;
    LockStep(s, t, a);
    ListingFacts(s, t, h);
    hide Inv, HandleFits;
  }

  lemma EvictionListing(s: State, t: Tid, a: Action, h: Hid)
    requires Inv(s) && Enabled(s, t, a) && h < |s.handles| && OfEviction(a)
    ensures h < |Apply(s, t, a).handles| && ListingFits(Apply(s, t, a), h)
  {
    hide Apply, Enabled;
    EvictionStep(s, t, a);
    ListingFacts(s, t, h);
    hide Inv, HandleFits;
  }

  lemma InsertListing(s: State, t: Tid, a: Action, h: Hid)
    requires Inv(s) && Enabled(s, t, a) && h < |s.handles| && !OfReader(a) && !OfLock(a) && !OfEviction(a)
    ensures h < |Apply(s, t, a).handles| && ListingFits(Apply(s, t, a), h)
  {
    hide Apply, Enabled;
    InsertStep(s, t, a);
    ListingFacts(s, t, h);
    hide Inv, HandleFits;
  }

  lemma NewListing(s: State, t: Tid, a: Action)
    requires Inv(s) && Enabled(s, t, a) && |Apply(s, t, a).handles| > |s.handles|
    ensures |Apply(s, t, a).handles| == |s.handles| + 1 && ListingFits(Apply(s, t, a), |s.handles|)
  {
    hide Apply, Enabled, HandleFits;
    Grows(s, t, a);
    assert OpFits(s);
    forall k | k in s.table ensures s.table[k] != |s.handles| { assert EntryFits(s, k); }
    hide Inv, Full;
  }

  lemma ListingKept(s: State, t: Tid, a: Action, h: Hid)
    requires Inv(s) && Enabled(s, t, a) && h < |Apply(s, t, a).handles|
    ensures ListingFits(Apply(s, t, a), h)
  {
    hide Apply, Enabled, Inv, ListingFits;
    if h >= |s.handles| {
      NewListing(s, t, a);
    } else if OfReader(a) {
      ReaderListing(s, t, a, h);
    } else if OfLock(a) {
      LockListing(s, t, a, h);
    } else if OfEviction(a) {
      EvictionListing(s, t, a, h);
    } else {
      InsertListing(s, t, a, h);
    }
  }

  // ---- Usage ----

  ghost predicate UsageFits(s: State) { s.usage == Charged(s.handles, FreshHandle(s)) }

  lemma UsageByReader(s: State, t: Tid, a: Action)
    requires Inv(s) && Enabled(s, t, a) && (OfReader(a) || OfLock(a))
    ensures UsageFits(Apply(s, t, a))
  {
    hide Apply, Enabled;
    if OfReader(a) { ReaderStep(s, t, a); } else { LockStep(s, t, a); }
    assert UsageFits(s);
    if a.SetUsage? || a.FetchSub? || Shares(s, t, a) || (a.TryCas? && s.pcs[t].seen.inCache && s.pcs[t].seen == s.handles[s.pcs[t].h].flags) {
      UsageUpdate(s, Apply(s, t, a), s.pcs[t].h);
    }
    hide Inv, Charged;
  }

  lemma UsageByEviction(s: State, t: Tid, a: Action)
    requires Inv(s) && Enabled(s, t, a) && OfEviction(a)
    ensures UsageFits(Apply(s, t, a))
  {
    hide Apply, Enabled;
    EvictionStep(s, t, a);
    assert UsageFits(s) && OpFits(s);
    if a.TryEvict? {
      UsageUpdate(s, Apply(s, t, a), a.h);
    } else if a.ClearNext? {
      UsageUpdate(s, Apply(s, t, a), s.op.value.job.next);
    } else if !a.EraseEvicted? {
      Knows(s, t, StageOf(s).h);
      UsageUpdate(s, Apply(s, t, a), StageOf(s).h);
    }
    hide Inv, Charged, Tokens, Recyclers, ListingFits;
  }

  lemma UsageByTake(s: State, t: Tid, a: Action)
    requires Inv(s) && Enabled(s, t, a) && a.TakeHandle?
    ensures UsageFits(Apply(s, t, a))
  {
    hide Apply, Enabled;
    InsertStep(s, t, a);
    var s' := Apply(s, t, a);
    assert UsageFits(s) && FreshHandle(s) == None && FreshHandle(s') == Some(a.h) && s'.usage == s.usage;
    if a.h < |s.handles| {
      assert HandleFits(s, a.h) && s.handles[a.h].inBin == 1;
      assert s'.handles == s.handles[a.h := s'.handles[a.h]];
      hide Inv, Apply, Enabled, HandleFits, Charged;
      UsageUpdate(s, s', a.h);
    } else {
      assert s'.handles[..|s.handles|] == s.handles && |s'.handles| == |s.handles| + 1 && s'.handles[|s.handles|].charge == 0;
      hide Inv, Apply, Enabled;
      ChargedSame(s.handles, FreshHandle(s), FreshHandle(s'));
    }
  }

  lemma UsageByInsert(s: State, t: Tid, a: Action)
    requires Inv(s) && Enabled(s, t, a) && !OfReader(a) && !OfLock(a) && !OfEviction(a) && !a.TakeHandle?
    ensures UsageFits(Apply(s, t, a))
  {
    hide Apply, Enabled;
    InsertStep(s, t, a);
    var s' := Apply(s, t, a);
    assert UsageFits(s) && OpFits(s);
    if a.Publish? {
      Knows(s, t, FreshOf(s).h);
      hide Inv, Charged, Tokens, Recyclers, ListingFits;
      assert s.handles == s.handles[FreshOf(s).h := s.handles[FreshOf(s).h]];
      ChargedUpdate(s.handles, FreshHandle(s), FreshOf(s).h, s.handles[FreshOf(s).h], None);
    } else if !a.EraseExisting? {
      Knows(s, t, FreshOf(s).h);
      hide Inv, Charged, Tokens, Recyclers, ListingFits;
      UsageUpdate(s, s', FreshOf(s).h);
    }
  }

  lemma UsageUpdate(s: State, s': State, h: Hid)
    requires h < |s.handles| == |s'.handles| && s'.handles == s.handles[h := s'.handles[h]]
    requires forall i :: 0 <= i < |s.handles| && i != h ==> (FreshHandle(s) == Some(i) <==> FreshHandle(s') == Some(i))
    ensures Charged(s'.handles, FreshHandle(s')) + Cost(s.handles[h], FreshHandle(s) == Some(h)) ==
            Charged(s.handles, FreshHandle(s)) + Cost(s'.handles[h], FreshHandle(s') == Some(h))
  {
    ChargedUpdate(s.handles, FreshHandle(s), h, s'.handles[h], FreshHandle(s'));
  }

  lemma StepKeepsInv(s: State, t: Tid, a: Action)
    requires Inv(s) && Enabled(s, t, a)
    ensures Inv(Apply(s, t, a))
  {
    assert t < |s.pcs|;
    hide HandleFits, ListingFits, EntryFits, PcFits, OpFits, Apply, Enabled, Charged;
    var s' := Apply(s, t, a);
    OpKept(s, t, a);
    forall h | 0 <= h < |s'.handles| ensures HandleFits(s', h) && ListingFits(s', h) {
      HandleKept(s, t, a, h);
      ListingKept(s, t, a, h);
    }
    PcKept(s, t, a, t);
    forall u | 0 <= u < |s'.pcs| ensures PcFits(s'.pcs[u], s'.handles, OwnedBy(s', u)) { PcKept(s, t, a, u); }
    forall k | k in s'.table ensures EntryFits(s', k) { EntryKept(s, t, a, k); }
    if OfReader(a) || OfLock(a) {
      UsageByReader(s, t, a);
    } else if OfEviction(a) {
      UsageByEviction(s, t, a);
    } else if a.TakeHandle? {
      UsageByTake(s, t, a);
    } else {
      UsageByInsert(s, t, a);
    }
  }

  // ---- Whole runs ----

  predicate Initial(s: State) {
    s.handles == [] && s.table == map[] && s.usage == 0 && s.op == None && forall t :: 0 <= t < |s.pcs| ==> s.pcs[t] == Idle
  }

  ghost predicate Reaches(s: State, run: seq<(Tid, Action)>, end: State)
    decreases |run|
  {
    if run == [] then s == end
    else Enabled(s, run[0].0, run[0].1) && Reaches(Apply(s, run[0].0, run[0].1), run[1..], end)
  }

  /** A handle is recycled at most once per fill, listed in the bin at most once, and only when it is out of
      cache with nobody holding it; until then exactly one agent owes it to the bin. */
  ghost predicate SafeHandle(s: State, h: Hid)
    requires h < |s.handles|
  {
    var x := s.handles[h];
    && x.recycles <= x.fills <= x.recycles + 1 && x.inBin <= 1
    && (x.inBin == 1 ==> !x.flags.inCache && x.flags.refs == 0 && Tokens(s.pcs, h) == 0 && x.fills == x.recycles)
    && (s.op == None ==> x.flags.refs == Tokens(s.pcs, h) && Recyclers(s.pcs, h) == One(Owed(s, h)))
  }

  /** A lookup result stays the entry it was looked up as, for as long as it is held. */
  predicate SafeHold(s: State, t: Tid)
    requires t < |s.pcs|
  {
    s.pcs[t].Held? ==>
      var h := s.pcs[t].h;
      h < |s.handles| && s.handles[h].key == s.pcs[t].key && s.handles[h].inBin == 0 && s.handles[h].flags.refs > 0
  }

  /** Whenever the mutex is free, the table lists exactly the handles in cache under their keys, and usage is
      the total charge of the handles outside the bin. */
  ghost predicate Tidy(s: State) {
    && (forall k, h: Hid :: Lists(s, k, h) <==> h < |s.handles| && s.handles[h].flags.inCache && s.handles[h].key == k)
    && s.usage == Charged(s.handles, None)
  }

  ghost predicate Safe(s: State) {
    && (forall h :: 0 <= h < |s.handles| ==> SafeHandle(s, h))
    && (forall t :: 0 <= t < |s.pcs| ==> SafeHold(s, t))
    && (s.op == None ==> Tidy(s))
  }

  lemma InvIsSafe(s: State)
    requires Inv(s)
    ensures Safe(s)
  {
    forall h | 0 <= h < |s.handles| ensures SafeHandle(s, h) { assert HandleFits(s, h); }
    forall t | 0 <= t < |s.pcs| ensures SafeHold(s, t) {
      assert PcFits(s.pcs[t], s.handles, OwnedBy(s, t));
      if s.pcs[t].Held? {
        assert HandleFits(s, s.pcs[t].h);
        TokensUpdate(s.pcs, t, s.pcs[t], s.pcs[t].h);
      }
    }
    if s.op == None {
      forall k, h: Hid ensures Lists(s, k, h) <==> h < |s.handles| && s.handles[h].flags.inCache && s.handles[h].key == k {
        if k in s.table { assert EntryFits(s, k); }
        if h < |s.handles| { assert ListingFits(s, h); }
      }
    }
  }

  lemma {:induction false} RunKeepsInv(s: State, run: seq<(Tid, Action)>, end: State)
    requires Inv(s) && Reaches(s, run, end)
    ensures Inv(end)
    decreases |run|
  {
    hide Inv, Apply, Enabled;
    if run != [] {
      StepKeepsInv(s, run[0].0, run[0].1);
      RunKeepsInv(Apply(s, run[0].0, run[0].1), run[1..], end);
    }
  }

  /** Every interleaving of lookups, releases, insertions, evictions and erasures is safe. */
  lemma EveryRunSafe(s: State, run: seq<(Tid, Action)>, end: State)
    requires Initial(s) && Reaches(s, run, end)
    ensures Safe(end)
  {
    RunKeepsInv(s, run, end);
    InvIsSafe(end);
  }

  /** A count is positive before it drops, an evicted entry is still in the table, a recycled handle is out of
      cache, unreferenced and not in the bin, and usage covers its charge. */
  ghost predicate AssertionsHold(s: State, t: Tid)
    requires t < |s.pcs|
  {
    && (s.pcs[t].Unrefing? ==> s.pcs[t].h < |s.handles| && s.handles[s.pcs[t].h].flags.refs > 0)
    && (StageOf(s).Evicted? ==> StageOf(s).h < |s.handles| && Lists(s, s.handles[StageOf(s).h].key, StageOf(s).h))
    && (StageOf(s).Recycling? ==>
          && StageOf(s).h < |s.handles|
          && var x := s.handles[StageOf(s).h];
             !x.flags.inCache && x.flags.refs == 0 && x.inBin == 0 && x.fills == x.recycles + 1 && x.charge <= s.usage)
  }

  lemma InvImpliesAssertions(s: State, t: Tid)
    requires Inv(s) && t < |s.pcs|
    ensures AssertionsHold(s, t)
  {
    assert PcFits(s.pcs[t], s.handles, OwnedBy(s, t)) && OpFits(s);
    if s.pcs[t].Unrefing? {
      assert HandleFits(s, s.pcs[t].h);
      TokensUpdate(s.pcs, t, s.pcs[t], s.pcs[t].h);
    }
    if StageOf(s) != Ready {
      Knows(s, t, StageOf(s).h);
      ChargedUpdate(s.handles, FreshHandle(s), StageOf(s).h, s.handles[StageOf(s).h], FreshHandle(s));
    }
  }

  /** The assertions of the source hold after every run. */
  lemma SourceAssertionsHold(s: State, run: seq<(Tid, Action)>, end: State, t: Tid)
    requires Initial(s) && Reaches(s, run, end) && t < |end.pcs|
    ensures AssertionsHold(end, t)
  {
    RunKeepsInv(s, run, end);
    InvImpliesAssertions(end, t);
  }

  // ---- Capacity ----

  /** An insertion that is under way has found room, or may do without because its caller keeps the handle. */
  predicate LimitFits(s: State) {
    s.op.Some? && s.op.value.prep != NoHandle ==>
      var op := s.op.value;
      op.job.InsertJob? && (if op.loose then op.job.hold else s.usage + op.job.charge <= s.capacity)
  }

  lemma LimitKept(s: State, t: Tid, a: Action)
    requires Enabled(s, t, a) && LimitFits(s)
    ensures LimitFits(Apply(s, t, a))
  {
    hide Apply, Enabled;
    if OfReader(a) {
      ReaderTouchesCounts(s, t, a);
      ReaderKeepsCapacity(s, t, a);
    } else if OfLock(a) {
      LockStep(s, t, a);
    } else if OfEviction(a) {
      EvictionStep(s, t, a);
    } else {
      InsertStep(s, t, a);
    }
  }

  lemma ReaderKeepsCapacity(s: State, t: Tid, a: Action)
    requires Enabled(s, t, a) && OfReader(a)
    ensures Apply(s, t, a).capacity == s.capacity
  {
    hide Apply, Enabled;
    ReaderStep(s, t, a);
  }

  /** While usage is within capacity, only publishing an entry that found no room, or lowering the capacity below the
      usage, lifts it above. */
  lemma OnlyTwoWays(s: State, t: Tid, a: Action)
    requires Enabled(s, t, a) && LimitFits(s) && s.usage <= s.capacity
    ensures var s' := Apply(s, t, a);
            s'.usage > s'.capacity ==> (a.Publish? && s.op.Some? && s.op.value.loose) || (a.LockResize? && a.capacity < s.usage)
  {
    hide Apply, Enabled;
    if OfReader(a) {
      ReaderTouchesCounts(s, t, a);
      ReaderKeepsCapacity(s, t, a);
    } else if OfLock(a) {
      LockStep(s, t, a);
    } else if OfEviction(a) {
      EvictionStep(s, t, a);
    } else {
      InsertStep(s, t, a);
    }
  }

  lemma {:induction false} RunKeepsLimit(s: State, run: seq<(Tid, Action)>, end: State)
    requires LimitFits(s) && Reaches(s, run, end)
    ensures LimitFits(end)
    decreases |run|
  {
    hide LimitFits, Apply, Enabled;
    if run != [] {
      LimitKept(s, run[0].0, run[0].1);
      RunKeepsLimit(Apply(s, run[0].0, run[0].1), run[1..], end);
    }
  }

  /** Whatever happened before, an insertion that found room, or whose caller keeps no handle, ends within capacity. */
  lemma InsertEndsWithin(s: State, run: seq<(Tid, Action)>, end: State, t: Tid)
    requires Initial(s) && Reaches(s, run, end) && Enabled(end, t, Publish)
    ensures end.op.Some? && end.op.value.job.InsertJob?
    ensures !end.op.value.job.hold || !end.op.value.loose ==> Apply(end, t, Publish).usage <= Apply(end, t, Publish).capacity
  {
    RunKeepsLimit(s, run, end);
    hide Reaches, Apply, Enabled;
    InsertStep(end, t, Publish);
  }

  /** Insertions take a handle only under the strict limit or for callers that keep none, and no capacity is set below
      the usage. */
  ghost predicate Careful(s: State, run: seq<(Tid, Action)>)
    decreases |run|
  {
    run != [] && Enabled(s, run[0].0, run[0].1) ==>
      var a := run[0].1;
      && (a.TakeHandle? ==> s.strict || (s.op.Some? && s.op.value.job.InsertJob? && !s.op.value.job.hold))
      && (a.LockResize? ==> s.usage <= a.capacity)
      && Careful(Apply(s, run[0].0, a), run[1..])
  }

  predicate Tight(s: State) { s.op.Some? ==> !s.op.value.loose }

  lemma TightKept(s: State, t: Tid, a: Action)
    requires Enabled(s, t, a) && Tight(s)
    requires a.TakeHandle? ==> s.strict || (s.op.Some? && s.op.value.job.InsertJob? && !s.op.value.job.hold)
    ensures Tight(Apply(s, t, a))
  {
    hide Apply, Enabled;
    if OfReader(a) {
      ReaderTouchesCounts(s, t, a);
    } else if OfLock(a) {
      LockStep(s, t, a);
    } else if OfEviction(a) {
      EvictionStep(s, t, a);
    } else {
      InsertStep(s, t, a);
    }
  }

  lemma {:induction false} WithinFrom(s: State, run: seq<(Tid, Action)>, end: State)
    requires LimitFits(s) && Tight(s) && s.usage <= s.capacity && Reaches(s, run, end) && Careful(s, run)
    ensures end.usage <= end.capacity
    decreases |run|
  {
    hide LimitFits, Apply, Enabled;
    if run != [] {
      var t, a := run[0].0, run[0].1;
      LimitKept(s, t, a);
      TightKept(s, t, a);
      OnlyTwoWays(s, t, a);
      WithinFrom(Apply(s, t, a), run[1..], end);
    }
  }

  /** Under the strict limit usage never exceeds capacity, not even for a moment. */
  lemma StrictLimitHolds(s: State, run: seq<(Tid, Action)>, end: State)
    requires Initial(s) && Reaches(s, run, end) && Careful(s, run)
    ensures end.usage <= end.capacity
  {
    WithinFrom(s, run, end);
  }

  /** One session inserts key 7 into an empty cache and keeps the handle. */
  function Inserting(capacity: nat, charge: nat, handles: seq<Handle>, prep: Fresh): State {
    State(handles, map[], 0, capacity, false, [Locked], Some(Op(0, InsertJob(7, charge, true), Ready, prep, prep != NoHandle)))
  }

  function NewEntry(charge: nat, flags: Flags): Handle { Handle(7, charge, flags, 0, 1, 0) }

  const BLANK := Handle(0, 0, Flags(false, false, 0), 0, 0, 0)

  lemma Prepend(s: State, t: Tid, a: Action, s': State, run: seq<(Tid, Action)>, end: State) returns (longer: seq<(Tid, Action)>)
    requires Enabled(s, t, a) && Apply(s, t, a) == s' && Reaches(s', run, end)
    ensures Reaches(s, longer, end)
  {
    longer := [(t, a)] + run;
    assert longer[1..] == run;
    hide Apply, Enabled;
  }

  lemma TakesAndFills(capacity: nat, charge: nat)
    requires charge > capacity
    ensures var s, s' := Inserting(capacity, charge, [], NoHandle), Inserting(capacity, charge, [BLANK], Taken(0));
            Enabled(s, 0, TakeHandle(0)) && Apply(s, 0, TakeHandle(0)) == s'
    ensures var s, s' := Inserting(capacity, charge, [BLANK], Taken(0)), Inserting(capacity, charge, [NewEntry(charge, BLANK.flags)], Filled(0));
            Enabled(s, 0, Fill) && Apply(s, 0, Fill) == s'
  {
  }

  lemma StoresAndPublishes(capacity: nat, charge: nat)
    requires charge > capacity
    ensures var s := Inserting(capacity, charge, [NewEntry(charge, BLANK.flags)], Filled(0));
            var s' := Inserting(capacity, charge, [NewEntry(charge, Flags(true, false, 1))], Stored(0));
            Enabled(s, 0, Store) && Apply(s, 0, Store) == s'
    ensures var s := Inserting(capacity, charge, [NewEntry(charge, Flags(true, false, 1))], Stored(0));
            var s' := State(s.handles, map[7 := 0], charge, capacity, false, [Held(7, 0)], None);
            Enabled(s, 0, Publish) && Apply(s, 0, Publish) == s'
  {
  }

  /** Without it, one insertion whose caller keeps the handle is enough to exceed any capacity below its charge. */
  lemma HeldInsertMayExceed(capacity: nat, charge: nat) returns (s: State, run: seq<(Tid, Action)>, end: State)
    requires charge > capacity
    ensures Initial(s) && s.capacity == capacity && !s.strict && Reaches(s, run, end)
    ensures end.usage == charge && end.capacity == capacity && end.op == None && end.pcs == [Held(7, 0)]
  {
    s := State([], map[], 0, capacity, false, [Idle], None);
    var s1 := Inserting(capacity, charge, [], NoHandle);
    assert Enabled(s, 0, LockInsert(7, charge, true)) && Apply(s, 0, LockInsert(7, charge, true)) == s1;
    hide Apply, Enabled;
    var s2 := Inserting(capacity, charge, [BLANK], Taken(0));
    var s3 := Inserting(capacity, charge, [NewEntry(charge, BLANK.flags)], Filled(0));
    var s4 := Inserting(capacity, charge, [NewEntry(charge, Flags(true, false, 1))], Stored(0));
    end := State(s4.handles, map[7 := 0], charge, capacity, false, [Held(7, 0)], None);
    TakesAndFills(capacity, charge);
    StoresAndPublishes(capacity, charge);
    run := [];
    assert Reaches(end, run, end);
    hide Reaches;
    run := Prepend(s4, 0, Publish, end, run, end);
    run := Prepend(s3, 0, Store, s4, run, end);
    run := Prepend(s2, 0, Fill, s3, run, end);
    run := Prepend(s1, 0, TakeHandle(0), s2, run, end);
    run := Prepend(s, 0, LockInsert(7, charge, true), s1, run, end);
  }
}
