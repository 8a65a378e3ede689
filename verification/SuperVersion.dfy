/** SuperVersions cached in thread-local slots: readers swap and compare-and-swap their slot, an installer
    scrapes all slots, and a reference count decides who cleans up.  Every atomic operation is one step. */
module SuperVersion {
  import opened Records

  type Tid = nat

  /** A SuperVersion is named by its version number; the newest one is current. */
  type Sv = nat

  /** `refs` is the atomic count and `cleanups` how often Cleanup ran.  Beside them: how many references
      GetReferencedSuperVersion has handed out, and how often the installer's list of scraped pointers
      names this version. */
  datatype Info = Info(refs: nat, cleanups: nat, tickets: nat, scraped: nat)

  /** A thread-local slot: kSVObsolete, kSVInUse or a cached SuperVersion. */
  datatype Slot = Obsolete | InUse | Cached(sv: Sv)

  /** Where a thread is.  `clean` is a SuperVersion whose last reference this thread dropped; `get` says
      that the thread is inside GetThreadLocalSuperVersion; `extra` that it took a second reference in
      GetReferencedSuperVersion. */
  datatype Pc =
    | Idle
    | Swapped(got: Option<Sv>)
    | Stale(sv: Sv)
    | WantLock(clean: Option<Sv>, get: bool)
    | HasLock(clean: Option<Sv>, get: bool)
    | HasRef(sv: Sv)
    | Using(sv: Sv, extra: bool)
    | DropIgnored(sv: Sv)
    | Handing(sv: Sv)
    | Dropping(sv: Sv)
    | Installing

  datatype Thread = Thread(slot: Slot, pc: Pc)

  /** An install after publication: the superseded version and the slots not scraped yet. */
  datatype Install = Install(prior: Option<Sv>, pending: set<Tid>)

  datatype State = State(
    svs: seq<Info>,
    threads: seq<Thread>,
    mutex: Option<Tid>,
    install: Option<Install>)

  datatype Action =
    | Swap | Check | UnrefStale
    | Lock | Clean | RefCurrent | Unlock
    | AddRef | Return | UnrefIgnored | HandOut
    | Unref | Release(ticket: Sv) | Exit
    | BeginInstall | Publish | Scrape(target: Tid) | UnrefScraped(sv: Sv) | UnrefPrior | EndInstall

  function Current(s: State): int { |s.svs| - 1 }

  predicate Held(s: State, sv: Sv) { sv < |s.svs| && s.svs[sv].refs > 0 }

  predicate ListEmpty(s: State) {
    forall sv :: 0 <= sv < |s.svs| ==> s.svs[sv].scraped == 0
  }

  predicate Enabled(s: State, t: Tid, a: Action) {
    t < |s.threads| && |s.svs| > 0 &&
    var pc := s.threads[t].pc;
    match a
    case Swap => pc == Idle
    case Check => pc.Swapped?
    case UnrefStale => pc.Stale? && Held(s, pc.sv)
    case Lock => pc.WantLock? && s.mutex == None
    case Clean => pc.HasLock? && pc.clean.Some? && pc.clean.value < |s.svs|
    case RefCurrent => pc == HasLock(None, true)
    case Unlock => pc == HasLock(None, false) || pc.HasRef?
    case AddRef => pc.Using? && !pc.extra && pc.sv < |s.svs|
    case Return => pc.Using?
    case UnrefIgnored => pc.DropIgnored? && Held(s, pc.sv)
    case HandOut => pc.Handing? && pc.sv < |s.svs|
    case Unref => pc.Dropping? && Held(s, pc.sv)
    case Release(sv) => pc == Idle && sv < |s.svs| && s.svs[sv].tickets > 0
    case Exit => pc == Idle && s.threads[t].slot.Cached?
    case BeginInstall => pc == Idle && s.mutex == None
    case Publish => pc == Installing && s.install == None
    case Scrape(u) =>
      && pc == Installing && s.install.Some? && u in s.install.value.pending && u < |s.threads|
      && (s.threads[u].slot.Cached? ==> s.threads[u].slot.sv < |s.svs|)
    case UnrefScraped(sv) =>
      pc == Installing && s.install.Some? && s.install.value.pending == {} && Held(s, sv) && s.svs[sv].scraped > 0
    case UnrefPrior =>
      && pc == Installing && s.install.Some? && s.install.value.pending == {} && ListEmpty(s)
      && s.install.value.prior.Some? && Held(s, s.install.value.prior.value)
    case EndInstall => pc == Installing && s.install == Some(Install(None, {})) && ListEmpty(s)
  }

  function AllTids(n: nat): (tids: set<Tid>)
    ensures forall u :: u in tids <==> 0 <= u < n
  {
    if n == 0 then {} else AllTids(n - 1) + {n - 1}
  }

  function At(s: State, t: Tid, pc: Pc): State
    requires t < |s.threads|
  {
    s.(threads := s.threads[t := s.threads[t].(pc := pc)])
  }

  function Set(s: State, sv: Sv, i: Info): State
    requires sv < |s.svs|
  {
    s.(svs := s.svs[sv := i])
  }

  function Plus(s: State, sv: Sv): State
    requires sv < |s.svs|
  {
    Set(s, sv, s.svs[sv].(refs := s.svs[sv].refs + 1))
  }

  function Minus(s: State, sv: Sv): State
    requires Held(s, sv)
  {
    Set(s, sv, s.svs[sv].(refs := s.svs[sv].refs - 1))
  }

  function Cleaned(s: State, sv: Sv): State
    requires sv < |s.svs|
  {
    Set(s, sv, s.svs[sv].(cleanups := s.svs[sv].cleanups + 1))
  }

  /** SuperVersion::Unref says whether this was the last reference. */
  predicate Last(s: State, sv: Sv)
    requires sv < |s.svs|
  {
    s.svs[sv].refs == 1
  }

  /** The installer holds the mutex, so it cleans up in place. */
  function DropInPlace(s: State, sv: Sv): State
    requires Held(s, sv)
  {
    if Last(s, sv) then Cleaned(Minus(s, sv), sv) else Minus(s, sv)
  }

  function Apply(s: State, t: Tid, a: Action): State
    requires Enabled(s, t, a)
  {
    var th := s.threads[t];
    var pc := th.pc;
    match a
    case Swap =>
      s.(threads := s.threads[t := Thread(InUse, Swapped(if th.slot.Cached? then Some(th.slot.sv) else None))])
    case Check =>
      At(s, t, if pc.got.None? then WantLock(None, true)
               else if pc.got.value != Current(s) then Stale(pc.got.value)
               else Using(pc.got.value, false))
    case UnrefStale => At(Minus(s, pc.sv), t, WantLock(if Last(s, pc.sv) then Some(pc.sv) else None, true))
    case Lock => At(s, t, HasLock(pc.clean, pc.get)).(mutex := Some(t))
    case Clean => At(Cleaned(s, pc.clean.value), t, HasLock(None, pc.get))
    case RefCurrent => At(Plus(s, Current(s)), t, HasRef(Current(s)))
    case Unlock => At(s, t, if pc.HasRef? then Using(pc.sv, false) else Idle).(mutex := None)
    case AddRef => At(Plus(s, pc.sv), t, Using(pc.sv, true))
    case Return =>
      if th.slot == InUse
      then s.(threads := s.threads[t := Thread(Cached(pc.sv), if pc.extra then Handing(pc.sv) else Idle)])
      else At(s, t, if pc.extra then DropIgnored(pc.sv) else Dropping(pc.sv))
    case UnrefIgnored => At(Minus(s, pc.sv), t, Handing(pc.sv))
    case HandOut => At(Set(s, pc.sv, s.svs[pc.sv].(tickets := s.svs[pc.sv].tickets + 1)), t, Idle)
    case Unref => At(Minus(s, pc.sv), t, if Last(s, pc.sv) then WantLock(Some(pc.sv), false) else Idle)
    case Release(sv) => At(Set(s, sv, s.svs[sv].(tickets := s.svs[sv].tickets - 1)), t, Dropping(sv))
    case Exit => s.(threads := s.threads[t := Thread(Obsolete, Dropping(th.slot.sv))])
    case BeginInstall => At(s, t, Installing).(mutex := Some(t))
    case Publish =>
      s.(svs := s.svs + [Info(1, 0, 0, 0)], install := Some(Install(Some(Current(s)), AllTids(|s.threads|))))
    case Scrape(u) =>
      var i := s.install.value;
      var slot := s.threads[u].slot;
      var listed := if slot.Cached? then Set(s, slot.sv, s.svs[slot.sv].(scraped := s.svs[slot.sv].scraped + 1)) else s;
      listed.(threads := s.threads[u := s.threads[u].(slot := Obsolete)],
              install := Some(i.(pending := i.pending - {u})))
    case UnrefScraped(sv) =>
      var dropped := DropInPlace(s, sv);
      Set(dropped, sv, dropped.svs[sv].(scraped := s.svs[sv].scraped - 1))
    case UnrefPrior =>
      var i := s.install.value;
      DropInPlace(s, i.prior.value).(install := Some(i.(prior := None)))
    case EndInstall => At(s, t, Idle).(mutex := None, install := None)
  }

  // ---- Who holds a reference ----

  /** The reference a thread itself owns. */
  function Token(pc: Pc): Option<Sv> {
    match pc
    case Swapped(got) => got
    case Stale(sv) => Some(sv)
    case HasRef(sv) => Some(sv)
    case Using(sv, _) => Some(sv)
    case DropIgnored(sv) => Some(sv)
    case Dropping(sv) => Some(sv)
    case _ => None
  }

  /** The second reference of GetReferencedSuperVersion. */
  function Extra(pc: Pc): Option<Sv> {
    match pc
    case Using(sv, extra) => if extra then Some(sv) else None
    case DropIgnored(sv) => Some(sv)
    case Handing(sv) => Some(sv)
    case _ => None
  }

  /** The version whose cleanup this thread has taken on. */
  function ToClean(pc: Pc): Option<Sv> {
    if pc.WantLock? || pc.HasLock? then pc.clean else None
  }

  function One(b: bool): nat { if b then 1 else 0 }

  /** The references to `sv` that one thread accounts for: its slot, its own token and its extra one. */
  function Share(th: Thread, sv: Sv): nat {
    One(th.slot == Cached(sv)) + One(Token(th.pc) == Some(sv)) + One(Extra(th.pc) == Some(sv))
  }

  function Shares(ths: seq<Thread>, sv: Sv): nat {
    if ths == [] then 0 else Shares(ths[..|ths| - 1], sv) + Share(ths[|ths| - 1], sv)
  }

  function Cleaners(ths: seq<Thread>, sv: Sv): nat {
    if ths == [] then 0 else Cleaners(ths[..|ths| - 1], sv) + One(ToClean(ths[|ths| - 1].pc) == Some(sv))
  }

  lemma {:induction false} SharesUpdate(ths: seq<Thread>, t: Tid, th: Thread, sv: Sv)
    requires t < |ths|
    ensures Shares(ths[t := th], sv) + Share(ths[t], sv) == Shares(ths, sv) + Share(th, sv)
    ensures Cleaners(ths[t := th], sv) + One(ToClean(ths[t].pc) == Some(sv)) ==
            Cleaners(ths, sv) + One(ToClean(th.pc) == Some(sv))
    ensures Shares(ths, sv) >= Share(ths[t], sv)
    decreases |ths|
  {
    hide Share;
    var n := |ths| - 1;
    if t == n {
      assert ths[t := th][..n] == ths[..n];
    } else {
      assert ths[t := th][..n] == ths[..n][t := th];
      SharesUpdate(ths[..n], t, th, sv);
    }
  }

  function Prior(s: State): Option<Sv> {
    if s.install.Some? then s.install.value.prior else None
  }

  function Pending(s: State): set<Tid> {
    if s.install.Some? then s.install.value.pending else {}
  }

  /** Everybody who holds a reference to `sv`. */
  function Holders(s: State, sv: Sv): nat
    requires sv < |s.svs|
  {
    One(Current(s) == sv) + One(Prior(s) == Some(sv)) + Shares(s.threads, sv) + s.svs[sv].tickets + s.svs[sv].scraped
  }

  // ---- The invariant ----

  /** The count is exact; cleanup runs at most once, only without holders, and has exactly one thread
      responsible for it from the moment the last reference is dropped. */
  predicate Accounted(s: State, sv: Sv)
    requires sv < |s.svs|
  {
    var i := s.svs[sv];
    && i.refs == Holders(s, sv)
    && i.cleanups <= 1 && (i.cleanups == 1 ==> i.refs == 0)
    && Cleaners(s.threads, sv) == One(i.refs == 0 && i.cleanups == 0)
  }

  /** Between Swap and Return the slot is kSVInUse, or was scraped. */
  predicate InGet(pc: Pc) {
    pc.Swapped? || pc.Stale? || pc.HasRef? || pc.Using? || ((pc.WantLock? || pc.HasLock?) && pc.get)
  }

  predicate HoldsMutex(pc: Pc) { pc.HasLock? || pc.HasRef? || pc.Installing? }

  predicate Known(sv: Option<Sv>, n: nat) { sv.Some? ==> sv.value < n }

  /** What is true of one thread when there are `n` versions. */
  predicate ThreadFits(th: Thread, n: nat, pending: bool, mutex: bool) {
    && (th.slot.Cached? ==> th.slot.sv < n)
    && Known(Token(th.pc), n) && Known(Extra(th.pc), n) && Known(ToClean(th.pc), n)
    && (if InGet(th.pc) then !th.slot.Cached? else th.slot != InUse)
    && (HoldsMutex(th.pc) <==> mutex)
    && (th.pc.HasRef? ==> th.pc.sv == n - 1)
    // a slot that does not await the scrape caches, or is about to get back, the current version only
    && (!pending && th.slot.Cached? ==> th.slot.sv == n - 1)
    && (!pending && th.slot == InUse && (th.pc.Swapped? || th.pc.Using?) && Token(th.pc).Some? ==> Token(th.pc).value == n - 1)
  }

  ghost predicate GlobalsFit(s: State) {
    && |s.svs| > 0
    && (Prior(s).Some? ==> Prior(s).value < |s.svs| - 1)
    && (forall u :: u in Pending(s) ==> u < |s.threads|)
    && (s.mutex.Some? ==> s.mutex.value < |s.threads|)
    && (s.install.Some? ==> s.mutex.Some? && s.threads[s.mutex.value].pc == Installing)
  }

  ghost predicate ThreadsFit(s: State) {
    forall t :: 0 <= t < |s.threads| ==> ThreadFits(s.threads[t], |s.svs|, t in Pending(s), s.mutex == Some(t))
  }

  ghost predicate AllAccounted(s: State) {
    forall sv :: 0 <= sv < |s.svs| ==> Accounted(s, sv)
  }

  ghost predicate Inv(s: State) {
    GlobalsFit(s) && ThreadsFit(s) && AllAccounted(s)
  }

  /** The thread whose slot or program counter a step changes. */
  function Mover(t: Tid, a: Action): Tid {
    if a.Scrape? then a.target else t
  }

  lemma ThreadFacts(s: State, t: Tid)
    requires Inv(s) && t < |s.threads|
    ensures GlobalsFit(s) && ThreadFits(s.threads[t], |s.svs|, t in Pending(s), s.mutex == Some(t))
  {
    hide AllAccounted, ThreadFits;
  }

  lemma OthersKept(s: State, t: Tid, a: Action, u: Tid)
    requires Inv(s) && Enabled(s, t, a) && u < |s.threads| && u != Mover(t, a)
    ensures var s' := Apply(s, t, a);
            |s'.threads| == |s.threads| && ThreadFits(s'.threads[u], |s'.svs|, u in Pending(s'), s'.mutex == Some(u))
  {
    hide Inv;
    ThreadFacts(s, u);
    ThreadFacts(s, t);
  }

  /** Steps of GetThreadLocalSuperVersion and of the cleanup that ends a release. */
  predicate OfGet(a: Action) {
    a.Swap? || a.Check? || a.UnrefStale? || a.Lock? || a.Clean? || a.RefCurrent? || a.Unlock?
  }

  predicate OfInstaller(a: Action) {
    a.BeginInstall? || a.Publish? || a.Scrape? || a.UnrefScraped? || a.UnrefPrior? || a.EndInstall?
  }

  predicate OfTicket(a: Action) { a.HandOut? || a.Release? || a.Exit? }

  predicate OfScrape(a: Action) { a.Scrape? || a.UnrefScraped? }

  ghost predicate MoverFits(s: State, t: Tid, a: Action)
    requires Enabled(s, t, a)
  {
    var s' := Apply(s, t, a);
    var u := Mover(t, a);
    |s'.threads| == |s.threads| && ThreadFits(s'.threads[u], |s'.svs|, u in Pending(s'), s'.mutex == Some(u))
  }

  lemma GetterKept(s: State, t: Tid, a: Action)
    requires Inv(s) && Enabled(s, t, a) && OfGet(a)
    ensures MoverFits(s, t, a)
  {
    hide Inv;
    ThreadFacts(s, t);
  }

  lemma ReturnerKept(s: State, t: Tid, a: Action)
    requires Inv(s) && Enabled(s, t, a) && !OfGet(a) && !OfInstaller(a) && !OfTicket(a)
    ensures MoverFits(s, t, a)
  {
    hide Inv;
    ThreadFacts(s, t);
  }

  lemma TicketKept(s: State, t: Tid, a: Action)
    requires Inv(s) && Enabled(s, t, a) && OfTicket(a)
    ensures MoverFits(s, t, a)
  {
    hide Inv;
    ThreadFacts(s, t);
  }

  lemma InstallerKept(s: State, t: Tid, a: Action)
    requires Inv(s) && Enabled(s, t, a) && OfInstaller(a)
    ensures MoverFits(s, t, a)
  {
    hide Inv;
    ThreadFacts(s, t);
    ThreadFacts(s, Mover(t, a));
  }

  lemma ThreadsKept(s: State, t: Tid, a: Action)
    requires Inv(s) && Enabled(s, t, a)
    ensures ThreadsFit(Apply(s, t, a))
  {
    hide AllAccounted, ThreadFits, Apply;
    var s' := Apply(s, t, a);
    if OfInstaller(a) {
      InstallerKept(s, t, a);
    } else if OfGet(a) {
      GetterKept(s, t, a);
    } else if OfTicket(a) {
      TicketKept(s, t, a);
    } else {
      ReturnerKept(s, t, a);
    }
    forall u | 0 <= u < |s'.threads| ensures ThreadFits(s'.threads[u], |s'.svs|, u in Pending(s'), s'.mutex == Some(u)) {
      if u != Mover(t, a) { OthersKept(s, t, a, u); }
    }
  }

  lemma GlobalsKept(s: State, t: Tid, a: Action)
    requires Inv(s) && Enabled(s, t, a)
    ensures GlobalsFit(Apply(s, t, a))
  {
    hide Inv;
    ThreadFacts(s, t);
    if a.Scrape? { ThreadFacts(s, a.target); }
  }

  /** An existing version stays accounted for. */
  ghost predicate StaysAccounted(s: State, t: Tid, a: Action, sv: Sv)
    requires Enabled(s, t, a)
  {
    sv < |Apply(s, t, a).svs| && Accounted(Apply(s, t, a), sv)
  }

  lemma Facts(s: State, t: Tid, a: Action, sv: Sv)
    requires Inv(s) && Enabled(s, t, a) && sv < |s.svs|
    ensures Accounted(s, sv) && ThreadFits(s.threads[t], |s.svs|, t in Pending(s), s.mutex == Some(t))
    ensures var u, ths' := Mover(t, a), Apply(s, t, a).threads;
            && u < |s.threads| == |ths'|
            && ThreadFits(s.threads[u], |s.svs|, u in Pending(s), s.mutex == Some(u))
            && Shares(ths', sv) + Share(s.threads[u], sv) == Shares(s.threads, sv) + Share(ths'[u], sv)
            && Cleaners(ths', sv) + One(ToClean(s.threads[u].pc) == Some(sv)) == Cleaners(s.threads, sv) + One(ToClean(ths'[u].pc) == Some(sv))
            && Shares(s.threads, sv) >= Share(s.threads[u], sv)
  {
    var u, ths' := Mover(t, a), Apply(s, t, a).threads;
    assert ths' == s.threads[u := ths'[u]];
    SharesUpdate(s.threads, u, ths'[u], sv);
    hide Shares, Cleaners, Share, Accounted, ThreadFits;
  }

  lemma GetterAccount(s: State, t: Tid, a: Action, sv: Sv)
    requires Inv(s) && Enabled(s, t, a) && sv < |s.svs| && OfGet(a)
    ensures StaysAccounted(s, t, a, sv)
  {
    hide Inv, Shares, Cleaners;
    Facts(s, t, a, sv);
    ThreadFacts(s, t);
  }

  lemma ReturnerAccount(s: State, t: Tid, a: Action, sv: Sv)
    requires Inv(s) && Enabled(s, t, a) && sv < |s.svs| && !OfGet(a) && !OfInstaller(a) && !OfTicket(a)
    ensures StaysAccounted(s, t, a, sv)
  {
    hide Inv, Shares, Cleaners;
    Facts(s, t, a, sv);
    ThreadFacts(s, t);
  }

  lemma TicketAccount(s: State, t: Tid, a: Action, sv: Sv)
    requires Inv(s) && Enabled(s, t, a) && sv < |s.svs| && OfTicket(a)
    ensures StaysAccounted(s, t, a, sv)
  {
    hide Inv, Shares, Cleaners;
    Facts(s, t, a, sv);
    ThreadFacts(s, t);
  }

  lemma ScraperAccount(s: State, t: Tid, a: Action, sv: Sv)
    requires Inv(s) && Enabled(s, t, a) && sv < |s.svs| && OfScrape(a)
    ensures StaysAccounted(s, t, a, sv)
  {
    hide Inv, Shares, Cleaners;
    Facts(s, t, a, sv);
    ThreadFacts(s, t);
  }

  lemma InstallerAccount(s: State, t: Tid, a: Action, sv: Sv)
    requires Inv(s) && Enabled(s, t, a) && sv < |s.svs| && OfInstaller(a) && !OfScrape(a)
    ensures StaysAccounted(s, t, a, sv)
  {
    hide Shares, Cleaners;
    Facts(s, t, a, sv);
    hide AllAccounted, ThreadsFit;
  }

  /** A version that has just been published: nobody but the column family refers to it. */
  lemma {:induction false} NobodyKnows(ths: seq<Thread>, n: nat)
    requires forall t :: 0 <= t < |ths| ==> Share(ths[t], n) == 0 && ToClean(ths[t].pc) != Some(n)
    ensures Shares(ths, n) == 0 && Cleaners(ths, n) == 0
  {
    if ths != [] { NobodyKnows(ths[..|ths| - 1], n); }
  }

  lemma PublishedAccounted(s: State, t: Tid)
    requires Inv(s) && Enabled(s, t, Publish)
    ensures Accounted(Apply(s, t, Publish), |s.svs|)
  {
    forall u | 0 <= u < |s.threads| ensures Share(s.threads[u], |s.svs|) == 0 && ToClean(s.threads[u].pc) != Some(|s.svs|) {
      assert ThreadFits(s.threads[u], |s.svs|, u in Pending(s), s.mutex == Some(u));
    }
    NobodyKnows(s.threads, |s.svs|);
  }

  lemma StepKeepsInv(s: State, t: Tid, a: Action)
    requires Inv(s) && Enabled(s, t, a)
    ensures Inv(Apply(s, t, a))
  {
    hide Accounted, ThreadsFit, GlobalsFit;
    ThreadsKept(s, t, a);
    GlobalsKept(s, t, a);
    forall sv | 0 <= sv < |Apply(s, t, a).svs| ensures Accounted(Apply(s, t, a), sv) {
      if sv >= |s.svs| {
        PublishedAccounted(s, t);
      } else if OfScrape(a) {
        ScraperAccount(s, t, a, sv);
      } else if OfInstaller(a) {
        InstallerAccount(s, t, a, sv);
      } else if OfGet(a) {
        GetterAccount(s, t, a, sv);
      } else if OfTicket(a) {
        TicketAccount(s, t, a, sv);
      } else {
        ReturnerAccount(s, t, a, sv);
      }
    }
  }

  // ---- Whole runs ----

  /** The first install has happened; no thread has started. */
  predicate Initial(s: State) {
    && s.svs == [Info(1, 0, 0, 0)] && s.mutex == None && s.install == None
    && forall t :: 0 <= t < |s.threads| ==> s.threads[t] == Thread(Obsolete, Idle)
  }

  ghost predicate Reaches(s: State, run: seq<(Tid, Action)>, end: State)
    decreases |run|
  {
    if run == [] then s == end
    else Enabled(s, run[0].0, run[0].1) && Reaches(Apply(s, run[0].0, run[0].1), run[1..], end)
  }

  ghost predicate SafeVersion(s: State, sv: Sv)
    requires sv < |s.svs|
  {
    && s.svs[sv].refs == Holders(s, sv)
    && s.svs[sv].cleanups <= 1
    && (s.svs[sv].cleanups == 1 ==> Holders(s, sv) == 0)
    && (Holders(s, sv) == 0 ==> s.svs[sv].cleanups + Cleaners(s.threads, sv) == 1)
    && (Holders(s, sv) > 0 ==> Cleaners(s.threads, sv) == 0)
  }

  /** The count is the number of holders; cleanup runs at most once, never while somebody holds the version,
      and is never forgotten; outside an install no slot caches a superseded version. */
  ghost predicate Safe(s: State) {
    && (forall sv :: 0 <= sv < |s.svs| ==> SafeVersion(s, sv))
    && (s.install == None ==>
          forall t :: 0 <= t < |s.threads| && s.threads[t].slot.Cached? ==> s.threads[t].slot.sv == Current(s))
  }

  lemma {:induction false} RunKeepsInv(s: State, run: seq<(Tid, Action)>, end: State)
    requires Inv(s) && Reaches(s, run, end)
    ensures Inv(end)
    decreases |run|
  {
    hide Inv, Apply, Enabled;
    if run != [] {
      StepKeepsInv(s, run[0].0, run[0].1);
      RunKeepsInv(Apply(s, run[0].0, run[0].1), run[1..], end);
    }
  }

  lemma InvIsSafe(s: State)
    requires Inv(s)
    ensures Safe(s)
  {
    forall sv | 0 <= sv < |s.svs| ensures SafeVersion(s, sv) {
      assert Accounted(s, sv);
    }
    if s.install == None {
      forall t | 0 <= t < |s.threads| && s.threads[t].slot.Cached? ensures s.threads[t].slot.sv == Current(s) {
        assert ThreadFits(s.threads[t], |s.svs|, t in Pending(s), s.mutex == Some(t));
      }
    }
  }

  lemma InitialFits(s: State)
    requires Initial(s)
    ensures Inv(s)
  {
    forall u | 0 <= u < |s.threads| ensures Share(s.threads[u], 0) == 0 && ToClean(s.threads[u].pc) != Some(0) { }
    NobodyKnows(s.threads, 0);
  }

  /** Every interleaving of gets, returns, releases, thread exits and installs is safe. */
  lemma EveryRunSafe(s: State, run: seq<(Tid, Action)>, end: State)
    requires Initial(s) && Reaches(s, run, end)
    ensures Safe(end)
  {
    InitialFits(s);
    RunKeepsInv(s, run, end);
    InvIsSafe(end);
  }

  /** Swap never finds kSVInUse, a failed compare-and-swap finds kSVObsolete, a count is positive before it is
      decremented, Cleanup sees a zero count, and the Unref whose result GetReferencedSuperVersion ignores is
      never the last. */
  ghost predicate AssertionsHold(s: State, t: Tid)
    requires t < |s.threads|
  {
    var th := s.threads[t];
    && (th.pc == Idle ==> th.slot != InUse)
    && (th.pc.Using? && th.slot != InUse ==> th.slot == Obsolete)
    && (Token(th.pc).Some? ==> Held(s, Token(th.pc).value))
    && (ToClean(th.pc).Some? ==> ToClean(th.pc).value < |s.svs| && s.svs[ToClean(th.pc).value] == s.svs[ToClean(th.pc).value].(refs := 0, cleanups := 0))
    && (th.pc.DropIgnored? ==> s.svs[th.pc.sv].refs > 1)
  }

  lemma InvImpliesAssertions(s: State, t: Tid)
    requires Inv(s) && t < |s.threads|
    ensures AssertionsHold(s, t)
  {
    var th := s.threads[t];
    assert ThreadFits(th, |s.svs|, t in Pending(s), s.mutex == Some(t));
    if Token(th.pc).Some? {
      var sv := Token(th.pc).value;
      assert Accounted(s, sv);
      SharesUpdate(s.threads, t, th, sv);
    }
    if ToClean(th.pc).Some? {
      var sv := ToClean(th.pc).value;
      assert Accounted(s, sv);
      SharesUpdate(s.threads, t, Thread(th.slot, Idle), sv);
    }
  }

  /** The assertions of the source hold after every run, for every thread. */
  lemma SourceAssertionsHold(s: State, run: seq<(Tid, Action)>, end: State, t: Tid)
    requires Initial(s) && Reaches(s, run, end) && t < |end.threads|
    ensures AssertionsHold(end, t)
  {
    InitialFits(s);
    RunKeepsInv(s, run, end);
    InvImpliesAssertions(end, t);
  }

  // ---- What the outcome of a return means ----

  /** The steps by which a thread gets hold of the version it will use. */
  predicate Acquires(a: Action) { a.Check? || a.RefCurrent? }

  /** Some install has published since thread t last got hold of a version. */
  predicate PublishedSince(run: seq<(Tid, Action)>, t: Tid) {
    run != [] &&
    var last := run[|run| - 1];
    if last.0 == t && Acquires(last.1) then false else last.1.Publish? || PublishedSince(run[..|run| - 1], t)
  }

  lemma {:induction false} LastStep(s: State, run: seq<(Tid, Action)>, end: State) returns (mid: State)
    requires Reaches(s, run, end) && run != []
    ensures var last := run[|run| - 1];
            Reaches(s, run[..|run| - 1], mid) && Enabled(mid, last.0, last.1) && end == Apply(mid, last.0, last.1)
    decreases |run|
  {
    hide Apply, Enabled;
    if |run| == 1 {
      mid := s;
      assert run[1..] == [];
    } else {
      var next := Apply(s, run[0].0, run[0].1);
      mid := LastStep(next, run[1..], end);
      assert run[1..][..|run| - 2] == run[..|run| - 1][1..];
    }
  }

  /** The version a thread uses is current exactly until the next publication. */
  ghost predicate AgeKnown(s: State, t: Tid, published: bool) {
    t < |s.threads| ==>
      var pc := s.threads[t].pc;
      pc.Using? || pc.HasRef? ==> pc.sv < |s.svs| && (pc.sv == Current(s) <==> !published)
  }

  lemma AgeStep(s: State, u: Tid, a: Action, t: Tid, published: bool)
    requires Enabled(s, u, a) && AgeKnown(s, t, published)
    ensures AgeKnown(Apply(s, u, a), t, if u == t && Acquires(a) then false else a.Publish? || published)
  {
  }

  lemma {:induction false} VersionAge(s: State, run: seq<(Tid, Action)>, end: State, t: Tid)
    requires Initial(s) && Reaches(s, run, end)
    ensures AgeKnown(end, t, PublishedSince(run, t))
    decreases |run|
  {
    if run != [] {
      var mid := LastStep(s, run, end);
      VersionAge(s, run[..|run| - 1], mid, t);
      AgeStep(mid, run[|run| - 1].0, run[|run| - 1].1, t, PublishedSince(run[..|run| - 1], t));
    }
  }

  /** A thread whose slot awaits the scrape has nothing of the version just published. */
  ghost predicate OldWhilePending(s: State, t: Tid) {
    t < |s.threads| && t in Pending(s) ==>
      && (s.threads[t].slot.Cached? ==> s.threads[t].slot.sv != Current(s))
      && (s.threads[t].pc.Swapped? || s.threads[t].pc.Using? ==> Token(s.threads[t].pc) != Some(Current(s)))
  }

  lemma OldWhilePendingStep(s: State, u: Tid, a: Action, t: Tid)
    requires Inv(s) && Enabled(s, u, a) && OldWhilePending(s, t)
    ensures OldWhilePending(Apply(s, u, a), t)
  {
    hide Inv;
    if t < |s.threads| { ThreadFacts(s, t); }
  }

  lemma {:induction false} PendingVersion(s: State, run: seq<(Tid, Action)>, end: State, t: Tid)
    requires Initial(s) && Reaches(s, run, end)
    ensures OldWhilePending(end, t)
    decreases |run|
  {
    if run != [] {
      var mid := LastStep(s, run, end);
      PendingVersion(s, run[..|run| - 1], mid, t);
      InitialFits(s);
      RunKeepsInv(s, run[..|run| - 1], mid);
      OldWhilePendingStep(mid, run[|run| - 1].0, run[|run| - 1].1, t);
    }
  }

  /** A thread about to return its version: the version is obsolete exactly if some install has published since the
      thread got hold of it.  If the compare-and-swap will succeed, it is so exactly while the slot awaits the scrape
      of that install. */
  lemma ReturnTells(s: State, run: seq<(Tid, Action)>, end: State, t: Tid)
    requires Initial(s) && Reaches(s, run, end) && t < |end.threads| && end.threads[t].pc.Using?
    ensures end.threads[t].pc.sv != Current(end) <==> PublishedSince(run, t)
    ensures end.threads[t].slot == InUse ==> (end.threads[t].pc.sv != Current(end) <==> t in Pending(end))
  {
    VersionAge(s, run, end, t);
    PendingVersion(s, run, end, t);
    InitialFits(s);
    RunKeepsInv(s, run, end);
    assert ThreadFits(end.threads[t], |end.svs|, t in Pending(end), end.mutex == Some(t));
    hide Reaches, PublishedSince, AllAccounted, ThreadsFit;
  }

  lemma {:induction false} OneMore(s: State, run: seq<(Tid, Action)>, mid: State, t: Tid, a: Action)
    requires Reaches(s, run, mid) && Enabled(mid, t, a)
    ensures Reaches(s, run + [(t, a)], Apply(mid, t, a))
    decreases |run|
  {
    hide Apply, Enabled;
    var longer := run + [(t, a)];
    if run == [] {
      assert longer[1..] == [];
    } else {
      assert longer[1..] == run[1..] + [(t, a)];
      OneMore(Apply(s, run[0].0, run[0].1), run[1..], mid, t, a);
    }
  }

  const TWO_THREADS := State([Info(1, 0, 0, 0)], [Thread(Obsolete, Idle), Thread(Obsolete, Idle)], None, None)

  /** Thread 0 has swapped its empty slot and waits for the mutex; thread 1 is about to publish. */
  const WAITING := State([Info(1, 0, 0, 0)], [Thread(InUse, WantLock(None, true)), Thread(Obsolete, Installing)],
                         Some(1), None)

  /** Thread 1 has installed version 1 and scraped both slots. */
  const INSTALLED := State([Info(0, 1, 0, 0), Info(1, 0, 0, 0)],
                           [Thread(Obsolete, WantLock(None, true)), Thread(Obsolete, Idle)], None, None)

  lemma WaitingReached() returns (run: seq<(Tid, Action)>)
    ensures Initial(TWO_THREADS) && Reaches(TWO_THREADS, run, WAITING)
  {
    var s := TWO_THREADS;
    run := [];
    ReachesItself(s);
    hide Reaches;
    run := Extend(s, run, s, 0, Swap, s.(threads := [Thread(InUse, Swapped(None)), Thread(Obsolete, Idle)]));
    run := Extend(s, run, s.(threads := [Thread(InUse, Swapped(None)), Thread(Obsolete, Idle)]), 0, Check,
                  s.(threads := [Thread(InUse, WantLock(None, true)), Thread(Obsolete, Idle)]));
    run := Extend(s, run, s.(threads := [Thread(InUse, WantLock(None, true)), Thread(Obsolete, Idle)]), 1, BeginInstall, WAITING);
  }

  /** Thread 1 has published version 1 and emptied both slots. */
  const SCRAPED := State([Info(1, 0, 0, 0), Info(1, 0, 0, 0)],
                         [Thread(Obsolete, WantLock(None, true)), Thread(Obsolete, Installing)], Some(1),
                         Some(Install(Some(0), {})))

  lemma ScrapedReached() returns (run: seq<(Tid, Action)>)
    ensures Reaches(TWO_THREADS, run, SCRAPED)
  {
    run := WaitingReached();
    hide Reaches;
    var both: set<Tid>, second: set<Tid> := {0, 1}, {1};
    assert AllTids(2) == both && both - {0} == second && second - {1} == {};
    var a := State(SCRAPED.svs, WAITING.threads, Some(1), Some(Install(Some(0), both)));
    var b := SCRAPED.(install := Some(Install(Some(0), second)));
    run := Extend(TWO_THREADS, run, WAITING, 1, Publish, a);
    run := Extend(TWO_THREADS, run, a, 1, Scrape(0), b);
    run := Extend(TWO_THREADS, run, b, 1, Scrape(1), SCRAPED);
  }

  lemma InstalledReached() returns (run: seq<(Tid, Action)>)
    ensures Reaches(TWO_THREADS, run, INSTALLED)
  {
    run := ScrapedReached();
    hide Reaches;
    var dropped := SCRAPED.(svs := INSTALLED.svs, install := Some(Install(None, {})));
    run := Extend(TWO_THREADS, run, SCRAPED, 1, UnrefPrior, dropped);
    run := Extend(TWO_THREADS, run, dropped, 1, EndInstall, INSTALLED);
  }

  /** A thread can be scraped while it waits for the mutex and then reference the version just installed:
      its compare-and-swap fails although the version it holds is current.  The comment in the source says
      that such a version is obsolete, which ReturnTells makes exact; the code only pays an extra Unref. */
  lemma FailedReturnMayHoldCurrent() returns (run: seq<(Tid, Action)>, end: State)
    ensures Initial(TWO_THREADS) && Reaches(TWO_THREADS, run, end)
    ensures |end.threads| == 2 && end.threads[0] == Thread(Obsolete, Using(1, false)) && Current(end) == 1
  {
    var s := TWO_THREADS;
    run := InstalledReached();
    hide Reaches;
    var other := Thread(Obsolete, Idle);
    var a := INSTALLED.(threads := [Thread(Obsolete, HasLock(None, true)), other], mutex := Some(0));
    var b := a.(svs := [Info(0, 1, 0, 0), Info(2, 0, 0, 0)], threads := [Thread(Obsolete, HasRef(1)), other]);
    end := b.(threads := [Thread(Obsolete, Using(1, false)), other], mutex := None);
    run := Extend(s, run, INSTALLED, 0, Lock, a);
    run := Extend(s, run, a, 0, RefCurrent, b);
    run := Extend(s, run, b, 0, Unlock, end);
  }

  lemma ReachesItself(s: State)
    ensures Reaches(s, [], s)
  {
  }

  lemma Extend(s: State, run: seq<(Tid, Action)>, mid: State, t: Tid, a: Action, after: State)
    returns (longer: seq<(Tid, Action)>)
    requires Reaches(s, run, mid) && Enabled(mid, t, a) && Apply(mid, t, a) == after
    ensures Reaches(s, longer, after)
  {
    OneMore(s, run, mid, t, a);
    longer := run + [(t, a)];
  }

  /** Thread 0 uses version 0. */
  const READING := State([Info(2, 0, 0, 0)], [Thread(InUse, Using(0, false)), Thread(Obsolete, Idle)], None, None)

  lemma ReadingReached() returns (run: seq<(Tid, Action)>)
    ensures Initial(TWO_THREADS) && Reaches(TWO_THREADS, run, READING)
  {
    var s := TWO_THREADS;
    var other := Thread(Obsolete, Idle);
    run := [];
    ReachesItself(s);
    hide Reaches;
    var a := s.(threads := [Thread(InUse, Swapped(None)), other]);
    var b := s.(threads := [Thread(InUse, WantLock(None, true)), other]);
    var c := s.(threads := [Thread(InUse, HasLock(None, true)), other], mutex := Some(0));
    run := Extend(s, run, s, 0, Swap, a);
    run := Extend(s, run, a, 0, Check, b);
    run := Extend(s, run, b, 0, Lock, c);
    run := LockedReads(run, c);
  }

  lemma LockedReads(run: seq<(Tid, Action)>, c: State) returns (longer: seq<(Tid, Action)>)
    requires c == TWO_THREADS.(threads := [Thread(InUse, HasLock(None, true)), Thread(Obsolete, Idle)], mutex := Some(0))
    requires Reaches(TWO_THREADS, run, c)
    ensures Reaches(TWO_THREADS, longer, READING)
  {
    hide Reaches;
    var d := c.(svs := [Info(2, 0, 0, 0)], threads := [Thread(InUse, HasRef(0)), Thread(Obsolete, Idle)]);
    longer := Extend(TWO_THREADS, run, c, 0, RefCurrent, d);
    longer := Extend(TWO_THREADS, longer, d, 0, Unlock, READING);
  }

  /** Thread 0 uses version 0 while thread 1 has published version 1 and not scraped yet. */
  const PUBLISHED := State([Info(2, 0, 0, 0), Info(1, 0, 0, 0)],
                           [Thread(InUse, Using(0, false)), Thread(Obsolete, Installing)], Some(1),
                           Some(Install(Some(0), {0, 1})))

  /** A return can succeed although the version is superseded: the scrape that will find it is under way. */
  lemma SuccessfulReturnMayHoldSuperseded() returns (run: seq<(Tid, Action)>)
    ensures Initial(TWO_THREADS) && Reaches(TWO_THREADS, run, PUBLISHED)
    ensures Enabled(PUBLISHED, 0, Return) && Apply(PUBLISHED, 0, Return).threads[0].slot == Cached(0) && Current(PUBLISHED) == 1
  {
    run := ReadingReached();
    hide Reaches;
    var f := READING.(threads := [Thread(InUse, Using(0, false)), Thread(Obsolete, Installing)], mutex := Some(1));
    run := Extend(TWO_THREADS, run, READING, 1, BeginInstall, f);
    var both: set<Tid> := {0, 1};
    assert AllTids(2) == both;
    run := Extend(TWO_THREADS, run, f, 1, Publish, PUBLISHED);
  }
}
