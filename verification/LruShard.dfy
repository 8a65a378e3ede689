/** One shard of the LRU cache: every operation keeps the books exact, evicts the shortest sufficient prefix of
    the LRU list, and frees each entry once, when nobody can reach it. */
module LruShard {
  import opened Records
  import opened LruTable
  import opened LruOrder
  import opened LruBooks
  import Ring = LruRing

  datatype Status = Ok | Incomplete

  /** The entries of ids have left the table, the others have not. */
  ghost predicate ContentsWithout(before: map<Tag, Id>, after: map<Tag, Id>, ids: seq<Id>) {
    && (forall tag :: tag in after <==> tag in before && before[tag] !in ids)
    && (forall tag :: tag in after ==> after[tag] == before[tag])
  }

  /** Handles outside ids are as before. */
  predicate OthersSame(heap: seq<Handle>, heap': seq<Handle>, ids: seq<Id>) {
    && |heap| == |heap'|
    && (forall h :: 0 <= h < |heap| ==> heap'[h].charge == heap[h].charge && heap'[h].tag == heap[h].tag)
    && (forall h :: 0 <= h < |heap| && h !in ids ==> heap'[h] == heap[h])
  }

  /** The n oldest entries of the list have been evicted; the other entries are as before. */
  ghost predicate Evicted(b: Books, b': Books, n: nat) {
    && n <= |b.lru| && b'.lru == b.lru[n..] && b'.held == b.held && b'.times == b.times
    && Ids(b.heap, b.lru[..n]) && b'.usage + ListCharge(b.heap, b.lru[..n]) == b.usage
    && b'.usage - b'.lruUsage == b.usage - b.lruUsage
    && ContentsWithout(b.index, b'.index, b.lru[..n]) && OthersSame(b.heap, b'.heap, b.lru[..n])
  }

  /** The deleter has run once more on each of ids and on no other handle. */
  predicate FreedAlso(freed: seq<nat>, freed': seq<nat>, ids: seq<Id>) {
    |freed'| == |freed| && forall h :: 0 <= h < |freed| ==> freed'[h] == freed[h] + One(h in ids)
  }

  /** What eviction does to the front of the list. */
  ghost predicate EvictedOne(b: Books, b': Books) {
    && b.lru != [] && b.lru[0] < |b.heap|
    && var h := b.lru[0];
       && b'.lru == b.lru[1..] && b'.held == b.held && b'.freed == b.freed && b'.doomed == b.doomed + {h} && b'.times == b.times
       && b'.usage + b.heap[h].charge == b.usage && b'.lruUsage + b.heap[h].charge == b.lruUsage
       && b'.heap == b.heap[h := b.heap[h].(refs := 0, inCache := false)]
       && Indexed(b.index, b.heap[h].tag, h) && b'.index == b.index - {b.heap[h].tag}
  }

  lemma EvictedFront(b: Books, b': Books)
    requires Fits(b) && b.lru != [] && b.lru[0] < |b.heap| && b.usage >= b.heap[b.lru[0]].charge
    requires var h := b.lru[0];
             && ListFits(b.heap, b'.lru, b'.lowPri, b'.lruUsage, b'.poolUsage) && Indexed(b.index, b.heap[h].tag, h)
             && b'.lru == Without(b.lru, h) && b'.lruUsage + b.heap[h].charge == b.lruUsage
             && b' == b.(heap := b.heap[h := b.heap[h].(refs := 0, inCache := false)], doomed := b.doomed + {h},
                         index := b.index - {b.heap[h].tag}, usage := b.usage - b.heap[h].charge,
                         lru := b'.lru, lowPri := b'.lowPri, lruUsage := b'.lruUsage, poolUsage := b'.poolUsage)
    ensures Fits(b') && EvictedOne(b, b')
  {
    hide Fits, ListFits, Without;
    Dropped(b, b', b.lru[0]);
    FirstOut(b.lru);
  }

  lemma NthFacts(b: Books, n: nat)
    requires Fits(b) && n < |b.lru|
    ensures b.lru[n] < |b.heap| && b.lru[n] !in b.lru[..n]
    ensures forall tag :: tag in b.index && b.index[tag] == b.lru[n] ==> tag == b.heap[b.lru[n]].tag
  {
    forall tag | tag in b.index && b.index[tag] == b.lru[n] ensures tag == b.heap[b.lru[n]].tag { assert EntryFits(b, tag); }
  }

  lemma EvictedMore(b: Books, m: Books, b': Books, n: nat)
    requires Fits(b) && Evicted(b, m, n) && EvictedOne(m, b')
    ensures Evicted(b, b', n + 1)
  {
    hide Fits, ListCharge, ContentsWithout, OthersSame;
    var h, ids := b.lru[n], b.lru[..n];
    NthFacts(b, n);
    assert m.lru[0] == h && b.lru[..n + 1] == ids + [h] && b.lru[n..][1..] == b.lru[n + 1..];
    SameThere(b.heap, m.heap, ids, h);
    ListChargeConcat(b.heap, ids, [h]);
    OneCharge(b.heap, h);
    ContentsMore(b.index, m.index, b'.index, ids, h, b.heap[h].tag);
    HeapMore(b.heap, m.heap, b'.heap, ids, h);
  }

  lemma OneCharge(heap: seq<Handle>, h: Id)
    requires h < |heap|
    ensures ListCharge(heap, [h]) == heap[h].charge
  {
  }

  lemma SameThere(heap: seq<Handle>, heap': seq<Handle>, ids: seq<Id>, h: Id)
    requires OthersSame(heap, heap', ids) && h < |heap| && h !in ids
    ensures h < |heap'| && heap'[h] == heap[h]
  {
  }

  lemma ContentsMore(x: map<Tag, Id>, y: map<Tag, Id>, z: map<Tag, Id>, ids: seq<Id>, h: Id, tag: Tag)
    requires ContentsWithout(x, y, ids) && Indexed(y, tag, h) && z == y - {tag}
    requires forall t :: t in x && x[t] == h ==> t == tag
    ensures ContentsWithout(x, z, ids + [h])
  {
  }

  lemma HeapMore(heap: seq<Handle>, m: seq<Handle>, heap': seq<Handle>, ids: seq<Id>, h: Id)
    requires OthersSame(heap, m, ids) && h < |m| && heap' == m[h := m[h].(refs := 0, inCache := false)]
    ensures OthersSame(heap, heap', ids + [h])
  {
    forall g | 0 <= g < |heap| && g !in ids + [h] ensures heap'[g] == heap[g] { assert g !in ids && (ids + [h])[|ids|] == h; }
  }

  lemma EvictedNone(b: Books)
    requires Fits(b)
    ensures Evicted(b, b, 0)
  {
    assert b.lru[..0] == [] && b.lru[0..] == b.lru;
  }

  /** Evicting fewer entries would not have made room for charge. */
  ghost predicate Needed(b: Books, n: nat, charge: nat, capacity: nat) {
    forall i :: 0 <= i < n ==> b.usage - Prefix(b, i) + charge > capacity
  }

  ghost function Prefix(b: Books, i: nat): nat {
    if i <= |b.lru| && Ids(b.heap, b.lru[..i]) then ListCharge(b.heap, b.lru[..i]) else 0
  }

  lemma NeededNone(b: Books, charge: nat, capacity: nat)
    ensures Needed(b, 0, charge, capacity)
  {
  }

  lemma NeededMore(b: Books, n: nat, charge: nat, capacity: nat)
    requires Needed(b, n, charge, capacity) && b.usage - Prefix(b, n) + charge > capacity
    ensures Needed(b, n + 1, charge, capacity)
  {
  }

  lemma ListedFacts(b: Books, h: Id)
    requires Fits(b) && h in b.lru
    ensures h < |b.heap| == |b.held| && b.heap[h].inCache && b.heap[h].refs == 1 && b.held[h] == 0
    ensures Indexed(b.index, b.heap[h].tag, h) && b.heap[h].charge <= b.usage
    ensures ListFits(b.heap, b.lru, b.lowPri, b.lruUsage, b.poolUsage)
  {
    assert HandleFits(b, h);
    LiveChargeUpdate(b.heap, h, b.heap[h]);
  }

  lemma EmptyBooks(t: Times)
    ensures Fits(Books([], [], [], {}, map[], [], 0, 0, 0, 0, t))
  {
  }

  lemma EmptyOrder(t: Times)
    ensures InOrder([], 0, t)
  {
  }

  class LRUCacheShard {
    var capacity: nat
    var usage: nat
    var lruUsage: nat
    var highPriPoolUsage: nat
    var strictCapacityLimit: bool
    var highPriPoolRatio: real
    var highPriPoolCapacity: real
    const ring: Ring.LRURing
    /** What the ring holds: oldest first, the first lowPri entries being the low-priority pool. */
    ghost var lru: seq<Id>
    ghost var lowPri: nat
    var heap: seq<Handle>
    const table: LRUHandleTable
    /** The clients' side: how many references to each handle they own. */
    var held: seq<nat>
    ghost var freed: seq<nat>
    ghost var doomed: set<Id>
    ghost var times: Times

    ghost function View(): Books
      reads this, table
    {
      Books(heap, held, freed, doomed, table.contents, lru, lowPri, usage, lruUsage, highPriPoolUsage, times)
    }

    ghost predicate Sound()
      reads this, table, table.list, ring
    {
      table.Valid() && Fits(View()) && RingOk()
    }

    /** The ring links the list, and the list is in the order of its times. */
    ghost predicate RingOk()
      reads `lru, `lowPri, `times, ring
    {
      ring.Valid() && ring.order == lru && ring.low == lowPri && InOrder(lru, lowPri, times)
    }

    /** The high-priority pool's capacity, if entries go there. */
    ghost function Pool(): Option<real>
      reads `highPriPoolRatio, `highPriPoolCapacity
    {
      if highPriPoolRatio > 0.0 then Some(highPriPoolCapacity) else None
    }

    /** A full cache has nothing left to evict. */
    ghost predicate Valid()
      reads this, table, table.list, ring
    {
      Sound() && (usage > capacity ==> lru == []) && PoolUsable()
    }

    /** If entries go into the high-priority pool, its capacity is not negative. */
    ghost predicate PoolUsable()
      reads `highPriPoolRatio, `highPriPoolCapacity
    {
      highPriPoolRatio > 0.0 ==> highPriPoolCapacity >= 0.0
    }

    /** The pool's share of the capacity; only the constructor and two setters touch these fields. */
    ghost predicate Configured()
      reads `capacity, `highPriPoolRatio, `highPriPoolCapacity
    {
      highPriPoolCapacity == capacity as real * highPriPoolRatio
    }

    ghost predicate ListOk()
      reads this, ring
    {
      ListFits(heap, lru, lowPri, lruUsage, highPriPoolUsage) && RingOk()
    }

    constructor (capacity: nat, strict: bool, ratio: real)
      ensures Valid() && Configured() && heap == [] && table.contents == map[] && fresh(table) && fresh(table.list) && fresh(ring)
      ensures this.capacity == capacity && strictCapacityLimit == strict && highPriPoolRatio == ratio
    {
      hide Fits, LRUHandleTable.Valid, Ring.LRURing.Valid, InOrder;
      Scaled(capacity, ratio);
      EmptyBooks(BEGINNING);
      EmptyOrder(BEGINNING);
      this.capacity, strictCapacityLimit, highPriPoolRatio := capacity, strict, ratio;
      highPriPoolCapacity := capacity as real * ratio;
      usage, lruUsage, highPriPoolUsage, lru, lowPri, heap := 0, 0, 0, [], 0, [];
      held, freed, doomed, times := [], [], {}, BEGINNING;
      table := new LRUHandleTable();
      ring := new Ring.LRURing();
    }

    // ---- The list ----

    method LruRemove(e: Id)
      requires ListOk() && e in lru
      modifies `lru, `lowPri, `lruUsage, `highPriPoolUsage, ring
      ensures ListOk() && lru == Without(old(lru), e) && lruUsage + heap[e].charge == old(lruUsage)
      ensures lowPri == Boundary(old(lru), old(lowPri), e)
    {
      hide ListFits, Without, Distinct, Boundary, Ring.LRURing.Valid, InOrder;
      ghost var at := ring.Remove(e);
      OrderCut(lru, lowPri, times, at);
      ListRemoved(heap, lru, lowPri, lruUsage, highPriPoolUsage, at);
      WithoutAt(lru, at);
      BoundaryAt(lru, lowPri, at);
      lru, lowPri := ring.order, ring.low;
      lruUsage := lruUsage - heap[e].charge;
      if heap[e].inHighPool { highPriPoolUsage := highPriPoolUsage - heap[e].charge; }
    }

    /** The entry to evict next, or the dummy head. */
    method Oldest() returns (e: Ring.Node)
      requires RingOk()
      ensures if lru == [] then e == Ring.HEAD else e == lru[0]
    {
      hide Ring.LRURing.Valid;
      e := ring.First();
    }

    /** Link e at the head of the list, or of the low-priority pool. */
    method LruInsert(e: Id) returns (high: bool)
      requires ListOk() && e < |heap| && e !in lru && PoolUsable()
      modifies `heap, `lru, `lowPri, `lruUsage, `highPriPoolUsage, `times, ring
      ensures high <==> highPriPoolRatio > 0.0 && old(heap[e].highPri)
      ensures ListOk() && SameButPool(old(heap), heap) && lruUsage == old(lruUsage + heap[e].charge)
      ensures lru == Linked(old(lru), old(lowPri), e, high) && Placed(old(lowPri), heap, lru, lowPri, highPriPoolUsage, high, Pool())
      ensures Relinked(old(times), times, e, Overtaken(old(lowPri), lru, lowPri, high)) && (!high ==> highPriPoolUsage == old(highPriPoolUsage))
    {
      hide ListFits, SameButPool, Ring.LRURing.Valid, InOrder;
      var charge := heap[e].charge;
      high := highPriPoolRatio > 0.0 && heap[e].highPri;
      ListLinked(heap, lru, lowPri, lruUsage, highPriPoolUsage, e, high);
      OrderLinked(lru, lowPri, times, e, high);
      if high { ring.InsertHead(e); } else { ring.InsertLow(e); }
      lru := Linked(lru, lowPri, e, high);
      times := Stamped(times, e);
      assert ring.order == lru;
      hide Linked, Relinked;
      heap := heap[e := heap[e].(inHighPool := high)];
      Marked(old(heap), e, high);
      if high {
        highPriPoolUsage := highPriPoolUsage + charge;
        ghost var marked := heap;
        var fits := MaintainPoolSize(lruUsage + charge);
        StillSame(old(heap), marked, heap);
        SamePools(marked, heap, lru);
      } else {
        lowPri := lowPri + 1;
      }
      lruUsage := lruUsage + charge;
      JustLinked(old(times), times, e, Overtaken(old(lowPri), lru, lowPri, high));
    }

    /** Demote the oldest entries of the high-priority pool until the pool fits, stopping at the first place that
        does.  With a negative capacity none does: the pointer would come back to the dummy head, which the source
        asserts it never does, and the method says so. */
    method MaintainPoolSize(ghost listed: nat) returns (fits: bool)
      requires ListFits(heap, lru, lowPri, listed, highPriPoolUsage) && RingOk()
      modifies `heap, `lowPri, `highPriPoolUsage, `times, ring
      ensures ListFits(heap, lru, lowPri, listed, highPriPoolUsage) && RingOk() && SameButPool(old(heap), heap)
      ensures fits <==> highPriPoolCapacity >= 0.0
      ensures old(lowPri) <= lowPri <= |lru| && if fits then highPriPoolUsage as real <= highPriPoolCapacity else lowPri == |lru|
      ensures times.linked == old(times.linked) && times.clock >= old(times.clock)
      ensures times.demoted == old(times.demoted) + Members(lru[old(lowPri)..lowPri])
      ensures forall i :: old(lowPri) <= i < lowPri ==> PoolFrom(old(heap), lru, i) as real > highPriPoolCapacity
    {
      hide Ring.LRURing.Valid, ListFits, PoolFrom, SameButPool, InOrder, Passed, Members, Distinct;
      SameAsItself(heap);
      NoneOvertaken(lru, lowPri, times);
      InRange(heap, lru, lowPri, listed, highPriPoolUsage);
      while highPriPoolUsage as real > highPriPoolCapacity
        invariant ListFits(heap, lru, lowPri, listed, highPriPoolUsage) && RingOk() && SameButPool(old(heap), heap)
        invariant old(lowPri) <= lowPri <= |lru| && times.linked == old(times.linked) && times.clock >= old(times.clock)
        invariant times.demoted == old(times.demoted) + Members(lru[old(lowPri)..lowPri])
        invariant forall i :: old(lowPri) <= i < lowPri ==> PoolFrom(old(heap), lru, i) as real > highPriPoolCapacity
        decreases |lru| - lowPri
      {
        PoolOver(old(heap), heap, lru, lowPri, listed, highPriPoolUsage);
        var atHead := ring.NothingAbove();
        if atHead { return false; }
        InRange(heap, lru, lowPri, listed, highPriPoolUsage);
        PassedMore(times, lru, old(lowPri), lowPri);
        ghost var before := heap;
        DemoteOne(listed);
        StillSame(old(heap), before, heap);
      }
      fits := true;
    }

    /** The oldest entry of the high-priority pool becomes the newest of the low-priority one. */
    method DemoteOne(ghost listed: nat)
      requires ListFits(heap, lru, lowPri, listed, highPriPoolUsage) && RingOk() && lowPri < |lru|
      modifies `heap, `lowPri, `highPriPoolUsage, `times, ring
      ensures ListFits(heap, lru, lowPri, listed, highPriPoolUsage) && RingOk() && SameButPool(old(heap), heap)
      ensures lowPri == old(lowPri) + 1 && times == Passed(old(times), lru[old(lowPri)])
    {
      hide Ring.LRURing.Valid, ListFits, SameButPool, InOrder, Passed, Distinct;
      InRange(heap, lru, lowPri, listed, highPriPoolUsage);
      SameAsItself(heap);
      PoolOver(heap, heap, lru, lowPri, listed, highPriPoolUsage);
      ListDemoted(heap, lru, lowPri, listed, highPriPoolUsage);
      OrderPassed(lru, lowPri, times);
      var e := ring.AdvanceLow();
      lowPri := lowPri + 1;
      times := Passed(times, e);
      Marked(heap, e, false);
      heap := heap[e := heap[e].(inHighPool := false)];
      highPriPoolUsage := highPriPoolUsage - heap[e].charge;
    }

    // ---- Eviction ----

    method EvictOldest() returns (victim: Id)
      requires Sound() && lru != []
      modifies `heap, `lru, `lowPri, `lruUsage, `highPriPoolUsage, `usage, `doomed, table, table.list, ring
      ensures Sound() && table.list == old(table.list) && victim == old(lru[0]) && EvictedOne(old(View()), View())
      ensures freed == old(freed) && doomed == old(doomed) + {victim}
    {
      hide RingOk, Fits, ListFits, Without, LRUHandleTable.Valid, Boundary, EvictedOne;
      victim := Oldest();
      ghost var b := View();
      ListedFacts(b, victim);
      LruRemove(victim);
      Uncache(victim);
      EvictedFront(b, View());
    }

    /** An entry only the cache refers to leaves the table and loses that reference. */
    method Uncache(e: Id)
      requires table.Valid() && e < |heap| && heap[e].refs == 1 && usage >= heap[e].charge
      modifies `heap, `usage, `doomed, table, table.list
      ensures table.Valid() && table.list == old(table.list)
      ensures heap == old(heap)[e := old(heap)[e].(refs := 0, inCache := false)] && usage == old(usage) - heap[e].charge
      ensures doomed == old(doomed) + {e} && table.contents == old(table.contents) - {heap[e].tag}
    {
      hide LRUHandleTable.Valid;
      var removed := table.Remove(heap[e].tag);
      heap := heap[e := heap[e].(inCache := false, refs := heap[e].refs - 1)];
      usage := usage - heap[e].charge;
      doomed := doomed + {e};
    }

    /** Evict oldest entries until charge fits or nothing is left to evict. */
    method EvictFromLRU(charge: nat) returns (deleted: seq<Id>)
      requires Sound()
      modifies `heap, `lru, `lowPri, `lruUsage, `highPriPoolUsage, `usage, `doomed, table, table.list, ring
      ensures Sound() && table.list == old(table.list) && |deleted| <= |old(lru)| && deleted == old(lru)[..|deleted|]
      ensures freed == old(freed) && forall g :: g in doomed <==> g in old(doomed) || g in deleted
      ensures Evicted(old(View()), View(), |deleted|) && Needed(old(View()), |deleted|, charge, capacity)
      ensures usage + charge <= capacity || lru == []
    {
      hide RingOk, Fits, EvictedOne, Evicted, ListCharge, Needed, Prefix, LRUHandleTable.Valid;
      ghost var b := View();
      EvictedNone(b);
      NeededNone(b, charge, capacity);
      deleted := [];
      var oldest := Oldest();
      while usage + charge > capacity && oldest != Ring.HEAD
        invariant oldest == Ring.HEAD <==> lru == []
        invariant Sound() && table.list == old(table.list) && |deleted| <= |b.lru| && deleted == b.lru[..|deleted|]
        invariant Evicted(b, View(), |deleted|) && Needed(b, |deleted|, charge, capacity)
        invariant freed == old(freed) && forall g :: g in doomed <==> g in old(doomed) || g in deleted
        decreases |lru|
      {
        ghost var m := View();
        var victim := EvictOldest();
        EvictStep(b, m, View(), |deleted|);
        NeededMore(b, |deleted|, charge, capacity);
        deleted := deleted + [victim];
        oldest := Oldest();
      }
    }

    /** The deleter runs; the source asserts that no reference is left. */
    method Free(h: Id)
      requires Sound() && h in doomed
      modifies `freed, `doomed
      ensures Sound() && h < |old(freed)| == |heap| && freed == old(freed)[h := old(freed)[h] + 1] && doomed == old(doomed) - {h}
      ensures heap[h].refs == 0 && !heap[h].inCache && held[h] == 0
    {
      hide RingOk, Fits, LRUHandleTable.Valid;
      ghost var b := View();
      DoomedFacts(b, h);
      freed, doomed := freed[h := freed[h] + 1], doomed - {h};
      DeleterRuns(b, View(), h);
    }

    method FreeAll(ids: seq<Id>)
      requires Sound() && Distinct(ids) && forall i :: 0 <= i < |ids| ==> ids[i] in doomed
      modifies `freed, `doomed
      ensures Sound() && FreedAlso(old(freed), freed, ids)
      ensures forall g :: g in doomed <==> g in old(doomed) && g !in ids
    {
      hide RingOk, Fits, LRUHandleTable.Valid;
      for i := 0 to |ids|
        invariant Sound() && FreedAlso(old(freed), freed, ids[..i])
        invariant forall g :: g in doomed <==> g in old(doomed) && g !in ids[..i]
      {
        assert ids[..i + 1] == ids[..i] + [ids[i]] && ids[i] !in ids[..i];
        Free(ids[i]);
      }
      assert ids[..|ids|] == ids;
    }

    // ---- The cache's operations ----

    method SetCapacity(newCapacity: nat) returns (evicted: seq<Id>)
      requires Valid()
      modifies `capacity, `highPriPoolCapacity, `heap, `lru, `lowPri, `lruUsage, `highPriPoolUsage, `usage, `doomed, `freed, table, table.list, ring
      ensures Valid() && Configured() && capacity == newCapacity && table.list == old(table.list)
      ensures |evicted| <= |old(lru)| && evicted == old(lru)[..|evicted|] && Evicted(old(View()), View(), |evicted|)
      ensures Needed(old(View()), |evicted|, 0, newCapacity) && (usage <= newCapacity || lru == [])
      ensures FreedAlso(old(freed), freed, evicted) && doomed == old(doomed)
    {
      hide RingOk, Fits, Evicted, LRUHandleTable.Valid, Needed, FreedAlso;
      Scaled(newCapacity, highPriPoolRatio);
      ghost var b := View();
      ListedNotDoomed(b);
      capacity := newCapacity;
      highPriPoolCapacity := capacity as real * highPriPoolRatio;
      assert View() == b;
      evicted := EvictFromLRU(0);
      ghost var m := View();
      FreeAll(evicted);
      EvictedFrame(b, m, View(), |evicted|);
    }

    method SetStrictCapacityLimit(strict: bool)
      requires Valid()
      modifies `strictCapacityLimit
      ensures Valid() && strictCapacityLimit == strict && View() == old(View())
    {
      hide RingOk, Fits, LRUHandleTable.Valid;
      strictCapacityLimit := strict;
    }

    /** Says whether the assertion on the dummy head held; a ratio below 0 runs into it unless the capacity is 0. */
    method SetHighPriorityPoolRatio(ratio: real) returns (fits: bool)
      requires Valid()
      modifies `highPriPoolRatio, `highPriPoolCapacity, `heap, `lowPri, `highPriPoolUsage, `times, ring
      ensures Valid() && Configured() && highPriPoolRatio == ratio && (fits <==> ratio >= 0.0 || capacity == 0)
      ensures if fits then highPriPoolUsage as real <= highPriPoolCapacity else lowPri == |lru|
      ensures SameButPool(old(heap), heap) && old(lowPri) <= lowPri <= |lru|
      ensures times.linked == old(times.linked) && times.clock >= old(times.clock)
      ensures times.demoted == old(times.demoted) + Members(lru[old(lowPri)..lowPri])
      ensures forall i :: old(lowPri) <= i < lowPri ==> PoolFrom(old(heap), lru, i) as real > highPriPoolCapacity
    {
      hide RingOk, Fits, ListFits, SameButPool, LRUHandleTable.Valid;
      ghost var b := View();
      ListPart(b);
      Scaled(capacity, ratio);
      highPriPoolRatio := ratio;
      highPriPoolCapacity := capacity as real * highPriPoolRatio;
      fits := MaintainPoolSize(lruUsage);
      Remarked(b, View());
    }

    method Lookup(tag: Tag) returns (r: Option<Id>)
      requires Valid()
      modifies `heap, `lru, `lowPri, `lruUsage, `highPriPoolUsage, `held, ring
      ensures Valid() && r == if tag in table.contents then Some(table.contents[tag]) else None
      ensures if r.None? then View() == old(View()) else TookReference(old(View()), View(), r.value)
    {
      hide RingOk;
      r := table.Lookup(tag);
      if r.Some? {
        IndexedFacts(View(), tag);
        TakeReference(r.value);
      }
    }

    method Ref(h: Id)
      requires Valid() && h < |held| && held[h] > 0
      modifies `heap, `lru, `lowPri, `lruUsage, `highPriPoolUsage, `held, ring
      ensures Valid() && TookReference(old(View()), View(), h) && lru == old(lru)
    {
      hide RingOk;
      assert HandleFits(View(), h);
      TakeReference(h);
    }

    /** Shared by Lookup and Ref: an entry the cache alone referred to leaves the list. */
    method TakeReference(h: Id)
      requires Valid() && h < |heap| && heap[h].refs > 0
      modifies `heap, `lru, `lowPri, `lruUsage, `highPriPoolUsage, `held, ring
      ensures Valid() && TookReference(old(View()), View(), h)
    {
      hide RingOk, Fits, ListFits, Without, LRUHandleTable.Valid;
      ghost var b := View();
      HandleFacts(b, h);
      if heap[h].inCache && heap[h].refs == 1 { LruRemove(h); }
      heap := heap[h := heap[h].(refs := heap[h].refs + 1)];
      held := held[h := held[h] + 1];
      Taken(b, View(), h);
    }

    /** Returns whether the entry was freed. */
    method Release(handle: Option<Id>, forceErase: bool) returns (lastReference: bool)
      requires Valid() && (handle.Some? ==> handle.value < |held| && held[handle.value] > 0)
      modifies `heap, `lru, `lowPri, `lruUsage, `highPriPoolUsage, `times, `usage, `held, `freed, `doomed, table, table.list, ring
      ensures Valid() && table.list == old(table.list)
      ensures handle.None? ==> !lastReference && View() == old(View())
      ensures handle.Some? ==> handle.value < |old(heap)|
      ensures handle.Some? ==> (lastReference <==>
                old(held)[handle.value] == 1 && (forceErase || !old(heap)[handle.value].inCache || old(usage) > capacity))
      ensures handle.Some? ==> Released(old(View()), View(), handle.value, lastReference, Pool())
    {
      hide RingOk, Fits, LRUHandleTable.Valid, Released;
      if handle.None? { return false; }
      SameLengths(View());
      HandleFacts(View(), handle.value);
      lastReference := ReleaseLocked(handle.value, forceErase);
      if lastReference {
        ghost var m := View();
        Free(handle.value);
        FreedAfterRelease(old(View()), m, View(), handle.value, Pool());
      } else {
        KeptAfterRelease(old(View()), View(), handle.value, Pool());
      }
    }

    /** The part of Release under the mutex. */
    method ReleaseLocked(e: Id, forceErase: bool) returns (lastReference: bool)
      requires Valid() && e < |held| && held[e] > 0
      modifies `heap, `lru, `lowPri, `lruUsage, `highPriPoolUsage, `times, `usage, `held, `doomed, table, table.list, ring
      ensures Valid() && table.list == old(table.list) && lastReference == LastRelease(old(View()), e, forceErase, capacity)
      ensures ReleasedLocked(old(View()), View(), e, lastReference, Pool())
    {
      hide RingOk, Fits, LRUHandleTable.Valid, HandleFits, Listed, SameButPool, ReleasedLocked, LastRelease, PoolUsable;
      ghost var b := View();
      ReleaseFacts(b, e);
      lastReference := Unref(e);
      if lastReference { usage := usage - heap[e].charge; }
      if heap[e].refs == 1 && heap[e].inCache {
        if usage > capacity || forceErase {
          assert usage > capacity ==> lru == [];
          DropReleased(e, b);
          lastReference := true;
          ReleasedLast(b, View(), e, forceErase, capacity, Pool());
        } else {
          Park(e, b);
          ReleasedParked(b, View(), e, forceErase, capacity, Pool());
        }
      } else if lastReference {
        doomed := doomed + {e};
        Gone(b, View(), e);
        ReleasedLast(b, View(), e, forceErase, capacity, Pool());
      } else {
        Unheld(b, View(), e);
        ReleasedHeld(b, View(), e, forceErase, capacity, Pool());
      }
    }

    /** Drops a client's reference; says whether it was the last one. */
    method Unref(e: Id) returns (last: bool)
      requires e < |heap| == |held| && heap[e].refs > 0 && held[e] > 0
      modifies `heap, `held
      ensures heap == old(heap)[e := old(heap)[e].(refs := old(heap)[e].refs - 1)] && held == old(held)[e := old(held)[e] - 1]
      ensures last == (heap[e].refs == 0)
    {
      heap := heap[e := heap[e].(refs := heap[e].refs - 1)];
      held := held[e := held[e] - 1];
      last := heap[e].refs == 0;
    }

    /** Nobody but the cache refers to e any more, and the cache gives it up. */
    method DropReleased(e: Id, ghost b: Books)
      requires table.Valid() && RingOk() && Fits(b) && e < |b.heap| == |b.held| && b.held[e] == 1 && b.heap[e].inCache && b.heap[e].charge <= b.usage
      requires View() == b.(heap := b.heap[e := b.heap[e].(refs := 1)], held := b.held[e := 0])
      modifies `heap, `usage, `doomed, table, table.list
      ensures Sound() && table.list == old(table.list)
      ensures View() == b.(heap := b.heap[e := b.heap[e].(refs := 0, inCache := false)], held := b.held[e := 0],
                           doomed := b.doomed + {e}, index := b.index - {b.heap[e].tag}, usage := b.usage - b.heap[e].charge)
    {
      hide RingOk, Fits, LRUHandleTable.Valid;
      Uncache(e);
      Gone(b, View(), e);
    }

    /** Nobody but the cache refers to e any more, and the cache keeps it. */
    method Park(e: Id, ghost b: Books)
      requires table.Valid() && Fits(b) && e < |b.heap| == |b.held| && b.held[e] == 1 && b.heap[e].inCache && HandleFits(b, e)
      requires View() == b.(heap := b.heap[e := b.heap[e].(refs := 1)], held := b.held[e := 0]) && RingOk() && PoolUsable()
      modifies `heap, `lru, `lowPri, `lruUsage, `highPriPoolUsage, `times, ring
      ensures Sound() && Listed(b, View(), e, b.heap[e].highPri, Pool())
      ensures SameButPool(b.heap[e := b.heap[e].(refs := 1)], heap)
    {
      hide RingOk, Fits, ListFits, LRUHandleTable.Valid, Linked;
      ListPart(b);
      SameLengths(b);
      ListAfter(b, View(), e, heap[e]);
      var high := LruInsert(e);
      Parked(b, View(), e);
    }

    method Erase(tag: Tag)
      requires Valid()
      modifies `heap, `lru, `lowPri, `lruUsage, `highPriPoolUsage, `usage, `freed, `doomed, table, table.list, ring
      ensures Valid() && table.list == old(table.list)
      ensures if tag in old(table.contents) then Erased(old(View()), View(), tag) else View() == old(View())
    {
      hide RingOk, Fits, LRUHandleTable.Valid, Erased, ErasedLocked;
      ghost var b := View();
      var e, last := EraseLocked(tag);
      if e.Some? {
        if last {
          ghost var m := View();
          Free(e.value);
          FreedAfterErase(b, m, View(), tag);
        } else {
          KeptAfterErase(b, View(), tag);
        }
      }
    }

    /** The part of Erase under the mutex. */
    method EraseLocked(tag: Tag) returns (removed: Option<Id>, last: bool)
      requires Valid()
      modifies `heap, `lru, `lowPri, `lruUsage, `highPriPoolUsage, `usage, `doomed, table, table.list, ring
      ensures Valid() && table.list == old(table.list)
      ensures removed == if tag in old(table.contents) then Some(old(table.contents[tag])) else None
      ensures removed.None? ==> View() == old(View())
      ensures removed.Some? ==> removed.value < |old(heap)| && old(heap)[removed.value].tag == tag
      ensures removed.Some? ==> removed.value !in old(doomed) && ErasedLocked(old(View()), View(), removed.value, last)
      ensures removed.Some? && last ==> removed.value in doomed
    {
      hide RingOk, Fits, LRUHandleTable.Valid, HandleFits, ErasedLocked, Cost, PoolUsable;
      ghost var b := View();
      removed := table.Remove(tag);
      last := false;
      if removed.None? {
        assert b.index - {tag} == b.index;
      } else {
        EntryFacts(b, tag);
        last := Unlist(removed.value, b, 0);
        ghost var b' := View();
        assert b'.(index := b.index - {b.heap[removed.value].tag}, usage := usage - 0) == b';
        StillNothingToEvict(b, b', removed.value, last);
      }
    }

    /** The cache gives up its reference to e, whose tag has left the table or names a newcomer whose charge is
        already counted; returns whether it was the last reference. */
    method Unlist(e: Id, ghost b: Books, ghost extra: nat) returns (last: bool)
      requires Fits(b) && RingOk() && e < |b.heap| == |b.held| == |b.freed| && HandleFits(b, e) && b.heap[e].inCache && Cost(b.heap[e]) <= b.usage
      requires View() == b.(index := table.contents, usage := b.usage + extra)
      modifies `heap, `lru, `lowPri, `lruUsage, `highPriPoolUsage, `usage, `doomed, ring
      ensures RingOk() && usage >= extra && (last ==> e in doomed)
      ensures var b' := View().(index := b.index - {b.heap[e].tag}, usage := usage - extra);
              Fits(b') && ErasedLocked(b, b', e, last)
    {
      hide RingOk, Fits, ListFits, LRUHandleTable.Valid, Without, Boundary;
      ListPart(b);
      heap := heap[e := heap[e].(inCache := false, refs := heap[e].refs - 1)];
      last := heap[e].refs == 0;
      ListAfter(b, View(), e, heap[e]);
      if last {
        usage := usage - heap[e].charge;
        LruRemove(e);
        doomed := doomed + {e};
        ListBack(b.heap, e, heap[e], lru, lowPri, lruUsage, highPriPoolUsage);
        Dropped(b, View().(index := b.index - {b.heap[e].tag}, usage := usage - extra), e);
      } else {
        Detached(b, View().(index := b.index - {b.heap[e].tag}, usage := usage - extra), e);
      }
    }

    method EraseUnRefEntries() returns (erased: seq<Id>)
      requires Valid()
      modifies `heap, `lru, `lowPri, `lruUsage, `highPriPoolUsage, `usage, `doomed, `freed, table, table.list, ring
      ensures Valid() && table.list == old(table.list) && lru == [] && lruUsage == 0 && erased == old(lru)
      ensures Evicted(old(View()), View(), |erased|) && FreedAlso(old(freed), freed, erased) && doomed == old(doomed)
    {
      hide RingOk, Fits, EvictedOne, Evicted, ListCharge, LRUHandleTable.Valid, FreedAlso;
      ghost var b := View();
      EvictedNone(b);
      ListedNotDoomed(b);
      erased := [];
      var oldest := Oldest();
      while oldest != Ring.HEAD
        invariant oldest == Ring.HEAD <==> lru == []
        invariant Sound() && table.list == old(table.list) && |erased| <= |b.lru| && erased == b.lru[..|erased|]
        invariant Evicted(b, View(), |erased|)
        invariant freed == old(freed) && forall g :: g in doomed <==> g in old(doomed) || g in erased
        decreases |lru|
      {
        ghost var m := View();
        var victim := EvictOldest();
        EvictStep(b, m, View(), |erased|);
        erased := erased + [victim];
        oldest := Oldest();
      }
      ghost var m := View();
      FreeAll(erased);
      EvictedFrame(b, m, View(), |erased|);
      AllEvicted(b, View(), |erased|);
    }

    /** evicted: the entries evicted to make room.  A rejected newcomer without a handle is freed at once. */
    method Insert(tag: Tag, charge: nat, keep: bool, high: bool)
      returns (status: Status, handle: Option<Id>, evicted: seq<Id>, newcomerFreed: bool, ghost room: Books)
      requires Valid()
      modifies `heap, `lru, `lowPri, `lruUsage, `highPriPoolUsage, `times, `usage, `held, `freed, `doomed, table, table.list, ring
      ensures Valid() && (table.list == old(table.list) || fresh(table.list)) && doomed == old(doomed)
      ensures |evicted| <= |old(lru)| && evicted == old(lru)[..|evicted|]
      ensures Evicted(old(View()), room, |evicted|) && Needed(old(View()), |evicted|, charge, capacity)
      ensures var pinned := old(usage) - old(lruUsage);
              if pinned + charge > capacity && (strictCapacityLimit || !keep)
              then Rejected(old(View()), room, View(), evicted) && status == (if keep then Incomplete else Ok)
                   && handle == None && newcomerFreed == !keep
              else Entered(room, View(), tag, charge, keep, high, Pool()) && status == Ok && !newcomerFreed
                   && handle == (if keep then Some(|old(heap)|) else None)
                   && FreedAlso(old(freed) + [0], freed, evicted + Victims(room, tag))
                   && (strictCapacityLimit || !keep ==> usage <= capacity)
    {
      hide RingOk, Fits, LRUHandleTable.Valid, Evicted, Entered, Needed, FreedAlso, Victims;
      ghost var b := View();
      ListedNotDoomed(b);
      evicted := EvictFromLRU(charge);
      room := View();
      EvictedPins(b, room, |evicted|);
      NothingListed(room);
      handle, newcomerFreed := None, false;
      if usage - lruUsage + charge > capacity && (strictCapacityLimit || !keep) {
        status := if keep then Incomplete else Ok;
        newcomerFreed := !keep;
        FreeAll(evicted);
      } else {
        status := Ok;
        if keep { handle := Some(|heap|); }
        AdmitAndFree(tag, charge, keep, high, evicted, b);
      }
    }

    /** Enter the new entry, then free what was evicted and what it replaces. */
    method AdmitAndFree(tag: Tag, charge: nat, keep: bool, high: bool, evicted: seq<Id>, ghost b: Books)
      requires Sound() && PoolUsable() && Fits(b) && freed == b.freed && |evicted| <= |b.lru| && evicted == b.lru[..|evicted|]
      requires forall g :: g in doomed <==> g in b.doomed || g in evicted
      modifies `heap, `lru, `lowPri, `lruUsage, `highPriPoolUsage, `times, `usage, `held, `freed, `doomed, table, table.list, ring
      ensures Sound() && (table.list == old(table.list) || fresh(table.list)) && doomed == b.doomed
      ensures Entered(old(View()), View(), tag, charge, keep, high, Pool())
      ensures FreedAlso(b.freed + [0], freed, evicted + Victims(old(View()), tag))
      ensures usage <= old(usage) + charge && (keep && old(lru) == [] ==> lru == [])
    {
      hide RingOk, Fits, LRUHandleTable.Valid, Entered, FreedAlso, Victims;
      ghost var room := View();
      ListedNotDoomed(b);
      var victims := Admit(tag, charge, keep, high);
      ghost var m := View();
      VictimsApart(b, room, |evicted|, tag);
      EnteredSize(room, m, tag, charge, keep, high, Pool());
      FreeAll(evicted + victims);
      EnteredFrame(room, m, View(), tag, charge, keep, high, Pool());
    }

    /** Enter a new entry into the table and give up the one it replaces. */
    method Admit(tag: Tag, charge: nat, keep: bool, high: bool) returns (victims: seq<Id>)
      requires Sound() && PoolUsable()
      modifies `heap, `lru, `lowPri, `lruUsage, `highPriPoolUsage, `times, `usage, `held, `freed, `doomed, table, table.list, ring
      ensures Sound() && (table.list == old(table.list) || fresh(table.list))
      ensures Entered(old(View()), View(), tag, charge, keep, high, Pool())
      ensures victims == Victims(old(View()), tag) && freed == old(freed) + [0]
      ensures forall g :: g in doomed <==> g in old(doomed) || g in victims
    {
      hide RingOk, Fits, LRUHandleTable.Valid, Entered, Replaced, Victims, Listed, HandleFits, SameButPool, PoolUsable, AfterAdmission;
      ghost var b := View();
      var e := |heap|;
      ghost var m;
      victims, m := Replace(tag, charge, e);
      ghost var pool := Append(tag, charge, keep, high);
      ghost var a := AdmitBooks(b, m, View(), tag, charge, keep, high, pool);
      if keep {
        EnteredHeld(b, m, a, tag, charge, high, pool, Pool());
      } else {
        Park(e, a);
        EnteredParked(b, m, View(), tag, charge, high, pool, Pool());
      }
    }

    /** The new handle; its pool mark is not set yet. */
    method Append(tag: Tag, charge: nat, keep: bool, high: bool) returns (ghost pool: bool)
      modifies `heap, `held, `freed
      ensures heap == old(heap) + [Handle(tag, charge, if keep then 2 else 1, true, high, pool)]
      ensures held == old(held) + [One(keep)] && freed == old(freed) + [0]
    {
      var mark: bool := *;
      pool := mark;
      heap := heap + [Handle(tag, charge, if keep then 2 else 1, true, high, mark)];
      held, freed := held + [One(keep)], freed + [0];
    }

    /** Put the newcomer e into the table; `m` are the books without it. */
    method Replace(tag: Tag, charge: nat, e: Id) returns (victims: seq<Id>, ghost m: Books)
      requires Sound() && e == |heap|
      modifies `heap, `lru, `lowPri, `lruUsage, `highPriPoolUsage, `usage, `doomed, table, table.list, ring
      ensures table.Valid() && RingOk() && (table.list == old(table.list) || fresh(table.list))
      ensures View() == m.(index := old(table.contents)[tag := e], usage := m.usage + charge) && m.index == old(table.contents) - {tag}
      ensures Fits(m) && Replaced(old(View()), m, tag) && victims == Victims(old(View()), tag)
      ensures forall g :: g in doomed <==> g in old(doomed) || g in victims
    {
      hide RingOk, Fits, LRUHandleTable.Valid, ErasedLocked, Replaced, Victims;
      ghost var b := View();
      var displaced := table.Insert(Entry(tag, e));
      usage := usage + charge;
      victims := [];
      if displaced.Some? {
        var last;
        last, m := GiveUp(displaced.value, b, tag, charge);
        if last { victims := [displaced.value]; }
      } else {
        m := b;
        ReplacedNone(b, tag);
      }
    }

    /** The cache gives up its reference to the entry a newcomer of this charge replaces. */
    method GiveUp(e: Id, ghost b: Books, ghost tag: Tag, ghost charge: nat) returns (last: bool, ghost m: Books)
      requires Fits(b) && RingOk() && tag in b.index && b.index[tag] == e
      requires View() == b.(index := table.contents, usage := b.usage + charge)
      modifies `heap, `lru, `lowPri, `lruUsage, `highPriPoolUsage, `usage, `doomed, ring
      ensures RingOk() && View() == m.(index := table.contents, usage := m.usage + charge) && m.index == b.index - {tag}
      ensures Fits(m) && Replaced(b, m, tag) && Victims(b, tag) == (if last then [e] else [])
      ensures forall g :: g in m.doomed <==> g in b.doomed || g in Victims(b, tag)
    {
      hide RingOk, Fits, ErasedLocked, Replaced, Victims, HandleFits, Cost;
      EntryFacts(b, tag);
      last := Unlist(e, b, charge);
      m := View().(index := b.index - {tag}, usage := usage - charge);
      ReplacedOne(b, m, tag, last);
    }

    method GetUsage() returns (r: nat)
      requires Valid()
      ensures r == LiveCharge(heap)
    {
      r := usage;
    }

    method GetPinnedUsage() returns (r: nat)
      requires Valid()
      ensures |heap| == |held| && r == HeldCharge(heap, held)
    {
      assert usage >= lruUsage;
      r := usage - lruUsage;
    }
  }

  /** Charge of the list from position i on. */
  ghost function PoolFrom(heap: seq<Handle>, lru: seq<Id>, i: nat): nat {
    if i <= |lru| && Ids(heap, lru[i..]) then ListCharge(heap, lru[i..]) else 0
  }

  lemma InRange(heap: seq<Handle>, lru: seq<Id>, lowPri: nat, listed: nat, pool: nat)
    requires ListFits(heap, lru, lowPri, listed, pool)
    ensures lowPri <= |lru| && Distinct(lru)
  {
  }

  lemma PassedMore(t: Times, lru: seq<Id>, from: nat, to: nat)
    requires from <= to < |lru|
    ensures Passed(t, lru[to]).linked == t.linked && Passed(t, lru[to]).clock == t.clock + 1
    ensures Passed(t, lru[to]).demoted == t.demoted + {lru[to]}
    ensures Members(lru[from..to]) + {lru[to]} == Members(lru[from..to + 1])
  {
    assert lru[from..to + 1] == lru[from..to] + [lru[to]];
  }

  lemma NoneOvertaken(lru: seq<Id>, n: nat, t: Times)
    ensures n <= |lru| ==> t.demoted + Members(lru[n..n]) == t.demoted
  {
  }

  lemma JustLinked(t: Times, t': Times, e: Id, passed: seq<Id>)
    requires t'.linked == Stamped(t, e).linked && t'.clock >= Stamped(t, e).clock
    requires t'.demoted == Stamped(t, e).demoted + Members(passed)
    ensures Relinked(t, t', e, passed)
  {
  }

  /** Pool marks do not matter to the charge of the pool. */
  lemma SamePools(a: seq<Handle>, b: seq<Handle>, lru: seq<Id>)
    requires SameButPool(a, b)
    ensures forall i: nat :: PoolFrom(a, lru, i) == PoolFrom(b, lru, i)
  {
    forall i: nat ensures PoolFrom(a, lru, i) == PoolFrom(b, lru, i) {
      if i <= |lru| && Ids(a, lru[i..]) { ListChargeSame(a, b, lru[i..]); }
    }
  }

  /** Where the boundary stands after an entry was linked: with a low-priority entry one further; with a high-priority one it
      has moved only over positions from which on the pool was too large, and the pool now fits. */
  ghost predicate Placed(from: nat, heap: seq<Handle>, lru: seq<Id>, to: nat, poolUsage: nat, high: bool, pool: Option<real>) {
    if high && pool.Some?
    then
      && from <= to <= |lru| && poolUsage as real <= pool.value
      && forall i :: from <= i < to ==> PoolFrom(heap, lru, i) as real > pool.value
    else to == from + 1
  }

  /** The entries the boundary has moved over, which are thereby demoted. */
  ghost function Overtaken(from: nat, lru: seq<Id>, to: nat, high: bool): seq<Id> {
    if high && from <= to <= |lru| then lru[from..to] else []
  }

  /** A pool with a charge has an oldest entry. */
  lemma PoolOver(was: seq<Handle>, heap: seq<Handle>, lru: seq<Id>, lowPri: nat, listed: nat, pool: nat)
    requires ListFits(heap, lru, lowPri, listed, pool) && SameButPool(was, heap)
    ensures if lowPri == |lru| then pool == 0 else lowPri < |lru| && lru[lowPri] < |heap|
    ensures PoolFrom(was, lru, lowPri) == pool
  {
    ListChargeSame(was, heap, lru[lowPri..]);
  }

  lemma SameAsItself(heap: seq<Handle>)
    ensures SameButPool(heap, heap)
  {
  }

  lemma Marked(heap: seq<Handle>, e: Id, high: bool)
    requires e < |heap|
    ensures SameButPool(heap, heap[e := heap[e].(inHighPool := high)])
  {
  }

  lemma StillSame(a: seq<Handle>, b: seq<Handle>, c: seq<Handle>)
    requires SameButPool(a, b) && SameButPool(b, c)
    ensures SameButPool(a, c)
  {
  }

  /** A client holds h once more; if only the cache had it, it has left the list. */
  ghost predicate TookReference(b: Books, b': Books, h: Id) {
    && h < |b.heap| == |b.held| && b'.held == b.held[h := b.held[h] + 1]
    && b'.heap == b.heap[h := b.heap[h].(refs := b.heap[h].refs + 1)]
    && b'.lru == (if h in b.lru then Without(b.lru, h) else b.lru)
    && b'.index == b.index && b'.freed == b.freed && b'.doomed == b.doomed && b'.usage == b.usage && b'.times == b.times
  }

  lemma HandleFacts(b: Books, h: Id)
    requires Fits(b) && h < |b.heap|
    ensures |b.heap| == |b.held| == |b.freed| && HandleFits(b, h) && b.heap[h].charge >= Cost(b.heap[h])
    ensures ListFits(b.heap, b.lru, b.lowPri, b.lruUsage, b.poolUsage) && b.usage >= Cost(b.heap[h])
    ensures b.held[h] > 0 ==> b.heap[h].refs > 0
  {
    LiveChargeUpdate(b.heap, h, b.heap[h]);
  }

  lemma DoomedFacts(b: Books, h: Id)
    requires Fits(b) && h in b.doomed
    ensures h < |b.heap| == |b.held| == |b.freed|
  {
  }

  lemma IndexedFacts(b: Books, tag: Tag)
    requires Fits(b) && tag in b.index
    ensures b.index[tag] < |b.heap| && b.heap[b.index[tag]].tag == tag && b.heap[b.index[tag]].inCache && b.heap[b.index[tag]].refs > 0
    ensures b.index[tag] !in b.doomed
  {
    assert EntryFits(b, tag) && HandleFits(b, b.index[tag]);
  }

  /** What giving up the entry of a tag starts from. */
  lemma EntryFacts(b: Books, tag: Tag)
    requires Fits(b) && tag in b.index
    ensures var h := b.index[tag];
            && h < |b.heap| == |b.held| == |b.freed| && HandleFits(b, h) && Cost(b.heap[h]) <= b.usage
            && b.heap[h].tag == tag && b.heap[h].inCache && h !in b.doomed
  {
    IndexedFacts(b, tag);
    HandleFacts(b, b.index[tag]);
    hide Fits, ListFits;
  }

  lemma EvictedFrame(b: Books, m: Books, b': Books, n: nat)
    requires Evicted(b, m, n) && b' == m.(freed := b'.freed, doomed := b'.doomed)
    ensures Evicted(b, b', n)
  {
  }

  lemma ListedNotDoomed(b: Books)
    requires Fits(b)
    ensures Distinct(b.lru) && forall i :: 0 <= i < |b.lru| ==> b.lru[i] !in b.doomed
  {
    forall i | 0 <= i < |b.lru| ensures b.lru[i] !in b.doomed { assert HandleFits(b, b.lru[i]); }
  }

  lemma ListPart(b: Books)
    requires Fits(b)
    ensures ListFits(b.heap, b.lru, b.lowPri, b.lruUsage, b.poolUsage)
  {
  }

  lemma Remarked(b: Books, b': Books)
    requires Fits(b) && SameButPool(b.heap, b'.heap) && ListFits(b'.heap, b.lru, b'.lowPri, b.lruUsage, b'.poolUsage)
    requires b' == b.(heap := b'.heap, lowPri := b'.lowPri, poolUsage := b'.poolUsage, times := b'.times)
    ensures Fits(b')
  {
    PoolMarksFree(b.heap, b'.heap, b.held);
    forall h | 0 <= h < |b'.heap| ensures HandleFits(b', h) { assert HandleFits(b, h); }
    forall tag | tag in b'.index ensures EntryFits(b', tag) { assert EntryFits(b, tag); }
    hide ListFits, LiveCharge, HeldCharge;
  }

  /** A client's release frees the entry: no reference is left, or only the cache's, which it gives up because
      it is over capacity or told to. */
  predicate LastRelease(b: Books, h: Id, forceErase: bool, capacity: nat)
  {
    h < |b.heap| == |b.held| && b.held[h] == 1 && (!b.heap[h].inCache || forceErase || b.usage > capacity)
  }

  /** Entry h has come onto the list of b: at its head or that of the low-priority pool, as its priority and the pool say. */
  ghost predicate Listed(b: Books, b': Books, h: Id, highPri: bool, pool: Option<real>) {
    var high := highPri && pool.Some?;
    && b.lowPri <= |b.lru| && b'.lru == Linked(b.lru, b.lowPri, h, high)
    && Placed(b.lowPri, b'.heap, b'.lru, b'.lowPri, b'.poolUsage, high, pool)
    && Relinked(b.times, b'.times, h, Overtaken(b.lowPri, b'.lru, b'.lowPri, high))
  }

  /** What a release does under the mutex: an entry to be freed leaves the table and the books; one only the
      cache still refers to goes onto the list; otherwise only the counts drop. */
  ghost predicate ReleasedLocked(b: Books, b': Books, h: Id, last: bool, pool: Option<real>) {
    && h < |b.heap| == |b.held| == |b.freed| && b.lowPri <= |b.lru| && b.held[h] > 0
    && b'.held == b.held[h := b.held[h] - 1] && b'.freed == b.freed
    && b'.doomed == (if last then b.doomed + {h} else b.doomed)
    && b'.index == (if last && b.heap[h].inCache then b.index - {b.heap[h].tag} else b.index)
    && b'.usage == (if last then b.usage - b.heap[h].charge else b.usage)
    && if !last && b.held[h] == 1 && b.heap[h].inCache then Listed(b, b', h, b.heap[h].highPri, pool)
       else b'.lru == b.lru && b'.times == b.times
  }

  /** The whole release: the deleter has run if that was the last reference. */
  ghost predicate Released(b: Books, b': Books, h: Id, last: bool, pool: Option<real>) {
    && h < |b.freed| && b'.freed == (if last then b.freed[h := b.freed[h] + 1] else b.freed) && b'.doomed == b.doomed
    && ReleasedLocked(b, b'.(freed := b.freed, doomed := if last then b.doomed + {h} else b.doomed), h, last, pool)
  }

  lemma ReleaseFacts(b: Books, h: Id)
    requires Fits(b) && h < |b.held| && b.held[h] > 0
    ensures h < |b.heap| == |b.held| == |b.freed| && b.lowPri <= |b.lru| && HandleFits(b, h)
    ensures b.heap[h].refs == b.held[h] + One(b.heap[h].inCache) && b.heap[h].charge <= b.usage
  {
    SameLengths(b);
    HandleFacts(b, h);
  }

  lemma ReleasedLast(b: Books, b': Books, h: Id, forceErase: bool, capacity: nat, pool: Option<real>)
    requires h < |b.heap| == |b.held| == |b.freed| && b.lowPri <= |b.lru| && b.held[h] == 1 && b.heap[h].charge <= b.usage
    requires b' == b.(heap := b'.heap, held := b.held[h := 0], doomed := b.doomed + {h}, usage := b.usage - b.heap[h].charge,
                      index := if b.heap[h].inCache then b.index - {b.heap[h].tag} else b.index)
    requires !b.heap[h].inCache || forceErase || b.usage > capacity
    ensures LastRelease(b, h, forceErase, capacity) && ReleasedLocked(b, b', h, true, pool)
  {
  }

  lemma ReleasedParked(b: Books, b': Books, h: Id, forceErase: bool, capacity: nat, pool: Option<real>)
    requires h < |b.heap| == |b.held| == |b.freed| && b.lowPri <= |b.lru| && b.held[h] == 1 && b.heap[h].inCache
    requires b'.held == b.held[h := 0] && b'.freed == b.freed && b'.doomed == b.doomed && b'.index == b.index && b'.usage == b.usage
    requires Listed(b, b', h, b.heap[h].highPri, pool) && !forceErase && b.usage <= capacity
    ensures !LastRelease(b, h, forceErase, capacity) && ReleasedLocked(b, b', h, false, pool)
  {
    hide Listed;
  }

  lemma ReleasedHeld(b: Books, b': Books, h: Id, forceErase: bool, capacity: nat, pool: Option<real>)
    requires h < |b.heap| == |b.held| == |b.freed| && b.lowPri <= |b.lru| && b.held[h] > 1
    requires b' == b.(heap := b'.heap, held := b.held[h := b.held[h] - 1])
    ensures !LastRelease(b, h, forceErase, capacity) && ReleasedLocked(b, b', h, false, pool)
  {
  }

  lemma KeptAfterRelease(b: Books, b': Books, h: Id, pool: Option<real>)
    requires ReleasedLocked(b, b', h, false, pool)
    ensures Released(b, b', h, false, pool)
  {
    assert b'.(freed := b.freed, doomed := b.doomed) == b';
  }

  lemma FreedAfterRelease(b: Books, m: Books, b': Books, h: Id, pool: Option<real>)
    requires Fits(b) && h < |b.heap| && b.heap[h].refs > 0 && ReleasedLocked(b, m, h, true, pool)
    requires b' == m.(freed := m.freed[h := m.freed[h] + 1], doomed := m.doomed - {h})
    ensures Released(b, b', h, true, pool)
  {
    assert HandleFits(b, h);
    assert b'.doomed == b.doomed;
    assert b'.(freed := b.freed, doomed := b.doomed + {h}) == m;
    hide Fits, ReleasedLocked;
  }

  lemma ListBack(heap: seq<Handle>, h: Id, x: Handle, lru: seq<Id>, lowPri: nat, lruUsage: nat, poolUsage: nat)
    requires h < |heap| && SameEntry(heap[h], x) && ListFits(heap[h := x], lru, lowPri, lruUsage, poolUsage)
    ensures ListFits(heap, lru, lowPri, lruUsage, poolUsage)
  {
    ListUntouched(heap[h := x], heap, lru, lowPri, lruUsage, poolUsage);
  }

  /** What erasing an entry does under the mutex: it leaves the table, and if no client holds it, the list and
      the books as well. */
  ghost predicate ErasedLocked(b: Books, b': Books, h: Id, last: bool) {
    && h < |b.heap| == |b.held| == |b.freed| && last == (b.held[h] == 0)
    && b'.index == b.index - {b.heap[h].tag} && b'.held == b.held && b'.freed == b.freed && b'.times == b.times
    && b'.doomed == (if last then b.doomed + {h} else b.doomed)
    && b'.usage == (if last then b.usage - b.heap[h].charge else b.usage)
    && b'.lru == (if last then Without(b.lru, h) else b.lru)
    && b'.lowPri == (if last then Boundary(b.lru, b.lowPri, h) else b.lowPri)
    && b'.heap == b.heap[h := b.heap[h].(refs := b.held[h], inCache := false)]
  }

  /** Erasing the entry of a tag: it is freed unless a client holds it. */
  ghost predicate Erased(b: Books, b': Books, tag: Tag) {
    && tag in b.index
    && var h := b.index[tag];
       && h < |b.heap| == |b.held| == |b.freed| && b.heap[h].tag == tag
       && var last := b.held[h] == 0;
          && b'.freed == (if last then b.freed[h := b.freed[h] + 1] else b.freed) && b'.doomed == b.doomed
          && ErasedLocked(b, b'.(freed := b.freed, doomed := if last then b.doomed + {h} else b.doomed), h, last)
  }

  lemma KeptAfterErase(b: Books, b': Books, tag: Tag)
    requires tag in b.index && b.index[tag] < |b.heap| && b.heap[b.index[tag]].tag == tag && ErasedLocked(b, b', b.index[tag], false)
    ensures Erased(b, b', tag)
  {
    assert b'.(freed := b.freed, doomed := b.doomed) == b';
  }

  lemma FreedAfterErase(b: Books, m: Books, b': Books, tag: Tag)
    requires tag in b.index && b.index[tag] < |b.heap| && b.heap[b.index[tag]].tag == tag && ErasedLocked(b, m, b.index[tag], true)
    requires b.index[tag] !in b.doomed
    requires b' == m.(freed := m.freed[b.index[tag] := m.freed[b.index[tag]] + 1], doomed := m.doomed - {b.index[tag]})
    ensures Erased(b, b', tag)
  {
  }

  lemma StillNothingToEvict(b: Books, b': Books, h: Id, last: bool)
    requires ErasedLocked(b, b', h, last)
    ensures b'.usage <= b.usage && (b.lru == [] ==> b'.lru == [])
  {
  }

  /** What becomes of the entry a newcomer replaces. */
  ghost predicate Replaced(b: Books, b': Books, tag: Tag) {
    if tag in b.index
    then b.index[tag] < |b.heap| == |b.held| && b.heap[b.index[tag]].tag == tag && ErasedLocked(b, b', b.index[tag], b.held[b.index[tag]] == 0)
    else b' == b
  }

  /** The replaced entry, if nobody holds it. */
  function Victims(b: Books, tag: Tag): seq<Id> {
    if tag in b.index && b.index[tag] < |b.held| && b.held[b.index[tag]] == 0 then [b.index[tag]] else []
  }

  lemma ReplacedOne(b: Books, b': Books, tag: Tag, last: bool)
    requires tag in b.index && b.index[tag] < |b.heap| && b.heap[b.index[tag]].tag == tag && ErasedLocked(b, b', b.index[tag], last)
    ensures Replaced(b, b', tag) && Victims(b, tag) == (if last then [b.index[tag]] else [])
    ensures forall g :: g in b'.doomed <==> g in b.doomed || g in Victims(b, tag)
  {
  }

  lemma ReplacedNone(b: Books, tag: Tag)
    requires tag !in b.index
    ensures b.index - {tag} == b.index && Replaced(b, b, tag) && Victims(b, tag) == []
  {
  }

  /** The books with a newcomer its inserter holds. */
  ghost function AfterAdmission(m: Books, tag: Tag, charge: nat, high: bool, pool: bool): Books {
    m.(heap := m.heap + [Handle(tag, charge, 2, true, high, pool)], held := m.held + [1], freed := m.freed + [0],
       index := m.index[tag := |m.heap|], usage := m.usage + charge)
  }

  /** `now` are the books with the newcomer appended; `a` those of an inserter that keeps a handle. */
  lemma AdmitBooks(b: Books, m: Books, now: Books, tag: Tag, charge: nat, keep: bool, high: bool, pool: bool) returns (a: Books)
    requires Fits(m) && Replaced(b, m, tag) && m.index == b.index - {tag}
    requires now == m.(heap := m.heap + [Handle(tag, charge, if keep then 2 else 1, true, high, pool)], held := m.held + [One(keep)],
                       freed := m.freed + [0], index := b.index[tag := |b.heap|], usage := m.usage + charge)
    ensures a == AfterAdmission(m, tag, charge, high, pool) && Fits(a) && a.index == b.index[tag := |b.heap|] && a.lowPri <= |a.lru|
    ensures |m.heap| == |b.heap| == |m.held| && |m.heap| < |a.heap| == |a.held| && HandleFits(a, |m.heap|) && m.lowPri <= |m.lru|
    ensures a.heap[|m.heap|] == Handle(tag, charge, 2, true, high, pool) && a.held[|m.heap|] == 1 && a.freed == m.freed + [0] && a.doomed == m.doomed
    ensures if keep then now == a
            else now == a.(heap := a.heap[|m.heap| := a.heap[|m.heap|].(refs := 1)], held := a.held[|m.heap| := 0])
  {
    hide Fits, HandleFits, Replaced;
    a := AfterAdmission(m, tag, charge, high, pool);
    ReplacedLength(b, m, tag);
    SameLengths(m);
    Admitted(m, a, a.heap[|m.heap|]);
    HandleFacts(a, |m.heap|);
    Reindexed(b.index, tag, |b.heap|);
    var e := |m.heap|;
    assert a.heap[e := a.heap[e].(refs := 1)] == m.heap + [Handle(tag, charge, 1, true, high, pool)] && a.held[e := 0] == m.held + [0];
  }

  lemma ReplacedLength(b: Books, m: Books, tag: Tag)
    requires Replaced(b, m, tag)
    ensures |m.heap| == |b.heap|
  {
  }

  lemma Reindexed(index: map<Tag, Id>, tag: Tag, e: Id)
    ensures (index - {tag})[tag := e] == index[tag := e] && tag !in index - {tag}
  {
  }

  /** A newcomer has entered: the table names it, its inserter holds it if asked for, otherwise it is on the list
      behind what the replacement left there. */
  ghost predicate Entered(b: Books, b': Books, tag: Tag, charge: nat, keep: bool, high: bool, pool: Option<real>) {
    var e := |b.heap|;
    && |b'.heap| == |b'.held| == e + 1 && b'.index == b.index[tag := e] && b'.held == b.held + [One(keep)]
    && b'.heap[e].tag == tag && b'.heap[e].charge == charge && b'.heap[e].highPri == high
    && exists m :: Replaced(b, m, tag) && m.lowPri <= |m.lru| && b'.usage == m.usage + charge
                   && if keep then b'.lru == m.lru && b'.lowPri == m.lowPri && b'.times == m.times else Listed(m, b', e, high, pool)
  }

  lemma EnteredHeld(b: Books, m: Books, b': Books, tag: Tag, charge: nat, high: bool, mark: bool, pool: Option<real>)
    requires Replaced(b, m, tag) && m.lowPri <= |m.lru| && |m.heap| == |b.heap| == |m.held|
    requires b' == AfterAdmission(m, tag, charge, high, mark) && b'.index == b.index[tag := |b.heap|]
    ensures Entered(b, b', tag, charge, true, high, pool)
  {
  }

  lemma EnteredParked(b: Books, m: Books, b': Books, tag: Tag, charge: nat, high: bool, mark: bool, pool: Option<real>)
    requires Replaced(b, m, tag) && m.lowPri <= |m.lru| && |m.heap| == |b.heap| == |m.held|
    requires var a := AfterAdmission(m, tag, charge, high, mark);
             && a.index == b.index[tag := |b.heap|] && b'.index == a.index && b'.held == a.held[|b.heap| := 0] && b'.usage == a.usage
             && SameButPool(a.heap[|b.heap| := a.heap[|b.heap|].(refs := 1)], b'.heap)
             && Listed(a, b', |b.heap|, high, pool)
    ensures Entered(b, b', tag, charge, false, high, pool)
  {
    assert b'.held == b.held + [0];
    var a := AfterAdmission(m, tag, charge, high, mark);
    assert Listed(m, b', |b.heap|, high, pool);
    hide Linked, Placed, Relinked, Overtaken;
  }

  lemma EnteredFrame(b: Books, m: Books, b': Books, tag: Tag, charge: nat, keep: bool, high: bool, pool: Option<real>)
    requires Entered(b, m, tag, charge, keep, high, pool) && b' == m.(freed := b'.freed, doomed := b'.doomed)
    ensures Entered(b, b', tag, charge, keep, high, pool)
  {
  }

  lemma EnteredSize(b: Books, b': Books, tag: Tag, charge: nat, keep: bool, high: bool, pool: Option<real>)
    requires Entered(b, b', tag, charge, keep, high, pool)
    ensures b'.usage <= b.usage + charge && (keep && b.lru == [] ==> b'.lru == [])
  {
  }

  lemma EvictedPins(b: Books, b': Books, n: nat)
    requires Evicted(b, b', n)
    ensures b'.usage - b'.lruUsage == b.usage - b.lruUsage && |b'.heap| == |b.heap|
  {
  }

  lemma NothingListed(b: Books)
    requires Fits(b)
    ensures b.lruUsage <= b.usage && (b.lru == [] ==> b.lruUsage == 0)
  {
  }

  /** The replaced entry is neither among the evicted ones nor already given up. */
  lemma VictimsApart(b: Books, room: Books, n: nat, tag: Tag)
    requires Fits(b) && Fits(room) && n <= |b.lru| && forall i :: 0 <= i < n ==> b.lru[..n][i] in room.doomed
    ensures Distinct(b.lru[..n] + Victims(room, tag)) && forall i :: 0 <= i < |Victims(room, tag)| ==> Victims(room, tag)[i] !in room.doomed
  {
    if Victims(room, tag) != [] { IndexedFacts(room, tag); }
    assert Distinct(b.lru);
    hide Fits;
  }

  /** A refused insertion has only evicted. */
  ghost predicate Rejected(b: Books, room: Books, b': Books, evicted: seq<Id>) {
    b' == room.(freed := b'.freed, doomed := b.doomed) && FreedAlso(b.freed, b'.freed, evicted)
  }

  lemma SameLengths(b: Books)
    requires Fits(b)
    ensures |b.heap| == |b.held| == |b.freed| && b.lowPri <= |b.lru|
  {
  }

  lemma AllEvicted(b: Books, b': Books, n: nat)
    requires Fits(b) && Fits(b') && Evicted(b, b', n) && b'.lru == []
    ensures n == |b.lru| && b'.lruUsage == 0 && b.lru[..n] == b.lru
  {
  }

  /** Where the low segment ends once e is off the list. */
  function Boundary(lru: seq<Id>, lowPri: nat, e: Id): nat {
    if 0 < lowPri <= |lru| && e in lru[..lowPri] then lowPri - 1 else lowPri
  }

  lemma BoundaryAt(lru: seq<Id>, lowPri: nat, at: nat)
    requires Distinct(lru) && at < |lru| && lowPri <= |lru|
    ensures Boundary(lru, lowPri, lru[at]) == if at < lowPri then lowPri - 1 else lowPri
  {
    if at < lowPri { assert lru[..lowPri][at] == lru[at]; }
  }

  lemma FirstOut(ids: seq<Id>)
    requires ids != []
    ensures Without(ids, ids[0]) == ids[1..]
  {
  }

  lemma EvictStep(b: Books, m: Books, b': Books, n: nat)
    requires Fits(b) && Evicted(b, m, n) && EvictedOne(m, b')
    ensures Evicted(b, b', n + 1) && n < |b.lru| && b.lru[n] == m.lru[0] && |b'.lru| < |m.lru|
    ensures m.usage == b.usage - Prefix(b, n) && b.lru[..n + 1] == b.lru[..n] + [b.lru[n]]
  {
    hide Fits, ListCharge, ContentsWithout, OthersSame;
    EvictedMore(b, m, b', n);
    assert b.lru[n..][0] == b.lru[n] && Ids(b.heap, b.lru[..n]);
    hide Ids;
  }

  lemma Scaled(capacity: nat, ratio: real)
    ensures capacity as real * ratio >= 0.0 <==> ratio >= 0.0 || capacity == 0
  {
  }

  // ---- Whole runs ----

  datatype Command =
    | InsertEntry(tag: Tag, charge: nat, keep: bool, high: bool)
    | LookupEntry(tag: Tag) | RefHandle(h: Id) | ReleaseHandle(h: Id, forceErase: bool) | EraseEntry(tag: Tag) | EraseUnheld
    | Capacity(capacity: nat) | Strict(strict: bool) | PoolRatio(ratio: real)

  /** What a client may ask: it references and releases only handles it holds. */
  predicate Legal(held: seq<nat>, c: Command) {
    match c
    case RefHandle(h) => h < |held| && held[h] > 0
    case ReleaseHandle(h, _) => h < |held| && held[h] > 0
    case _ => true
  }

  /** The deleter never un-runs, and handles keep their numbers. */
  predicate Onward(b: Books, b': Books) {
    && |b.freed| <= |b'.freed| && (forall h :: 0 <= h < |b.freed| ==> b.freed[h] <= b'.freed[h])
    && b'.doomed == b.doomed
  }

  lemma OnwardAlso(b: Books, b': Books, ids: seq<Id>)
    requires FreedAlso(b.freed, b'.freed, ids) && b'.doomed == b.doomed
    ensures Onward(b, b')
  {
  }

  lemma OnwardEntered(b: Books, b': Books, ids: seq<Id>)
    requires FreedAlso(b.freed + [0], b'.freed, ids) && b'.doomed == b.doomed
    ensures Onward(b, b')
  {
    forall h | 0 <= h < |b.freed| ensures b.freed[h] <= b'.freed[h] { assert (b.freed + [0])[h] == b.freed[h]; }
  }

  lemma ReleasedForward(b: Books, b': Books, h: Id, last: bool, pool: Option<real>)
    requires Released(b, b', h, last, pool)
    ensures b'.times.clock >= b.times.clock
  {
  }

  lemma EnteredForward(b: Books, room: Books, b': Books, n: nat, tag: Tag, charge: nat, keep: bool, high: bool, pool: Option<real>)
    requires Evicted(b, room, n) && (Entered(room, b', tag, charge, keep, high, pool) || b' == room.(freed := b'.freed, doomed := b'.doomed))
    ensures b'.times.clock >= b.times.clock
  {
  }

  method Do(shard: LRUCacheShard, c: Command)
    requires shard.Valid() && Legal(shard.held, c)
    modifies shard, shard.table, shard.table.list, shard.ring
    ensures shard.Valid() && (old(shard.Configured()) ==> shard.Configured()) && Onward(old(shard.View()), shard.View())
    ensures shard.table.list == old(shard.table.list) || fresh(shard.table.list)
    ensures !c.ReleaseHandle? && !c.InsertEntry? ==> shard.times.linked == old(shard.times.linked)
    ensures shard.times.clock >= old(shard.times.clock)
  {
    hide Fits, Evicted, Entered, ReleasedLocked, ErasedLocked, Needed, FreedAlso, Victims, LRUHandleTable.Valid, LRUCacheShard.Configured,
         LRUCacheShard.RingOk, SameButPool, Members, PoolFrom, Without, LRUCacheShard.Pool;
    ghost var b := shard.View();
    match c
    case InsertEntry(tag, charge, keep, high) =>
      DoInsert(shard, tag, charge, keep, high);
    case LookupEntry(tag) =>
      var r := shard.Lookup(tag);
    case RefHandle(h) =>
      shard.Ref(h);
    case ReleaseHandle(h, forceErase) =>
      var last := shard.Release(Some(h), forceErase);
      ReleasedForward(b, shard.View(), h, last, shard.Pool());
    case EraseEntry(tag) =>
      shard.Erase(tag);
    case EraseUnheld =>
      var erased := shard.EraseUnRefEntries();
      OnwardAlso(b, shard.View(), erased);
    case Capacity(capacity) =>
      var evicted := shard.SetCapacity(capacity);
      OnwardAlso(b, shard.View(), evicted);
    case Strict(strict) =>
      shard.SetStrictCapacityLimit(strict);
    case PoolRatio(ratio) =>
      var fits := shard.SetHighPriorityPoolRatio(ratio);
  }

  method DoInsert(shard: LRUCacheShard, tag: Tag, charge: nat, keep: bool, high: bool)
    requires shard.Valid()
    modifies shard, shard.table, shard.table.list, shard.ring
    ensures shard.Valid() && (old(shard.Configured()) ==> shard.Configured()) && Onward(old(shard.View()), shard.View())
    ensures shard.table.list == old(shard.table.list) || fresh(shard.table.list)
    ensures shard.times.clock >= old(shard.times.clock)
  {
    hide Fits, Evicted, Entered, Needed, FreedAlso, Victims, LRUHandleTable.Valid, LRUCacheShard.Configured, LRUCacheShard.RingOk,
         LRUCacheShard.Pool;
    ghost var b := shard.View();
    var status, handle, evicted, newcomerFreed, room := shard.Insert(tag, charge, keep, high);
    EnteredForward(b, room, shard.View(), |evicted|, tag, charge, keep, high, shard.Pool());
    if FreedAlso(b.freed, shard.freed, evicted) {
      OnwardAlso(b, shard.View(), evicted);
    } else {
      OnwardEntered(b, shard.View(), evicted + Victims(room, tag));
    }
  }

  /** Any run of legal commands keeps every invariant; commands that are not legal are not issued. */
  method RunAll(shard: LRUCacheShard, commands: seq<Command>)
    requires shard.Valid()
    modifies shard, shard.table, shard.table.list, shard.ring
    ensures shard.Valid() && (old(shard.Configured()) ==> shard.Configured()) && Onward(old(shard.View()), shard.View())
    ensures forall h :: 0 <= h < |shard.freed| ==> shard.freed[h] <= 1 && (shard.freed[h] == 1 ==> h < |shard.held| && shard.held[h] == 0)
    ensures InOrder(shard.lru, shard.lowPri, shard.times) && shard.times.clock >= old(shard.times.clock)
  {
    hide Fits, LRUHandleTable.Valid, LRUCacheShard.Configured;
    for i := 0 to |commands|
      invariant shard.Valid() && (old(shard.Configured()) ==> shard.Configured()) && Onward(old(shard.View()), shard.View())
      invariant shard.table.list == old(shard.table.list) || fresh(shard.table.list)
      invariant shard.times.clock >= old(shard.times.clock)
    {
      if Legal(shard.held, commands[i]) { Do(shard, commands[i]); }
    }
    FreedOnce(shard.View());
  }

  lemma FreedOnce(b: Books)
    requires Fits(b)
    ensures forall h :: 0 <= h < |b.freed| ==> b.freed[h] <= 1 && (b.freed[h] == 1 ==> h < |b.held| && b.held[h] == 0)
  {
    forall h | 0 <= h < |b.freed| ensures b.freed[h] <= 1 && (b.freed[h] == 1 ==> b.held[h] == 0) { DocumentedStates(b, h); }
  }

  /** Once the clients have released everything and the list has been emptied, every handle ever admitted has
      been freed exactly once and the books are closed. */
  lemma NothingLeaks(b: Books)
    requires Fits(b) && b.doomed == {} && b.lru == [] && forall h :: 0 <= h < |b.held| ==> b.held[h] == 0
    ensures forall h :: 0 <= h < |b.freed| ==> b.freed[h] == 1
    ensures b.index == map[] && b.usage == 0
  {
    forall h | 0 <= h < |b.freed| ensures b.freed[h] == 1 { assert HandleFits(b, h); }
    forall tag ensures tag !in b.index { IndexedNamed(b, tag); }
    NothingHeld(b.heap, b.held);
  }

  lemma IndexedNamed(b: Books, tag: Tag)
    requires Fits(b)
    ensures tag in b.index ==> b.index[tag] in b.lru || (b.index[tag] < |b.held| && b.held[b.index[tag]] > 0)
  {
    if tag in b.index { assert EntryFits(b, tag) && HandleFits(b, b.index[tag]); }
  }

  lemma {:induction false} NothingHeld(heap: seq<Handle>, held: seq<nat>)
    requires |heap| == |held| && forall h :: 0 <= h < |held| ==> held[h] == 0
    ensures HeldCharge(heap, held) == 0
  {
    if heap != [] { NothingHeld(heap[..|heap| - 1], held[..|heap| - 1]); }
  }
}
