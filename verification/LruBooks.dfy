/** The books of one LRU cache shard, as values: the handles, who holds them, the hash table's contents, the
    LRU list with its two priority segments, and the usage counters.  The shard's methods change the books one
    handle at a time; the lemmas here say what such a change keeps. */
module LruBooks {
  import opened Records
  import opened LruTable
  import opened LruOrder

  datatype Handle = Handle(tag: Tag, charge: nat, refs: nat, inCache: bool, highPri: bool, inHighPool: bool)

  /** heap: all handles ever admitted.  held: references owned by clients.  freed: how often the deleter ran.
      doomed: lost their last reference under the mutex and are freed after it is released.  index: the table.
      lru: oldest first, the first lowPri entries being the low-priority segment.  times: when its entries came there. */
  datatype Books = Books(
    heap: seq<Handle>, held: seq<nat>, freed: seq<nat>, doomed: set<Id>, index: map<Tag, Id>,
    lru: seq<Id>, lowPri: nat, usage: nat, lruUsage: nat, poolUsage: nat, times: Times)

  function One(b: bool): nat { if b then 1 else 0 }

  // ---- Sums of charges ----

  /** Total charge of the handles that still have a reference. */
  function LiveCharge(heap: seq<Handle>): nat {
    if heap == [] then 0
    else LiveCharge(heap[..|heap| - 1]) + Cost(heap[|heap| - 1])
  }

  function Cost(x: Handle): nat { if x.refs > 0 then x.charge else 0 }

  /** Total charge of the handles some client holds. */
  function HeldCharge(heap: seq<Handle>, held: seq<nat>): nat
    requires |heap| == |held|
  {
    if heap == [] then 0
    else
      var n := |heap| - 1;
      HeldCharge(heap[..n], held[..n]) + HeldCost(heap[n], held[n])
  }

  function HeldCost(x: Handle, k: nat): nat { if k > 0 then x.charge else 0 }

  predicate Ids(heap: seq<Handle>, ids: seq<Id>) { forall i :: 0 <= i < |ids| ==> ids[i] < |heap| }

  function ListCharge(heap: seq<Handle>, ids: seq<Id>): nat
    requires Ids(heap, ids)
  {
    if ids == [] then 0 else heap[ids[0]].charge + ListCharge(heap, ids[1..])
  }

  lemma {:induction false} LiveChargeUpdate(heap: seq<Handle>, h: Id, x: Handle)
    requires h < |heap|
    ensures LiveCharge(heap[h := x]) + Cost(heap[h]) == LiveCharge(heap) + Cost(x)
    ensures LiveCharge(heap) >= Cost(heap[h])
  {
    var n := |heap| - 1;
    if h == n {
      assert heap[h := x][..n] == heap[..n];
    } else {
      assert heap[h := x][..n] == heap[..n][h := x];
      LiveChargeUpdate(heap[..n], h, x);
    }
  }

  lemma {:induction false} HeldChargeUpdate(heap: seq<Handle>, held: seq<nat>, h: Id, x: Handle, k: nat)
    requires h < |heap| == |held|
    ensures HeldCharge(heap[h := x], held[h := k]) + HeldCost(heap[h], held[h]) == HeldCharge(heap, held) + HeldCost(x, k)
  {
    var n := |heap| - 1;
    if h == n {
      assert heap[h := x][..n] == heap[..n] && held[h := k][..n] == held[..n];
    } else {
      assert heap[h := x][..n] == heap[..n][h := x] && held[h := k][..n] == held[..n][h := k];
      HeldChargeUpdate(heap[..n], held[..n], h, x, k);
    }
  }

  predicate SameCharges(heap: seq<Handle>, heap': seq<Handle>) {
    |heap| <= |heap'| && forall h :: 0 <= h < |heap| ==> heap'[h].charge == heap[h].charge
  }

  lemma {:induction false} ListChargeSame(heap: seq<Handle>, heap': seq<Handle>, ids: seq<Id>)
    requires Ids(heap, ids) && SameCharges(heap, heap')
    ensures Ids(heap', ids) && ListCharge(heap', ids) == ListCharge(heap, ids)
  {
    if ids != [] { ListChargeSame(heap, heap', ids[1..]); }
  }

  lemma {:induction false} ListChargeConcat(heap: seq<Handle>, a: seq<Id>, b: seq<Id>)
    requires Ids(heap, a) && Ids(heap, b)
    ensures Ids(heap, a + b) && ListCharge(heap, a + b) == ListCharge(heap, a) + ListCharge(heap, b)
  {
    if a == [] {
      assert a + b == b;
    } else {
      ListChargeConcat(heap, a[1..], b);
      assert (a + b)[1..] == a[1..] + b;
    }
  }

  // ---- The LRU list ----

  predicate Segmented(heap: seq<Handle>, lru: seq<Id>, lowPri: nat) {
    && Ids(heap, lru) && Distinct(lru) && lowPri <= |lru|
    && (forall i :: 0 <= i < |lru| ==> (heap[lru[i]].inHighPool <==> lowPri <= i))
  }

  /** A low-priority segment of lowPri entries followed by the high-priority pool, both exactly accounted for. */
  predicate ListFits(heap: seq<Handle>, lru: seq<Id>, lowPri: nat, lruUsage: nat, poolUsage: nat) {
    && Segmented(heap, lru, lowPri)
    && lruUsage == ListCharge(heap, lru)
    && Ids(heap, lru[lowPri..]) && poolUsage == ListCharge(heap, lru[lowPri..])
  }

  /** The list without one of its elements. */
  function Without(ids: seq<Id>, e: Id): (r: seq<Id>) {
    if ids == [] then [] else if ids[0] == e then ids[1..] else [ids[0]] + Without(ids[1..], e)
  }

  lemma {:induction false} WithoutAt(ids: seq<Id>, at: nat)
    requires at < |ids| && Distinct(ids)
    ensures Without(ids, ids[at]) == ids[..at] + ids[at + 1..]
  {
    if at > 0 {
      WithoutAt(ids[1..], at - 1);
      assert ids[1..][at - 1] == ids[at] && ids[..at] == [ids[0]] + ids[1..][..at - 1] && ids[at + 1..] == ids[1..][at..];
    }
  }

  lemma WithoutMembers(ids: seq<Id>, e: Id, x: Id)
    requires Distinct(ids) && e in ids
    ensures x in Without(ids, e) <==> x in ids && x != e
  {
  }

  /** Unlinking an entry: the boundary moves down if the entry was in the low segment. */
  lemma ListRemoved(heap: seq<Handle>, lru: seq<Id>, lowPri: nat, lruUsage: nat, poolUsage: nat, at: nat)
    requires ListFits(heap, lru, lowPri, lruUsage, poolUsage) && at < |lru|
    ensures lru[at] < |heap|
    ensures var c := heap[lru[at]].charge;
            && Distinct(lru) && lowPri <= |lru| && (heap[lru[at]].inHighPool <==> lowPri <= at)
            && c <= lruUsage && (lowPri <= at ==> c <= poolUsage)
            && ListFits(heap, lru[..at] + lru[at + 1..], if at < lowPri then lowPri - 1 else lowPri,
                        lruUsage - c, if lowPri <= at then poolUsage - c else poolUsage)
  {
    var r := lru[..at] + lru[at + 1..];
    StaysSegmented(heap, lru, lowPri, at);
    Cut(heap, lru, at);
    if at < lowPri {
      assert r[lowPri - 1..] == lru[lowPri..];
    } else {
      Cut(heap, lru[lowPri..], at - lowPri);
      assert r[lowPri..] == lru[lowPri..][..at - lowPri] + lru[lowPri..][at - lowPri + 1..];
    }
    hide Segmented, ListCharge;
  }

  lemma StaysSegmented(heap: seq<Handle>, lru: seq<Id>, lowPri: nat, at: nat)
    requires Segmented(heap, lru, lowPri) && at < |lru|
    ensures Segmented(heap, lru[..at] + lru[at + 1..], if at < lowPri then lowPri - 1 else lowPri)
  {
  }

  lemma Cut(heap: seq<Handle>, ids: seq<Id>, at: nat)
    requires Ids(heap, ids) && at < |ids|
    ensures Ids(heap, ids[..at] + ids[at + 1..])
    ensures ListCharge(heap, ids) == ListCharge(heap, ids[..at] + ids[at + 1..]) + heap[ids[at]].charge
  {
    ListChargeConcat(heap, ids[..at], ids[at + 1..]);
    ListChargeConcat(heap, ids[..at], ids[at..]);
    assert ids[..at] + ids[at..] == ids && ids[at..][1..] == ids[at + 1..];
  }

  /** Where a released entry goes: the head of the list, or the head of the low segment. */
  function Linked(lru: seq<Id>, lowPri: nat, e: Id, high: bool): (r: seq<Id>)
    requires lowPri <= |lru|
  {
    var at := if high then |lru| else lowPri;
    lru[..at] + [e] + lru[at..]
  }

  lemma LinkedMembers(lru: seq<Id>, lowPri: nat, e: Id, high: bool, x: Id)
    requires lowPri <= |lru|
    ensures x in Linked(lru, lowPri, e, high) <==> x == e || x in lru
  {
  }

  lemma ListLinked(heap: seq<Handle>, lru: seq<Id>, lowPri: nat, lruUsage: nat, poolUsage: nat, e: Id, high: bool)
    requires ListFits(heap, lru, lowPri, lruUsage, poolUsage) && e < |heap| && e !in lru
    ensures lowPri <= |lru|
    ensures ListFits(heap[e := heap[e].(inHighPool := high)], Linked(lru, lowPri, e, high), if high then lowPri else lowPri + 1,
                     lruUsage + heap[e].charge, if high then poolUsage + heap[e].charge else poolUsage)
  {
    hide ListCharge, Linked;
    var heap' := heap[e := heap[e].(inHighPool := high)];
    assert SameCharges(heap, heap') && lowPri <= |lru|;
    hide SameCharges;
    LinkedSegmented(heap, lru, lowPri, e, high);
    hide Segmented, Ids;
    ListChargeSame(heap, heap', lru);
    ListChargeSame(heap, heap', lru[lowPri..]);
    LinkedCharge(heap', lru, lowPri, e, high);
  }

  lemma LinkedCharge(heap: seq<Handle>, lru: seq<Id>, lowPri: nat, e: Id, high: bool)
    requires Ids(heap, lru) && e < |heap| && lowPri <= |lru|
    ensures var r := Linked(lru, lowPri, e, high);
            && Ids(heap, r) && ListCharge(heap, r) == ListCharge(heap, lru) + heap[e].charge
            && Ids(heap, r[lowPri..]) && Ids(heap, lru[lowPri..])
            && (high ==> ListCharge(heap, r[lowPri..]) == ListCharge(heap, lru[lowPri..]) + heap[e].charge)
            && (!high ==> r[lowPri + 1..] == lru[lowPri..])
  {
    var at, r := if high then |lru| else lowPri, Linked(lru, lowPri, e, high);
    assert r[at] == e && r[..at] + r[at + 1..] == lru && Ids(heap, r);
    Cut(heap, r, at);
    if high {
      assert r[lowPri..] == lru[lowPri..] + [e];
      ListChargeConcat(heap, lru[lowPri..], [e]);
    }
  }

  lemma LinkedSegmented(heap: seq<Handle>, lru: seq<Id>, lowPri: nat, e: Id, high: bool)
    requires Segmented(heap, lru, lowPri) && e < |heap| && e !in lru
    ensures Segmented(heap[e := heap[e].(inHighPool := high)], Linked(lru, lowPri, e, high), if high then lowPri else lowPri + 1)
  {
  }

  /** Moving the boundary up by one entry. */
  lemma ListDemoted(heap: seq<Handle>, lru: seq<Id>, lowPri: nat, lruUsage: nat, poolUsage: nat)
    requires ListFits(heap, lru, lowPri, lruUsage, poolUsage) && lowPri < |lru|
    ensures var e := lru[lowPri];
            && heap[e].charge <= poolUsage
            && ListFits(heap[e := heap[e].(inHighPool := false)], lru, lowPri + 1, lruUsage, poolUsage - heap[e].charge)
  {
    var e := lru[lowPri];
    var heap' := heap[e := heap[e].(inHighPool := false)];
    assert lru[lowPri..][1..] == lru[lowPri + 1..];
    ListChargeSame(heap, heap', lru);
    ListChargeSame(heap, heap', lru[lowPri + 1..]);
  }

  /** Handle changes that leave charges and pool marks alone leave the list alone. */
  lemma ListUntouched(heap: seq<Handle>, heap': seq<Handle>, lru: seq<Id>, lowPri: nat, lruUsage: nat, poolUsage: nat)
    requires ListFits(heap, lru, lowPri, lruUsage, poolUsage) && SameCharges(heap, heap')
    requires forall i :: 0 <= i < |lru| ==> heap'[lru[i]].inHighPool == heap[lru[i]].inHighPool
    ensures ListFits(heap', lru, lowPri, lruUsage, poolUsage)
  {
    ListChargeSame(heap, heap', lru);
    ListChargeSame(heap, heap', lru[lowPri..]);
  }

  // ---- The invariant ----

  predicate Indexed(index: map<Tag, Id>, tag: Tag, h: Id) { tag in index && index[tag] == h }

  /** References are the clients' plus the cache's own; the table names exactly the entries in cache; the list
      holds exactly those only the cache refers to; the deleter has run once if no reference is left and the
      mutex section that dropped the last one is over, and otherwise not at all. */
  predicate HandleFits(b: Books, h: Id)
    requires h < |b.heap| == |b.held| == |b.freed|
  {
    var x := b.heap[h];
    && x.refs == b.held[h] + One(x.inCache)
    && (x.inCache <==> Indexed(b.index, x.tag, h))
    && (h in b.lru <==> x.inCache && x.refs == 1)
    && b.freed[h] == One(x.refs == 0 && h !in b.doomed)
    && (h in b.doomed ==> x.refs == 0)
  }

  predicate EntryFits(b: Books, tag: Tag)
    requires tag in b.index
  {
    b.index[tag] < |b.heap| && b.heap[b.index[tag]].tag == tag
  }

  ghost predicate Fits(b: Books) {
    && |b.heap| == |b.held| == |b.freed|
    && (forall h :: 0 <= h < |b.heap| ==> HandleFits(b, h))
    && (forall tag :: tag in b.index ==> EntryFits(b, tag))
    && (forall h :: h in b.doomed ==> h < |b.heap|)
    && ListFits(b.heap, b.lru, b.lowPri, b.lruUsage, b.poolUsage)
    && b.usage == LiveCharge(b.heap) && b.usage == b.lruUsage + HeldCharge(b.heap, b.held)
  }

  /** b' is b with other books for handle h only. */
  ghost predicate OnlyHandle(b: Books, b': Books, h: Id) {
    && h < |b.heap| == |b.held| == |b.freed|
    && b'.heap == b.heap[h := if h < |b'.heap| then b'.heap[h] else b.heap[h]] && |b'.held| == |b.held| && |b'.freed| == |b.freed|
    && b'.held == b.held[h := b'.held[h]] && b'.freed == b.freed[h := b'.freed[h]]
    && b'.heap[h].tag == b.heap[h].tag && b'.heap[h].charge == b.heap[h].charge
    && (forall g :: g != h ==> (g in b'.doomed <==> g in b.doomed) && (g in b'.lru <==> g in b.lru))
    && (b'.index == b.index || (b'.index == b.index - {b.heap[h].tag} && Indexed(b.index, b.heap[h].tag, h)))
  }

  /** A change of one handle's books keeps the others'. */
  lemma OtherHandles(b: Books, b': Books, h: Id)
    requires Fits(b) && OnlyHandle(b, b', h)
    ensures forall g :: 0 <= g < |b'.heap| && g != h ==> HandleFits(b', g)
    ensures forall tag :: tag in b'.index ==> EntryFits(b', tag)
    ensures forall g :: g in b'.doomed && g != h ==> g < |b'.heap|
  {
    hide ListFits, LiveCharge, HeldCharge;
    forall g | 0 <= g < |b'.heap| && g != h ensures HandleFits(b', g) { assert HandleFits(b, g); }
    forall tag | tag in b'.index ensures EntryFits(b', tag) { assert EntryFits(b, tag); }
  }

  lemma OneHandle(b: Books, b': Books, h: Id)
    requires Fits(b) && OnlyHandle(b, b', h) && HandleFits(b', h)
    requires ListFits(b'.heap, b'.lru, b'.lowPri, b'.lruUsage, b'.poolUsage)
    requires b'.usage + Cost(b.heap[h]) == b.usage + Cost(b'.heap[h])
    requires b'.usage - b'.lruUsage + HeldCost(b.heap[h], b.held[h]) == b.usage - b.lruUsage + HeldCost(b'.heap[h], b'.held[h])
    ensures Fits(b')
  {
    hide ListFits, LiveCharge, HeldCharge, HandleFits, EntryFits, Cost, HeldCost;
    LiveChargeUpdate(b.heap, h, b'.heap[h]);
    HeldChargeUpdate(b.heap, b.held, h, b'.heap[h], b'.held[h]);
    OtherHandles(b, b', h);
  }

  // ---- What the operations do to one handle ----

  predicate SameEntry(x: Handle, x': Handle) {
    x'.tag == x.tag && x'.charge == x.charge && x'.inHighPool == x.inHighPool && x'.highPri == x.highPri
  }

  lemma ListAfter(b: Books, b': Books, h: Id, x: Handle)
    requires h < |b.heap| && b'.heap == b.heap[h := x] && SameEntry(b.heap[h], x)
    requires ListFits(b.heap, b'.lru, b'.lowPri, b'.lruUsage, b'.poolUsage)
    ensures ListFits(b'.heap, b'.lru, b'.lowPri, b'.lruUsage, b'.poolUsage)
  {
    ListUntouched(b.heap, b'.heap, b'.lru, b'.lowPri, b'.lruUsage, b'.poolUsage);
  }

  /** The list of b' is that of b without h, if h was on it. */
  ghost predicate Unlinked(b: Books, b': Books, h: Id) {
    && h < |b.heap| && ListFits(b.heap, b'.lru, b'.lowPri, b'.lruUsage, b'.poolUsage)
    && (if h in b.lru then b'.lru == Without(b.lru, h) && b'.lruUsage + b.heap[h].charge == b.lruUsage
        else b'.lru == b.lru && b'.lruUsage == b.lruUsage)
  }

  lemma UnlinkedMembers(b: Books, b': Books, h: Id)
    requires Fits(b) && Unlinked(b, b', h)
    ensures h !in b'.lru && forall g :: g != h ==> (g in b'.lru <==> g in b.lru)
  {
    if h in b.lru {
      forall g ensures g in b'.lru <==> g in b.lru && g != h { WithoutMembers(b.lru, h, g); }
    }
  }

  /** A client takes one more reference: Lookup and Ref. */
  lemma Taken(b: Books, b': Books, h: Id)
    requires Fits(b) && Unlinked(b, b', h) && b.heap[h].refs > 0
    requires b' == b.(heap := b.heap[h := b.heap[h].(refs := b.heap[h].refs + 1)], held := b.held[h := b.held[h] + 1],
                      lru := b'.lru, lowPri := b'.lowPri, lruUsage := b'.lruUsage, poolUsage := b'.poolUsage)
    ensures Fits(b')
  {
    assert HandleFits(b, h);
    UnlinkedMembers(b, b', h);
    ListAfter(b, b', h, b'.heap[h]);
    hide ListFits, LiveCharge, HeldCharge, Without;
    OneHandle(b, b', h);
  }

  /** The cache gives up an entry nobody holds: eviction and erasure. */
  lemma Dropped(b: Books, b': Books, h: Id)
    requires Fits(b) && Unlinked(b, b', h) && h in b.lru && b.usage >= b.heap[h].charge
    requires b' == b.(heap := b.heap[h := b.heap[h].(refs := 0, inCache := false)], doomed := b.doomed + {h},
                      index := b.index - {b.heap[h].tag}, usage := b.usage - b.heap[h].charge,
                      lru := b'.lru, lowPri := b'.lowPri, lruUsage := b'.lruUsage, poolUsage := b'.poolUsage)
    ensures Fits(b')
  {
    assert HandleFits(b, h);
    UnlinkedMembers(b, b', h);
    ListAfter(b, b', h, b'.heap[h]);
    hide ListFits, LiveCharge, HeldCharge, Without;
    OneHandle(b, b', h);
  }

  /** The cache gives up an entry a client still holds: erasure and replacement. */
  lemma Detached(b: Books, b': Books, h: Id)
    requires Fits(b) && h < |b.heap| && b.heap[h].inCache && b.heap[h].refs > 1
    requires b' == b.(heap := b.heap[h := b.heap[h].(refs := b.heap[h].refs - 1, inCache := false)], index := b.index - {b.heap[h].tag})
    ensures Fits(b')
  {
    assert HandleFits(b, h);
    ListAfter(b, b', h, b'.heap[h]);
    hide ListFits, LiveCharge, HeldCharge;
    OneHandle(b, b', h);
  }

  /** A client gives up a reference and others remain. */
  lemma Unheld(b: Books, b': Books, h: Id)
    requires Fits(b) && h < |b.heap| && b.held[h] > 0 && (b.held[h] > 1 || !b.heap[h].inCache) && b.heap[h].refs > 1
    requires b' == b.(heap := b.heap[h := b.heap[h].(refs := b.heap[h].refs - 1)], held := b.held[h := b.held[h] - 1])
    ensures Fits(b')
  {
    assert HandleFits(b, h);
    ListAfter(b, b', h, b'.heap[h]);
    hide ListFits, LiveCharge, HeldCharge;
    OneHandle(b, b', h);
  }

  /** A client gives up its last reference and the entry goes onto the list. */
  lemma Parked(b: Books, b': Books, h: Id)
    requires Fits(b) && h < |b.heap| && b.held[h] == 1 && b.heap[h].inCache
    requires SameButPool(b.heap[h := b.heap[h].(refs := 1)], b'.heap) && b.lowPri <= |b.lru|
    requires ListFits(b'.heap, b'.lru, b'.lowPri, b'.lruUsage, b'.poolUsage) && b'.lruUsage == b.lruUsage + b.heap[h].charge
    requires exists high :: b'.lru == Linked(b.lru, b.lowPri, h, high)
    requires b' == b.(heap := b'.heap, held := b.held[h := 0],
                      lru := b'.lru, lowPri := b'.lowPri, lruUsage := b'.lruUsage, poolUsage := b'.poolUsage, times := b'.times)
    ensures Fits(b')
  {
    var high :| b'.lru == Linked(b.lru, b.lowPri, h, high);
    forall g ensures g in b'.lru <==> g == h || g in b.lru { LinkedMembers(b.lru, b.lowPri, h, high, g); }
    forall g | 0 <= g < |b'.heap| ensures HandleFits(b', g) { assert HandleFits(b, g) && HandleFits(b, h); }
    forall tag | tag in b'.index ensures EntryFits(b', tag) { assert EntryFits(b, tag); }
    SumsParked(b, b', h);
    hide ListFits, LiveCharge, HeldCharge, Linked;
  }

  lemma SumsParked(b: Books, b': Books, h: Id)
    requires Fits(b) && h < |b.heap| && b.held[h] == 1 && b.heap[h].inCache
    requires SameButPool(b.heap[h := b.heap[h].(refs := 1)], b'.heap)
    ensures LiveCharge(b'.heap) == LiveCharge(b.heap)
    ensures HeldCharge(b'.heap, b.held[h := 0]) + b.heap[h].charge == HeldCharge(b.heap, b.held)
  {
    assert HandleFits(b, h);
    var heap := b.heap[h := b.heap[h].(refs := 1)];
    LiveChargeUpdate(b.heap, h, heap[h]);
    HeldChargeUpdate(b.heap, b.held, h, heap[h], 0);
    PoolMarksFree(heap, b'.heap, b.held[h := 0]);
  }

  /** Handles that differ at most in their pool marks. */
  predicate SameButPool(heap: seq<Handle>, heap': seq<Handle>) {
    |heap| == |heap'| && forall h :: 0 <= h < |heap| ==> heap'[h] == heap[h].(inHighPool := heap'[h].inHighPool)
  }

  lemma {:induction false} PoolMarksFree(heap: seq<Handle>, heap': seq<Handle>, held: seq<nat>)
    requires SameButPool(heap, heap') && |held| == |heap|
    ensures LiveCharge(heap') == LiveCharge(heap) && HeldCharge(heap', held) == HeldCharge(heap, held)
  {
    if heap != [] {
      var n := |heap| - 1;
      PoolMarksFree(heap[..n], heap'[..n], held[..n]);
    }
  }

  /** A client gives up the last reference and the entry goes. */
  lemma Gone(b: Books, b': Books, h: Id)
    requires Fits(b) && h < |b.heap| && b.held[h] == 1 && b.usage >= b.heap[h].charge
    requires b' == b.(heap := b.heap[h := b.heap[h].(refs := 0, inCache := false)], held := b.held[h := 0], doomed := b.doomed + {h},
                      index := if b.heap[h].inCache then b.index - {b.heap[h].tag} else b.index, usage := b.usage - b.heap[h].charge)
    ensures Fits(b')
  {
    assert HandleFits(b, h);
    ListAfter(b, b', h, b'.heap[h]);
    hide ListFits, LiveCharge, HeldCharge;
    OneHandle(b, b', h);
  }

  /** Outside the mutex: the deleter runs on a doomed handle. */
  lemma DeleterRuns(b: Books, b': Books, h: Id)
    requires Fits(b) && h in b.doomed && h < |b.freed|
    requires b' == b.(freed := b.freed[h := b.freed[h] + 1], doomed := b.doomed - {h})
    ensures Fits(b') && b.heap[h].refs == 0 && !b.heap[h].inCache && b.held[h] == 0 && b.freed[h] == 0
  {
    assert HandleFits(b, h);
    ListAfter(b, b', h, b'.heap[h]);
    hide ListFits, LiveCharge, HeldCharge;
    OneHandle(b, b', h);
  }

  /** A new entry enters the table, where its tag is free, and is held by its inserter. */
  lemma Admitted(b: Books, b': Books, x: Handle)
    requires Fits(b) && x.tag !in b.index && x.inCache && x.refs == 2
    requires b' == b.(heap := b.heap + [x], held := b.held + [1], freed := b.freed + [0],
                      index := b.index[x.tag := |b.heap|], usage := b.usage + x.charge)
    ensures Fits(b')
  {
    var n := |b.heap|;
    assert b'.heap[..n] == b.heap && b'.held[..n] == b.held;
    ListUntouched(b.heap, b'.heap, b.lru, b.lowPri, b.lruUsage, b.poolUsage);
    forall h | 0 <= h < n ensures HandleFits(b', h) { assert HandleFits(b, h); }
    NewcomerFits(b, b', x);
    hide ListFits, HandleFits;
    forall tag | tag in b'.index ensures EntryFits(b', tag) {
      if tag != x.tag { assert EntryFits(b, tag); }
    }
  }

  lemma NewcomerFits(b: Books, b': Books, x: Handle)
    requires Fits(b) && x.inCache && x.refs == 2
    requires b' == b.(heap := b.heap + [x], held := b.held + [1], freed := b.freed + [0],
                      index := b.index[x.tag := |b.heap|], usage := b.usage + x.charge)
    ensures HandleFits(b', |b.heap|)
  {
  }

  // ---- What the invariant means ----

  datatype Stage = HeldInCache | OnlyInCache | HeldOutside | Dead

  function StageOf(x: Handle): Stage {
    if x.inCache then (if x.refs > 1 then HeldInCache else OnlyInCache)
    else if x.refs >= 1 then HeldOutside else Dead
  }

  /** A handle not yet given up is in exactly one of the three documented states, and the deleter has run once
      exactly if it is in none, never while a client holds it. */
  lemma DocumentedStates(b: Books, h: Id)
    requires Fits(b) && h < |b.heap|
    ensures StageOf(b.heap[h]) == HeldInCache <==> b.held[h] > 0 && Indexed(b.index, b.heap[h].tag, h)
    ensures StageOf(b.heap[h]) == OnlyInCache <==> h in b.lru
    ensures h in b.lru <==> b.held[h] == 0 && Indexed(b.index, b.heap[h].tag, h)
    ensures StageOf(b.heap[h]) == HeldOutside <==> b.held[h] > 0 && !Indexed(b.index, b.heap[h].tag, h)
    ensures b.freed[h] <= 1 && (b.freed[h] == 1 ==> b.held[h] == 0 && !Indexed(b.index, b.heap[h].tag, h))
    ensures h !in b.doomed ==> (b.freed[h] == 1 <==> b.held[h] == 0 && !Indexed(b.index, b.heap[h].tag, h))
  {
    assert HandleFits(b, h);
  }
}
