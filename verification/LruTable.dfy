/** The chained hash table of the LRU cache.  Buckets are chosen by masking the hash with a power of two; the
    table refines a finite map from (key, hash) to handles. */
module LruTable {
  import opened Records

  type Slice = string
  type Id = nat

  /** What the table compares: the key and its 32-bit hash. */
  datatype Tag = Tag(slice: Slice, hash: nat)

  datatype Entry = Entry(tag: Tag, id: Id)

  predicate Distinct(ids: seq<Id>) { forall i, j :: 0 <= i < j < |ids| ==> ids[i] != ids[j] }

  // ---- Masking ----

  /** Bitwise and of two non-negative numbers. */
  function And(x: nat, y: nat): (r: nat)
    ensures r <= y
  {
    if x == 0 || y == 0 then 0 else 2 * And(x / 2, y / 2) + (if x % 2 == 1 && y % 2 == 1 then 1 else 0)
  }

  function Pow2(k: nat): (r: nat)
    ensures r > 0
  {
    if k == 0 then 1 else 2 * Pow2(k - 1)
  }

  /** Masking with 2^k - 1 keeps the low k bits, so every bucket is reachable. */
  lemma {:induction false} MaskIsRemainder(x: nat, k: nat)
    ensures And(x, Pow2(k) - 1) == x % Pow2(k)
  {
    if k == 0 {
      assert Pow2(k) == 1;
    } else if x == 0 {
      RemainderUnique(0, Pow2(k), 0, 0);
    } else {
      var m := Pow2(k - 1);
      assert Pow2(k) == 2 * m;
      MaskIsRemainder(x / 2, k - 1);
      HalveRemainder(x, m);
      MaskStep(x, m);
      hide And, Pow2;
    }
  }

  lemma MaskStep(x: nat, m: nat)
    requires m > 0 && x > 0
    ensures And(x, 2 * m - 1) == 2 * And(x / 2, m - 1) + x % 2
  {
    assert (2 * m - 1) / 2 == m - 1 && (2 * m - 1) % 2 == 1;
  }

  lemma HalveRemainder(x: nat, m: nat)
    requires m > 0
    ensures x % (2 * m) == 2 * ((x / 2) % m) + x % 2
  {
    var q, r := (x / 2) / m, (x / 2) % m;
    assert x / 2 == q * m + r;
    Regroup(q, m, r, x % 2);
    RemainderUnique(x, 2 * m, q, 2 * r + x % 2);
  }

  lemma Regroup(q: nat, m: nat, r: nat, c: nat)
    ensures 2 * (q * m + r) + c == q * (2 * m) + (2 * r + c)
  {
  }

  lemma {:induction false} RemainderUnique(x: nat, d: nat, q: nat, r: nat)
    requires d > 0 && x == q * d + r && r < d
    ensures x % d == r
  {
    AtLeastOnce(q - x / d, d);
    AtLeastOnce(x / d - q, d);
    Distribute(q, x / d, d);
    assert x == x / d * d + x % d;
  }

  lemma AtLeastOnce(a: int, d: nat)
    ensures a >= 1 ==> a * d >= d
  {
  }

  lemma Distribute(a: int, b: int, d: int)
    ensures (a - b) * d == a * d - b * d && (b - a) * d == b * d - a * d
  {
  }

  function Bucket(tag: Tag, length: nat): (b: nat)
    requires length > 0
    ensures b < length
  {
    And(tag.hash, length - 1)
  }

  // ---- The refinement ----

  ghost predicate HasTag(chain: seq<Entry>, tag: Tag) { exists i :: 0 <= i < |chain| && chain[i].tag == tag }

  ghost predicate DistinctTags(chain: seq<Entry>) {
    forall i, j :: 0 <= i < j < |chain| ==> chain[i].tag != chain[j].tag
  }

  /** The chain of bucket b lists exactly the entries of m that belong there, each once. */
  ghost predicate ChainFits(chain: seq<Entry>, b: nat, length: nat, m: map<Tag, Id>)
    requires length > 0
  {
    && DistinctTags(chain)
    && (forall i :: 0 <= i < |chain| ==>
          chain[i].tag in m && m[chain[i].tag] == chain[i].id && Bucket(chain[i].tag, length) == b)
    && (forall t :: t in m && Bucket(t, length) == b ==> HasTag(chain, t))
  }

  ghost predicate Refines(lists: seq<seq<Entry>>, m: map<Tag, Id>) {
    forall b :: 0 <= b < |lists| ==> ChainFits(lists[b], b, |lists|, m)
  }

  function Total(lists: seq<seq<Entry>>): nat {
    if lists == [] then 0 else Total(lists[..|lists| - 1]) + |lists[|lists| - 1]|
  }

  lemma {:induction false} TotalUpdate(lists: seq<seq<Entry>>, b: nat, chain: seq<Entry>)
    requires b < |lists|
    ensures Total(lists[b := chain]) + |lists[b]| == Total(lists) + |chain|
  {
    var n := |lists| - 1;
    if b == n {
      assert lists[b := chain][..n] == lists[..n];
    } else {
      assert lists[b := chain][..n] == lists[..n][b := chain];
      TotalUpdate(lists[..n], b, chain);
    }
  }

  lemma {:induction false} TotalEmpty(lists: seq<seq<Entry>>)
    requires forall b :: 0 <= b < |lists| ==> lists[b] == []
    ensures Total(lists) == 0
  {
    if lists != [] { TotalEmpty(lists[..|lists| - 1]); }
  }

  /** Chains of other buckets do not notice a change of one tag. */
  lemma OtherChains(lists: seq<seq<Entry>>, m: map<Tag, Id>, m': map<Tag, Id>, tag: Tag, chain: seq<Entry>)
    requires |lists| > 0 && Refines(lists, m)
    requires forall t :: t != tag ==> (t in m <==> t in m') && (t in m ==> m[t] == m'[t])
    requires ChainFits(chain, Bucket(tag, |lists|), |lists|, m')
    ensures Refines(lists[Bucket(tag, |lists|) := chain], m')
  {
  }

  lemma AddToChain(chain: seq<Entry>, b: nat, length: nat, m: map<Tag, Id>, e: Entry, at: nat)
    requires length > 0 && ChainFits(chain, b, length, m) && e.tag !in m && Bucket(e.tag, length) == b && at <= |chain|
    ensures ChainFits(chain[..at] + [e] + chain[at..], b, length, m[e.tag := e.id])
  {
    hide And;
    var chain' := chain[..at] + [e] + chain[at..];
    assert chain'[at] == e;
    forall t | t in m && Bucket(t, length) == b ensures HasTag(chain', t) {
      var i :| 0 <= i < |chain| && chain[i].tag == t;
      assert chain'[if i < at then i else i + 1] == chain[i];
    }
  }

  lemma ReplaceInChain(chain: seq<Entry>, b: nat, length: nat, m: map<Tag, Id>, e: Entry, at: nat)
    requires length > 0 && ChainFits(chain, b, length, m) && at < |chain| && chain[at].tag == e.tag
    ensures ChainFits(chain[at := e], b, length, m[e.tag := e.id])
  {
    hide And;
    forall t | t in m && Bucket(t, length) == b ensures HasTag(chain[at := e], t) {
      var i :| 0 <= i < |chain| && chain[i].tag == t;
      assert chain[at := e][i].tag == t;
    }
  }

  lemma DropFromChain(chain: seq<Entry>, b: nat, length: nat, m: map<Tag, Id>, at: nat)
    requires length > 0 && ChainFits(chain, b, length, m) && at < |chain|
    ensures ChainFits(chain[..at] + chain[at + 1..], b, length, m - {chain[at].tag})
  {
    hide And;
    var chain' := chain[..at] + chain[at + 1..];
    assert forall i :: 0 <= i < |chain'| ==> chain'[i] == chain[if i < at then i else i + 1];
    forall t | t in m && t != chain[at].tag && Bucket(t, length) == b ensures HasTag(chain', t) {
      var i :| 0 <= i < |chain| && chain[i].tag == t;
      assert chain'[if i < at then i else i - 1].tag == t;
    }
  }

  /** Putting an entry with a new tag anywhere into its chain adds it to the map. */
  lemma AddEntry(lists: seq<seq<Entry>>, m: map<Tag, Id>, e: Entry, at: nat)
    requires |lists| > 0 && Refines(lists, m) && e.tag !in m && at <= |lists[Bucket(e.tag, |lists|)]|
    ensures var b := Bucket(e.tag, |lists|);
            Refines(lists[b := lists[b][..at] + [e] + lists[b][at..]], m[e.tag := e.id])
  {
    var b := Bucket(e.tag, |lists|);
    AddToChain(lists[b], b, |lists|, m, e, at);
    hide ChainFits;
    OtherChains(lists, m, m[e.tag := e.id], e.tag, lists[b][..at] + [e] + lists[b][at..]);
  }

  lemma ReplaceEntry(lists: seq<seq<Entry>>, m: map<Tag, Id>, e: Entry, at: nat)
    requires |lists| > 0 && Refines(lists, m) && at < |lists[Bucket(e.tag, |lists|)]|
    requires lists[Bucket(e.tag, |lists|)][at].tag == e.tag
    ensures var b := Bucket(e.tag, |lists|);
            Refines(lists[b := lists[b][at := e]], m[e.tag := e.id])
  {
    var b := Bucket(e.tag, |lists|);
    ReplaceInChain(lists[b], b, |lists|, m, e, at);
    hide ChainFits;
    OtherChains(lists, m, m[e.tag := e.id], e.tag, lists[b][at := e]);
  }

  lemma DropEntry(lists: seq<seq<Entry>>, m: map<Tag, Id>, tag: Tag, at: nat)
    requires |lists| > 0 && Refines(lists, m) && at < |lists[Bucket(tag, |lists|)]|
    requires lists[Bucket(tag, |lists|)][at].tag == tag
    ensures var b := Bucket(tag, |lists|);
            Refines(lists[b := lists[b][..at] + lists[b][at + 1..]], m - {tag})
  {
    var b := Bucket(tag, |lists|);
    DropFromChain(lists[b], b, |lists|, m, at);
    hide ChainFits;
    OtherChains(lists, m, m - {tag}, tag, lists[b][..at] + lists[b][at + 1..]);
  }

  // ---- The table ----

  class LRUHandleTable {
    var elems: nat
    var list: array<seq<Entry>>
    /** The map the table stands for. */
    ghost var contents: map<Tag, Id>

    ghost predicate Valid()
      reads this, list
    {
      && 16 <= list.Length && (exists k: nat :: list.Length == Pow2(k))
      && Refines(list[..], contents)
      && elems == |contents| == Total(list[..])
      && elems <= list.Length
    }

    /** The length is a power of two, so masking picks the remainder and every bucket can be picked. */
    lemma BucketIsRemainder(tag: Tag)
      requires Valid()
      ensures Bucket(tag, list.Length) == tag.hash % list.Length
      ensures forall b: nat :: b < list.Length ==> Bucket(Tag("", b), list.Length) == b
    {
      hide And, Pow2, Refines;
      var k: nat :| list.Length == Pow2(k);
      MaskIsRemainder(tag.hash, k);
      forall b: nat | b < list.Length ensures Bucket(Tag("", b), list.Length) == b {
        MaskIsRemainder(b, k);
        RemainderUnique(b, list.Length, 0, b);
      }
    }

    constructor ()
      ensures Valid() && contents == map[] && fresh(list)
    {
      elems := 0;
      list := new seq<Entry>[16](_ => []);
      contents := map[];
      new;
      TotalEmpty(list[..]);
      assert Pow2(4) == 16;
    }

    /** The slot of the entry with this tag, or the trailing slot of its chain. */
    method FindPointer(tag: Tag) returns (b: nat, at: nat)
      requires list.Length > 0 && Refines(list[..], contents)
      ensures b == Bucket(tag, list.Length) && at <= |list[b]|
      ensures at < |list[b]| <==> tag in contents
      ensures at < |list[b]| ==> list[b][at].tag == tag && contents[tag] == list[b][at].id
    {
      b := Bucket(tag, list.Length);
      at := 0;
      hide And;
      assert ChainFits(list[..][b], b, list.Length, contents);
      while at < |list[b]| && (list[b][at].tag.hash != tag.hash || tag.slice != list[b][at].tag.slice)
        invariant at <= |list[b]|
        invariant forall i :: 0 <= i < at ==> list[b][i].tag != tag
      {
        at := at + 1;
      }
    }

    method Lookup(tag: Tag) returns (r: Option<Id>)
      requires Valid()
      ensures r == if tag in contents then Some(contents[tag]) else None
    {
      var b, at := FindPointer(tag);
      r := if at < |list[b]| then Some(list[b][at].id) else None;
    }

    method Insert(e: Entry) returns (displaced: Option<Id>)
      requires Valid()
      modifies this, list
      ensures Valid() && contents == old(contents)[e.tag := e.id]
      ensures displaced == if e.tag in old(contents) then Some(old(contents)[e.tag]) else None
      ensures list == old(list) || fresh(list)
    {
      var b, at := FindPointer(e.tag);
      ghost var lists := list[..];
      var chain := list[b];
      if at < |chain| {
        displaced := Some(chain[at].id);
        list[b] := chain[at := e];
        assert list[..] == lists[b := chain[at := e]];
        ReplaceEntry(lists, contents, e, at);
        TotalUpdate(lists, b, chain[at := e]);
        contents := contents[e.tag := e.id];
        assert contents.Keys == old(contents).Keys;
        assert |contents| == |contents.Keys|;
      } else {
        displaced := None;
        list[b] := chain + [e];
        assert chain + [e] == chain[..at] + [e] + chain[at..];
        assert list[..] == lists[b := chain + [e]];
        AddEntry(lists, contents, e, at);
        TotalUpdate(lists, b, chain + [e]);
        contents := contents[e.tag := e.id];
        elems := elems + 1;
        if elems > list.Length { Resize(); }
      }
    }

    method Remove(tag: Tag) returns (removed: Option<Id>)
      requires Valid()
      modifies this, list
      ensures Valid() && contents == old(contents) - {tag} && list == old(list)
      ensures removed == if tag in old(contents) then Some(old(contents)[tag]) else None
    {
      var b, at := FindPointer(tag);
      ghost var lists := list[..];
      var chain := list[b];
      if at < |chain| {
        removed := Some(chain[at].id);
        list[b] := chain[..at] + chain[at + 1..];
        assert list[..] == lists[b := chain[..at] + chain[at + 1..]];
        DropEntry(lists, contents, tag, at);
        TotalUpdate(lists, b, chain[..at] + chain[at + 1..]);
        contents := contents - {tag};
        assert contents.Keys == old(contents).Keys - {tag};
        assert |contents| == |contents.Keys|;
        elems := elems - 1;
      } else {
        removed := None;
        assert contents - {tag} == contents;
      }
    }

    /** Rehash into the least power of two, at least 16, that is at least one and a half times the number of
        entries. */
    method Resize()
      requires 0 < list.Length && Refines(list[..], contents) && elems == |contents| == Total(list[..])
      modifies this
      ensures Valid() && fresh(list) && contents == old(contents) && elems == old(elems)
      ensures 3 * elems <= 2 * list.Length && (list.Length == 16 || list.Length < 3 * elems)
    {
      var newLength := 16;
      ghost var k: nat := 4;
      assert Pow2(4) == 16;
      while 2 * newLength < 3 * elems
        invariant newLength >= 16 && newLength == Pow2(k) && (newLength == 16 || newLength < 3 * elems)
        decreases 3 * elems - newLength
      {
        newLength := newLength * 2;
        k := k + 1;
      }
      var newList, count := Rehash(newLength);
      assert elems == count;
      list := newList;
    }

    /** Move every entry to its new chain, bucket by bucket. */
    method Rehash(newLength: nat) returns (newList: array<seq<Entry>>, count: nat)
      requires 0 < list.Length && 0 < newLength && Refines(list[..], contents)
      ensures fresh(newList) && newList.Length == newLength && Refines(newList[..], contents)
      ensures count == Total(list[..]) == Total(newList[..])
    {
      newList := new seq<Entry>[newLength](_ => []);
      count := 0;
      ghost var moved: map<Tag, Id> := map[];
      hide And;
      TotalEmpty(newList[..]);
      for i := 0 to list.Length
        invariant newList.Length == newLength && fresh(newList) && list[..] == old(list[..])
        invariant Refines(newList[..], moved) && count == Total(newList[..]) == Total(list[..i])
        invariant forall t :: t in moved <==> t in contents && Bucket(t, list.Length) < i
        invariant forall t :: t in moved ==> moved[t] == contents[t]
      {
        assert ChainFits(list[..][i], i, list.Length, contents);
        assert list[..i + 1][..i] == list[..i];
        RecordedFacts(moved, list[i]);
        MoveChain(list[i], newList, moved);
        moved := Recorded(moved, list[i]);
        count := count + |list[i]|;
      }
      assert list[..list.Length] == list[..];
      assert moved == contents;
    }
  }

  /** The map m after the entries of a chain have been recorded in it. */
  ghost function Recorded(m: map<Tag, Id>, chain: seq<Entry>): map<Tag, Id> {
    if chain == [] then m
    else
      var n := |chain| - 1;
      Recorded(m, chain[..n])[chain[n].tag := chain[n].id]
  }

  lemma {:induction false} RecordedFacts(m: map<Tag, Id>, chain: seq<Entry>)
    requires DistinctTags(chain) && forall i :: 0 <= i < |chain| ==> chain[i].tag !in m
    ensures forall t :: t in Recorded(m, chain) <==> t in m || HasTag(chain, t)
    ensures forall t :: t in m ==> Recorded(m, chain)[t] == m[t]
    ensures forall i :: 0 <= i < |chain| ==> chain[i].tag in Recorded(m, chain) && Recorded(m, chain)[chain[i].tag] == chain[i].id
  {
    if chain != [] {
      var n := |chain| - 1;
      RecordedFacts(m, chain[..n]);
      assert forall i :: 0 <= i < n ==> chain[i] == chain[..n][i];
      ExtendTags(chain, n);
      assert chain[..n + 1] == chain;
    }
  }

  /** Push the entries of one chain, in order, to the front of their new chains. */
  method MoveChain(chain: seq<Entry>, newList: array<seq<Entry>>, ghost m: map<Tag, Id>)
    requires newList.Length > 0 && Refines(newList[..], m)
    requires DistinctTags(chain) && forall i :: 0 <= i < |chain| ==> chain[i].tag !in m
    modifies newList
    ensures Refines(newList[..], Recorded(m, chain)) && Total(newList[..]) == old(Total(newList[..])) + |chain|
  {
    hide And;
    for j := 0 to |chain|
      invariant Refines(newList[..], Recorded(m, chain[..j])) && Total(newList[..]) == old(Total(newList[..])) + j
    {
      ghost var lists := newList[..];
      var h := chain[j];
      var b := Bucket(h.tag, newList.Length);
      newList[b] := [h] + newList[b];
      assert newList[..] == lists[b := [h] + lists[b]];
      MovedOne(lists, m, chain, j);
    }
    assert chain[..|chain|] == chain;
  }

  lemma MovedOne(lists: seq<seq<Entry>>, m: map<Tag, Id>, chain: seq<Entry>, j: nat)
    requires |lists| > 0 && j < |chain| && Refines(lists, Recorded(m, chain[..j]))
    requires DistinctTags(chain) && forall i :: 0 <= i < |chain| ==> chain[i].tag !in m
    ensures var b := Bucket(chain[j].tag, |lists|);
            && Refines(lists[b := [chain[j]] + lists[b]], Recorded(m, chain[..j + 1]))
            && Total(lists[b := [chain[j]] + lists[b]]) == Total(lists) + 1
  {
    var h := chain[j];
    var b := Bucket(h.tag, |lists|);
    RecordedFacts(m, chain[..j]);
    assert lists[b][..0] + [h] + lists[b][0..] == [h] + lists[b];
    AddEntry(lists, Recorded(m, chain[..j]), h, 0);
    TotalUpdate(lists, b, [h] + lists[b]);
    assert chain[..j + 1][..j] == chain[..j];
  }

  lemma ExtendTags(chain: seq<Entry>, j: nat)
    requires j < |chain|
    ensures forall t :: HasTag(chain[..j + 1], t) <==> HasTag(chain[..j], t) || t == chain[j].tag
  {
  }
}
