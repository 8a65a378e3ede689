/** The circular doubly linked LRU list with its dummy head and the pointer to the newest low-priority entry. */
module LruRing {
  import opened LruTable

  /** A node is a handle, or the dummy head. */
  type Node = int

  const HEAD: Node := -1

  /** Position i of the ring, counted from the dummy head and back to it. */
  function At(order: seq<Id>, i: nat): Node { if 1 <= i <= |order| then order[i - 1] else HEAD }

  /** The nodes at positions i and i + 1 point at each other. */
  predicate Joined(next: map<Node, Node>, prev: map<Node, Node>, order: seq<Id>, i: nat) {
    var x, y := At(order, i), At(order, i + 1);
    x in next && next[x] == y && y in prev && prev[y] == x
  }

  /** The fields that are not null are those of the head and the entries. */
  ghost predicate Defined(fields: map<Node, Node>, order: seq<Id>) {
    forall x: Node :: x in fields <==> x == HEAD || x in order
  }

  /** next and prev link exactly the head and the entries, in this order. */
  ghost predicate Links(next: map<Node, Node>, prev: map<Node, Node>, order: seq<Id>) {
    && Distinct(order) && Defined(next, order) && Defined(prev, order)
    && forall i: nat :: i <= |order| ==> Joined(next, prev, order, i)
  }

  function Cut(order: seq<Id>, at: nat): seq<Id>
    requires at < |order|
  {
    order[..at] + order[at + 1..]
  }

  function Paste(order: seq<Id>, at: nat, e: Id): seq<Id>
    requires at <= |order|
  {
    order[..at] + [e] + order[at..]
  }

  lemma CutPositions(order: seq<Id>, at: nat)
    requires at < |order| && Distinct(order)
    ensures |Cut(order, at)| == |order| - 1 && Distinct(Cut(order, at))
    ensures forall x: Node :: x in Cut(order, at) <==> x != order[at] && x in order
  {
    var r := Cut(order, at);
    assert forall i :: 0 <= i < |r| ==> r[i] == order[if i < at then i else i + 1];
    assert order == order[..at] + [order[at]] + order[at + 1..];
  }

  lemma PasteMembers(order: seq<Id>, at: nat, e: Id)
    requires at <= |order| && e !in order && Distinct(order)
    ensures |Paste(order, at, e)| == |order| + 1 && Distinct(Paste(order, at, e))
    ensures forall x: Node :: x in Paste(order, at, e) <==> x == e || x in order
  {
    assert order == order[..at] + order[at..];
    var r := Paste(order, at, e);
    assert forall i :: 0 <= i < |r| && i != at ==> r[i] == order[if i < at then i else i - 1];
  }

  /** Different positions hold different nodes; only the head is at both ends. */
  lemma Apart(order: seq<Id>, i: nat, j: nat)
    requires Distinct(order) && i <= |order| + 1 && j <= |order| + 1
    ensures i != j && !(i == 0 && j == |order| + 1) && !(j == 0 && i == |order| + 1) ==> At(order, i) != At(order, j)
  {
  }

  lemma LinkAt(next: map<Node, Node>, prev: map<Node, Node>, order: seq<Id>, i: nat)
    requires Links(next, prev, order) && i <= |order|
    ensures Joined(next, prev, order, i) && Distinct(order)
  {
  }

  lemma UnlinkedAt(next: map<Node, Node>, prev: map<Node, Node>, order: seq<Id>, at: nat, i: nat)
    requires Links(next, prev, order) && at < |order| && i < |order|
    requires var e := order[at]; e in next && e in prev && next[e] == At(order, at + 2) && prev[e] == At(order, at)
    ensures var e := order[at];
            Joined(next[prev[e] := next[e]] - {e}, prev[next[e] := prev[e]] - {e}, Cut(order, at), i)
  {
    hide Links, Cut, At, Distinct;
    var e := order[at];
    var j, l := if i <= at then i else i + 1, if i < at then i + 1 else i + 2;
    CutPosition(order, at, i);
    CutPosition(order, at, i + 1);
    LinkAt(next, prev, order, j);
    LinkAt(next, prev, order, l - 1);
    EntryAt(order, at);
    Apart(order, j, at);
    Apart(order, j, at + 1);
    Apart(order, l, at + 1);
    Apart(order, l, at + 2);
  }

  lemma CutPosition(order: seq<Id>, at: nat, i: nat)
    requires at < |order| && i <= |order|
    ensures At(Cut(order, at), i) == At(order, if i <= at then i else i + 1)
  {
  }

  lemma EntryAt(order: seq<Id>, at: nat)
    requires at < |order|
    ensures At(order, at + 1) == order[at]
  {
  }

  /** LRU_Remove relinks the neighbours and clears the entry's own fields. */
  lemma Unlinked(next: map<Node, Node>, prev: map<Node, Node>, order: seq<Id>, at: nat)
    requires Links(next, prev, order) && at < |order|
    ensures var e := order[at];
            && e in next && e in prev && next[e] == At(order, at + 2) && prev[e] == At(order, at)
            && Links(next[prev[e] := next[e]] - {e}, prev[next[e] := prev[e]] - {e}, Cut(order, at))
  {
    hide At, Distinct, Defined, Cut;
    var e := order[at];
    EntryAt(order, at);
    LinkAt(next, prev, order, at);
    LinkAt(next, prev, order, at + 1);
    var r, next', prev' := Cut(order, at), next[prev[e] := next[e]] - {e}, prev[next[e] := prev[e]] - {e};
    assert |r| == |order| - 1 && Distinct(r) && Defined(next', r) && Defined(prev', r) by {
      CutPositions(order, at);
      Apart(order, at, at + 1);
      Apart(order, at + 1, at + 2);
      DefinedLess(next, order, r, e, prev[e], next[e]);
      DefinedLess(prev, order, r, e, next[e], prev[e]);
    }
    hide Joined;
    forall i: nat | i <= |r| ensures Joined(next', prev', r, i) { UnlinkedAt(next, prev, order, at, i); }
  }

  lemma DefinedLess(fields: map<Node, Node>, order: seq<Id>, shorter: seq<Id>, e: Id, x: Node, y: Node)
    requires Defined(fields, order) && x in fields && x != e && forall z: Node :: z in shorter <==> z != e && z in order
    ensures Defined(fields[x := y] - {e}, shorter)
  {
  }

  lemma PastePosition(order: seq<Id>, at: nat, e: Id, i: nat)
    requires at <= |order| && i <= |order| + 2
    ensures At(Paste(order, at, e), i) == if i <= at then At(order, i) else if i == at + 1 then e else At(order, i - 1)
  {
  }

  lemma InsertedAt(next: map<Node, Node>, prev: map<Node, Node>, order: seq<Id>, at: nat, e: Id, i: nat)
    requires Links(next, prev, order) && at <= |order| && e !in order && i <= |order| + 1
    ensures var p, n := At(order, at), At(order, at + 1);
            Joined(next[e := n][p := e], prev[e := p][n := e], Paste(order, at, e), i)
  {
    hide Links, Paste, At, Distinct;
    PastePosition(order, at, e, i);
    PastePosition(order, at, e, i + 1);
    var j := if i <= at then i else i - 1;
    LinkAt(next, prev, order, at);
    LinkAt(next, prev, order, j);
    Apart(order, j, at);
    Apart(order, j + 1, at + 1);
    NotThere(order, e, j);
    NotThere(order, e, j + 1);
    NotThere(order, e, at);
    NotThere(order, e, at + 1);
  }

  lemma NotThere(order: seq<Id>, e: Id, i: nat)
    requires e !in order
    ensures At(order, i) != e
  {
  }

  /** Inserting behind a node links the entry between it and its successor. */
  lemma Inserted(next: map<Node, Node>, prev: map<Node, Node>, order: seq<Id>, at: nat, e: Id)
    requires Links(next, prev, order) && at <= |order| && e !in order
    ensures var p, n := At(order, at), At(order, at + 1);
            && p in next && next[p] == n && n in prev && prev[n] == p
            && Links(next[e := n][p := e], prev[e := p][n := e], Paste(order, at, e))
  {
    var p, n := At(order, at), At(order, at + 1);
    LinkAt(next, prev, order, at);
    hide At, Distinct, Paste, Defined;
    var r, next', prev' := Paste(order, at, e), next[e := n][p := e], prev[e := p][n := e];
    assert |r| == |order| + 1 && Distinct(r) && Defined(next', r) && Defined(prev', r) by {
      PasteMembers(order, at, e);
      DefinedToo(next, order, r, e, n, p, e);
      DefinedToo(prev, order, r, e, p, n, e);
    }
    hide Joined;
    forall i: nat | i <= |r| ensures Joined(next', prev', r, i) { InsertedAt(next, prev, order, at, e, i); }
  }

  lemma DefinedToo(fields: map<Node, Node>, order: seq<Id>, longer: seq<Id>, e: Id, to: Node, x: Node, y: Node)
    requires Defined(fields, order) && x in fields && forall z: Node :: z in longer <==> z == e || z in order
    ensures Defined(fields[e := to][x := y], longer)
  {
  }

  class LRURing {
    /** The fields of all nodes; a node that is not in a map has a null field. */
    var next: map<Node, Node>
    var prev: map<Node, Node>
    /** lru_low_pri_: the newest low-priority entry, or the head if there is none. */
    var lowPri: Node
    /** The entries, oldest first, and how many of them are low-priority. */
    ghost var order: seq<Id>
    ghost var low: nat

    ghost predicate Valid()
      reads this
    {
      Links(next, prev, order) && low <= |order| && lowPri == At(order, low)
    }

    constructor ()
      ensures Valid() && order == [] && low == 0
    {
      next, prev, lowPri, order, low := map[HEAD := HEAD], map[HEAD := HEAD], HEAD, [], 0;
    }

    /** The oldest entry, or the head if the list is empty. */
    method First() returns (e: Node)
      requires Valid()
      ensures if order == [] then e == HEAD else e == order[0]
    {
      LinkAt(next, prev, order, 0);
      e := next[HEAD];
    }

    method Remove(e: Id) returns (ghost at: nat)
      requires Valid() && e in order
      modifies this
      ensures Valid() && at < |old(order)| && old(order)[at] == e && order == Cut(old(order), at)
      ensures low == if at < old(low) then old(low) - 1 else old(low)
    {
      hide Links, At, Cut;
      at :| 0 <= at < |order| && order[at] == e;
      Unlinked(next, prev, order, at);
      EntryAt(order, at);
      LowAfterCut(next, prev, order, at, low);
      if lowPri == e { lowPri := prev[e]; }
      var after, before := next[e], prev[e];
      prev := prev[after := before];
      next := next[before := after];
      prev, next := prev - {e}, next - {e};
      low := if at < low then low - 1 else low;
      order := Cut(order, at);
    }

    method InsertHead(e: Id)
      requires Valid() && e !in order
      modifies this
      ensures Valid() && order == Paste(old(order), |old(order)|, e) && low == old(low)
    {
      hide Links, Paste;
      Inserted(next, prev, order, |order|, e);
      PastePosition(order, |order|, e, low);
      PasteLonger(order, |order|, e);
      next, prev := next[e := HEAD], prev[e := prev[HEAD]];
      next := next[prev[e] := e];
      prev := prev[next[e] := e];
      order := Paste(order, |order|, e);
    }

    method InsertLow(e: Id)
      requires Valid() && e !in order
      modifies this
      ensures Valid() && order == Paste(old(order), old(low), e) && low == old(low) + 1
    {
      hide Links, Paste, At;
      Inserted(next, prev, order, low, e);
      PastePosition(order, low, e, low + 1);
      PasteLonger(order, low, e);
      NotThere(order, e, low);
      NotThere(order, e, low + 1);
      next, prev := next[e := next[lowPri]], prev[e := lowPri];
      next := next[prev[e] := e];
      prev := prev[next[e] := e];
      lowPri := e;
      order, low := Paste(order, low, e), low + 1;
    }

    /** Is the low-priority pointer's successor the head, that is, is no entry high-priority? */
    method NothingAbove() returns (b: bool)
      requires Valid()
      ensures b <==> low == |order|
    {
      LinkAt(next, prev, order, low);
      b := next[lowPri] == HEAD;
    }

    /** The oldest high-priority entry becomes the newest low-priority one; the pointer does not reach the head. */
    method AdvanceLow() returns (e: Id)
      requires Valid() && low < |order|
      modifies `lowPri, `low
      ensures Valid() && e == order[old(low)] && low == old(low) + 1
    {
      LinkAt(next, prev, order, low);
      lowPri := next[lowPri];
      assert lowPri != HEAD;
      low := low + 1;
      e := lowPri;
    }
  }

  lemma LowAfterCut(next: map<Node, Node>, prev: map<Node, Node>, order: seq<Id>, at: nat, low: nat)
    requires Links(next, prev, order) && at < |order| && low <= |order|
    ensures |Cut(order, at)| == |order| - 1
    ensures At(order, low) == order[at] <==> low == at + 1
    ensures At(Cut(order, at), if at < low then low - 1 else low) == At(order, if low == at + 1 then at else low)
  {
  }

  lemma PasteLonger(order: seq<Id>, at: nat, e: Id)
    requires at <= |order|
    ensures |Paste(order, at, e)| == |order| + 1
  {
  }
}
