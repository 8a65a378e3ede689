/** Recency on the LRU list: when each entry was last released or inserted, and what the order of the list says about it. */
module LruOrder {
  import opened LruTable

  /** clock: the time of the next event.  linked: when an entry was last put on the list, by a release or an insertion.
      entered: when it entered the segment it is in.  demoted: it has passed from the high-priority pool to the
      low-priority one since it was linked. */
  datatype Times = Times(clock: nat, linked: map<Id, nat>, entered: map<Id, nat>, demoted: set<Id>)

  function Members(ids: seq<Id>): set<Id> { set x | x in ids }

  const BEGINNING := Times(0, map[], map[], {})

  predicate Recorded(t: Times, x: Id) {
    && x in t.linked && x in t.entered && t.linked[x] <= t.entered[x] < t.clock
    && (x !in t.demoted ==> t.entered[x] == t.linked[x])
  }

  predicate Earlier(t: Times, x: Id, y: Id) { x in t.entered && y in t.entered && t.entered[x] < t.entered[y] }

  predicate SameSegment(lowPri: nat, i: nat, j: nat) { j < lowPri || lowPri <= i }

  /** Both segments are in the order in which their entries entered them; only the low-priority one has demoted entries. */
  predicate InOrder(lru: seq<Id>, lowPri: nat, t: Times) {
    && (forall i :: 0 <= i < |lru| ==> Recorded(t, lru[i]))
    && (forall i :: lowPri <= i < |lru| ==> lru[i] !in t.demoted)
    && (forall i: nat, j: nat :: i < j < |lru| && SameSegment(lowPri, i, j) ==> Earlier(t, lru[i], lru[j]))
  }

  /** An entry that has not been demoted was released or inserted after everything before it in its segment. */
  lemma NewerBehind(lru: seq<Id>, lowPri: nat, t: Times, i: nat, j: nat)
    requires InOrder(lru, lowPri, t) && i < j < |lru| && SameSegment(lowPri, i, j) && lru[j] !in t.demoted
    ensures lru[i] in t.linked && lru[j] in t.linked && t.linked[lru[i]] < t.linked[lru[j]]
  {
    assert Recorded(t, lru[i]) && Recorded(t, lru[j]) && Earlier(t, lru[i], lru[j]);
  }

  /** A demoted entry may stand behind one released after it: high-priority entry 0 is released, then low-priority entry 1,
      then the pool shrinks. */
  lemma DemotedBehindNewer()
    ensures var t := Passed(Stamped(Stamped(BEGINNING, 0), 1), 0);
            InOrder([1, 0], 2, t) && 0 in t.demoted && t.linked[0] < t.linked[1]
  {
  }

  /** Entry e is released or inserted. */
  function Stamped(t: Times, e: Id): Times {
    Times(t.clock + 1, t.linked[e := t.clock], t.entered[e := t.clock], t.demoted - {e})
  }

  /** Entry e passes from the high-priority pool to the low-priority one. */
  function Passed(t: Times, e: Id): Times {
    t.(clock := t.clock + 1, entered := t.entered[e := t.clock], demoted := t.demoted + {e})
  }

  lemma OrderCut(lru: seq<Id>, lowPri: nat, t: Times, at: nat)
    requires InOrder(lru, lowPri, t) && at < |lru|
    ensures InOrder(lru[..at] + lru[at + 1..], if at < lowPri then lowPri - 1 else lowPri, t)
  {
    var r, low := lru[..at] + lru[at + 1..], if at < lowPri then lowPri - 1 else lowPri;
    assert forall i: nat :: i < |r| ==> r[i] == lru[if i < at then i else i + 1];
    forall i: nat, j: nat | i < j < |r| && SameSegment(low, i, j) ensures Earlier(t, r[i], r[j]) {
      var i', j' := if i < at then i else i + 1, if j < at then j else j + 1;
      assert SameSegment(lowPri, i', j') && Earlier(t, lru[i'], lru[j']);
    }
    hide Recorded, Earlier;
  }

  lemma OrderLinked(lru: seq<Id>, lowPri: nat, t: Times, e: Id, high: bool)
    requires InOrder(lru, lowPri, t) && e !in lru && lowPri <= |lru|
    ensures var at := if high then |lru| else lowPri;
            InOrder(lru[..at] + [e] + lru[at..], if high then lowPri else lowPri + 1, Stamped(t, e))
  {
    var at, t' := if high then |lru| else lowPri, Stamped(t, e);
    var r := lru[..at] + [e] + lru[at..];
    var low := if high then lowPri else lowPri + 1;
    assert forall i: nat :: i < |r| ==> r[i] == if i < at then lru[i] else if i == at then e else lru[i - 1];
    forall i: nat | i < |r| ensures Recorded(t', r[i]) { if i != at { assert Recorded(t, r[i]); } }
    forall i: nat, j: nat | i < j < |r| && SameSegment(low, i, j) ensures Earlier(t', r[i], r[j]) {
      if j == at {
        assert Recorded(t, lru[i]);
      } else if i != at {
        var i', j' := if i < at then i else i - 1, if j < at then j else j - 1;
        assert SameSegment(lowPri, i', j') && Earlier(t, lru[i'], lru[j']);
      }
    }
  }

  lemma OrderPassed(lru: seq<Id>, lowPri: nat, t: Times)
    requires InOrder(lru, lowPri, t) && lowPri < |lru| && Distinct(lru)
    ensures InOrder(lru, lowPri + 1, Passed(t, lru[lowPri]))
  {
    var e, t' := lru[lowPri], Passed(t, lru[lowPri]);
    forall i: nat | i < |lru| ensures Recorded(t', lru[i]) { assert Recorded(t, lru[i]); }
    forall i: nat, j: nat | i < j < |lru| && SameSegment(lowPri + 1, i, j) ensures Earlier(t', lru[i], lru[j]) {
      assert Recorded(t, lru[i]) && Recorded(t, lru[j]);
      if j != lowPri { assert Earlier(t, lru[i], lru[j]); }
    }
  }

  /** What a release or insertion of e does to the times when the entries `passed` are demoted in its course. */
  ghost predicate Relinked(t: Times, t': Times, e: Id, passed: seq<Id>) {
    t'.linked == t.linked[e := t.clock] && t'.clock > t.clock && t'.demoted == t.demoted - {e} + Members(passed)
  }
}
