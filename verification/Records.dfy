/** User keys, versioned records and point reads over a sorted run of records. */
module Records {

  datatype Option<+T> = None | Some(value: T)

  /** Only the order of user keys matters to the code, and it comes from a user-supplied
      comparator.  Every total order on (countably many) byte strings embeds in the reals. */
  type Key = real

  /** Largest sequence number: 56 bits (rocksdb/db/dbformat.h:73). */
  const MAX_SEQNO: nat := 0xFF_FFFF_FFFF_FFFF

  type SeqNo = n: nat | n <= MAX_SEQNO

  datatype Kind = Value | Deletion | SingleDeletion

  datatype Record = Record(key: Key, seqno: SeqNo, kind: Kind, value: string)

  /** Internal-key order: user key ascending, then sequence number descending. */
  predicate Before(a: Record, b: Record) {
    a.key < b.key || (a.key == b.key && a.seqno > b.seqno)
  }

  predicate Sorted(rs: seq<Record>) {
    forall i, j :: 0 <= i < j < |rs| ==> Before(rs[i], rs[j])
  }

  predicate Mentions(rs: seq<Record>, k: Key) {
    exists i :: 0 <= i < |rs| && rs[i].key == k
  }

  datatype Answer = Found(value: string) | Deleted | Absent

  /** What a run of records answers for key `k` at sequence number `s`: the first visible version. */
  function Lookup(rs: seq<Record>, k: Key, s: SeqNo): Answer {
    if rs == [] then Absent
    else if rs[0].key == k && rs[0].seqno <= s then
      if rs[0].kind == Value then Found(rs[0].value) else Deleted
    else Lookup(rs[1..], k, s)
  }

  /** Deeper data is consulted only when this run says nothing about the key. */
  function Read(rs: seq<Record>, older: (Key, SeqNo) -> Option<string>, k: Key, s: SeqNo): Option<string> {
    match Lookup(rs, k, s)
    case Found(v) => Some(v)
    case Deleted => None
    case Absent => older(k, s)
  }

  /** The version that decides a read: visible at `s` and newer than every other visible version. */
  ghost predicate Newest(rs: seq<Record>, k: Key, s: SeqNo, i: nat) {
    && i < |rs| && rs[i].key == k && rs[i].seqno <= s
    && forall j :: 0 <= j < |rs| && rs[j].key == k && rs[j].seqno <= s ==> rs[j].seqno <= rs[i].seqno
  }

  /** On a sorted run the first visible version is the newest one; `Absent` means there is none. */
  lemma {:induction false} LookupDecidedByNewest(rs: seq<Record>, k: Key, s: SeqNo)
    requires Sorted(rs)
    ensures Lookup(rs, k, s).Absent? <==> !exists i: nat :: Newest(rs, k, s, i)
    ensures forall i: nat :: Newest(rs, k, s, i) ==>
              Lookup(rs, k, s) == if rs[i].kind == Value then Found(rs[i].value) else Deleted
  {
    if rs == [] {
    } else if rs[0].key == k && rs[0].seqno <= s {
      assert Newest(rs, k, s, 0);
    } else {
      LookupDecidedByNewest(rs[1..], k, s);
      forall i: nat | Newest(rs, k, s, i) ensures i > 0 && Newest(rs[1..], k, s, i - 1) {
        assert rs[1..][i - 1] == rs[i];
      }
      forall i: nat | Newest(rs[1..], k, s, i) ensures Newest(rs, k, s, i + 1) {
        forall j | 0 <= j < |rs| && rs[j].key == k && rs[j].seqno <= s ensures rs[j].seqno <= rs[i + 1].seqno {
          assert rs[1..][j - 1] == rs[j];
        }
      }
    }
  }

  lemma {:induction false} NotMentionedIsAbsent(rs: seq<Record>, k: Key, s: SeqNo)
    requires !Mentions(rs, k)
    ensures Lookup(rs, k, s) == Absent
  {
    if rs != [] {
      assert rs[0].key != k;
      assert forall i :: 0 <= i < |rs| - 1 ==> rs[1..][i] == rs[i + 1];
      NotMentionedIsAbsent(rs[1..], k, s);
    }
  }
}
