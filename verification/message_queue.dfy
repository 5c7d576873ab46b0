/** CMessageQueue (MessageQueue.cpp and MessageQueue.hpp): the queue of
    log messages waiting for the logging thread, kept as a singly linked
    list with head and tail pointers, and the free list of entries ready
    for reuse, linked through the same `pNext` field. Entries are never
    deleted, so a pointer is modelled as the number of the allocation
    that made the entry. The locks and the logging thread are not
    modelled; every operation is one step. */
module MessageQueue {
  import opened Results
  import opened SafeStrings
  import opened LogFile

  /** An entry, named by the allocation that made it. */
  type Id = nat

  /** QENTRY: the level, the destinations, the time stamp, the text buffer
      and the link to the next entry. */
  datatype Entry = Entry(level: Severity, toConsole: bool, toLog: bool, stamp: nat, text: seq<char>, next: Option<Id>)

  /** The queue's state: head and tail of the message queue, the top of
      the free list, every entry allocated so far, how many there are
      (m_nQueueEntries), and the size of an entry's text buffer (MAXMSG,
      whose value is not part of this model). */
  datatype Queue = Queue(head: Option<Id>, tail: Option<Id>, freeList: Option<Id>,
                         entries: map<Id, Entry>, count: nat, maxMsg: nat)

  /** A pointer that is null or names an allocated entry. */
  predicate Points(q: Queue, p: Option<Id>)
  {
    p.Some? ==> p.value in q.entries
  }

  /** Entries 0 to count - 1 are allocated and every pointer names one of
      them. */
  ghost predicate Allocated(q: Queue)
  {
    q.maxMsg > 0 &&
    (forall id: Id :: id in q.entries <==> id < q.count) &&
    Points(q, q.head) && Points(q, q.tail) && Points(q, q.freeList) &&
    (forall id | id in q.entries :: Points(q, q.entries[id].next))
  }

  /** The constructor: both lists empty and nothing allocated. */
  function Init(maxMsg: nat): (q: Queue)
    requires maxMsg > 0
    ensures Allocated(q) && q.head.None? && q.tail.None? && q.freeList.None? && q.count == 0
  {
    Queue(None, None, None, map[], 0, maxMsg)
  }

  /** A zeroed entry (memset). The level's zero value is carried as the
      code 0, since the numbering of the severities is not known here. */
  function Blank(maxMsg: nat): (e: Entry)
    ensures |e.text| == maxMsg && e.next.None? && !e.toConsole && !e.toLog
    ensures forall k | 0 <= k < maxMsg :: e.text[k] == NUL
  {
    Entry(Other(0), false, false, 0, seq(maxMsg, k => NUL), None)
  }

  /** NewEntry(): the entry on top of the free list when there is one,
      taken off it; otherwise a newly allocated entry, which alone
      increments the count. Either way the entry is zeroed. */
  function NewEntry(q: Queue): (r: (Queue, Id))
    requires Allocated(q)
    ensures Allocated(r.0) && r.1 in r.0.entries && r.0.entries[r.1] == Blank(q.maxMsg)
    ensures r.0.head == q.head && r.0.tail == q.tail && r.0.maxMsg == q.maxMsg
    ensures q.freeList.Some? ==> r.1 == q.freeList.value && r.0.count == q.count && r.0.freeList == q.entries[r.1].next
    ensures q.freeList.None? ==> r.1 !in q.entries && r.0.count == q.count + 1 && r.0.freeList.None?
    ensures forall id | id in q.entries && id != r.1 :: id in r.0.entries && r.0.entries[id] == q.entries[id]
  {
    if q.freeList.Some? then
      var p := q.freeList.value;
      (q.(freeList := q.entries[p].next, entries := q.entries[p := Blank(q.maxMsg)]), p)
    else
      var p := q.count;
      (q.(entries := q.entries[p := Blank(q.maxMsg)], count := q.count + 1), p)
  }

  /** NewEntry(nLevel, pszText, fToConsole, fToLog, ptm): a new entry
      holding the level, the destinations, the stamp (the one given, or
      the current time) and as much of the text as fits in front of the
      buffer's NUL. */
  function NewMessage(q: Queue, level: Severity, text: seq<char>, toConsole: bool, toLog: bool, stamp: nat): (r: (Queue, Id))
    requires Allocated(q)
    ensures var n := Strlen(text);
            var kept := if n < q.maxMsg then n else q.maxMsg - 1;
            r.1 in r.0.entries &&
            r.0.entries[r.1] == Entry(level, toConsole, toLog, stamp, r.0.entries[r.1].text, None) &&
            |r.0.entries[r.1].text| == q.maxMsg && CString(r.0.entries[r.1].text) == CString(text)[..kept]
    ensures r.0 == NewEntry(q).0.(entries := r.0.entries) && r.1 == NewEntry(q).1
    ensures r.0.entries.Keys == NewEntry(q).0.entries.Keys
    ensures forall id | id in r.0.entries && id != r.1 :: r.0.entries[id] == NewEntry(q).0.entries[id]
  {
    var (q1, p) := NewEntry(q);
    var buffer := Strcpy(q1.entries[p].text, text).0;
    (q1.(entries := q1.entries[p := Entry(level, toConsole, toLog, stamp, buffer, None)]), p)
  }

  /** AddEntry(pEntry): the entry goes behind the tail, and becomes the
      head as well when the queue was empty. */
  function AddEntry(q: Queue, p: Id): (r: Queue)
    requires Allocated(q) && p in q.entries
    ensures Allocated(r) && r.tail == Some(p)
    ensures r.head == if q.head.None? then Some(p) else q.head
    ensures r.freeList == q.freeList && r.count == q.count && r.maxMsg == q.maxMsg && r.entries.Keys == q.entries.Keys
  {
    var entries := if q.tail.Some? then q.entries[q.tail.value := q.entries[q.tail.value].(next := Some(p))] else q.entries;
    q.(entries := entries, tail := Some(p), head := if q.head.None? then Some(p) else q.head)
  }

  /** RemoveEntry(): null on an empty queue; otherwise the head, whose
      successor becomes the head, the tail being cleared with the last
      entry. The entry taken off no longer points anywhere. */
  function RemoveEntry(q: Queue): (r: (Queue, Option<Id>))
    requires Allocated(q)
    ensures Allocated(r.0) && r.1 == q.head
    ensures q.head.None? ==> r.0 == q
    ensures r.0.freeList == q.freeList && r.0.count == q.count && r.0.maxMsg == q.maxMsg && r.0.entries.Keys == q.entries.Keys
    ensures q.head.Some? ==> r.0.head == q.entries[q.head.value].next && r.0.entries[q.head.value].next.None?
    ensures r.0.head.None? && q.head.Some? ==> r.0.tail.None?
  {
    if q.head.None? then (q, None)
    else
      var p := q.head.value;
      var h := q.entries[p].next;
      (q.(head := h, tail := if h.None? then None else q.tail, entries := q.entries[p := q.entries[p].(next := None)]), Some(p))
  }

  /** FreeEntry(pEntry): the entry is pushed on the free list. */
  function FreeEntry(q: Queue, p: Id): (r: Queue)
    requires Allocated(q) && p in q.entries
    ensures Allocated(r) && r.freeList == Some(p) && r.entries[p].next == q.freeList
    ensures r.head == q.head && r.tail == q.tail && r.count == q.count && r.maxMsg == q.maxMsg && r.entries.Keys == q.entries.Keys
  {
    q.(entries := q.entries[p := q.entries[p].(next := q.freeList)], freeList := Some(p))
  }

  /** The last entry of a list, null for none. */
  function Last(ids: seq<Id>): (r: Option<Id>)
    ensures r.None? <==> ids == []
  {
    if ids == [] then None else Some(ids[|ids| - 1])
  }

  /** The list starting at `first` is `ids`: each entry links to the next
      and the last links nowhere. */
  predicate Linked(q: Queue, first: Option<Id>, ids: seq<Id>)
  {
    first == (if ids == [] then None else Some(ids[0])) &&
    forall k | 0 <= k < |ids| :: ids[k] in q.entries && q.entries[ids[k]].next == Next(ids, k)
  }

  /** The entry after position k, null after the last. */
  function Next(ids: seq<Id>, k: nat): (r: Option<Id>)
    ensures k + 1 < |ids| ==> r == Some(ids[k + 1])
    ensures k + 1 >= |ids| ==> r.None?
  {
    if k + 1 < |ids| then Some(ids[k + 1]) else None
  }

  /** No entry occurs twice. */
  predicate Distinct(ids: seq<Id>)
  {
    forall i, j | 0 <= i < j < |ids| :: ids[i] != ids[j]
  }

  /** No entry is on both lists. */
  predicate Apart(a: seq<Id>, b: seq<Id>)
  {
    forall i, j | 0 <= i < |a| && 0 <= j < |b| :: a[i] != b[j]
  }

  /** The queue holds `order` from head to tail and the free list holds
      `free` from the top, no entry being on both or on either twice. */
  ghost predicate Shape(q: Queue, order: seq<Id>, free: seq<Id>)
  {
    Allocated(q) && Linked(q, q.head, order) && q.tail == Last(order) && Linked(q, q.freeList, free) &&
    Distinct(order) && Distinct(free) && Apart(order, free)
  }

  /** The empty queue has both lists empty. */
  lemma {:induction false} InitShape(maxMsg: nat)
    requires maxMsg > 0
    ensures Shape(Init(maxMsg), [], [])
  {
  }

  /** A list is unaffected by changes to entries not on it. */
  lemma {:induction false} LinkedKept(q: Queue, r: Queue, first: Option<Id>, ids: seq<Id>)
    requires Linked(q, first, ids)
    requires forall k | 0 <= k < |ids| :: ids[k] in r.entries && r.entries[ids[k]].next == q.entries[ids[k]].next
    ensures Linked(r, first, ids)
  {
  }

  /** An entry not yet on a list can join it at either end. */
  lemma {:induction false} AppendDistinct(ids: seq<Id>, p: Id, other: seq<Id>)
    requires Distinct(ids) && Apart(ids, other) && p !in ids && p !in other
    ensures Distinct(ids + [p]) && Apart(ids + [p], other)
  {
    var o := ids + [p];
    forall i, j | 0 <= i < j < |o|
      ensures o[i] != o[j]
    {
      if j == |ids| {
        assert o[i] == ids[i];
      } else {
        assert o[i] == ids[i] && o[j] == ids[j];
      }
    }
    forall i, j | 0 <= i < |o| && 0 <= j < |other|
      ensures o[i] != other[j]
    {
      if i < |ids| {
        assert o[i] == ids[i];
      }
    }
  }

  lemma {:induction false} PushDistinct(ids: seq<Id>, p: Id, other: seq<Id>)
    requires Distinct(ids) && Apart(other, ids) && p !in ids && p !in other
    ensures Distinct([p] + ids) && Apart(other, [p] + ids)
  {
    var f := [p] + ids;
    forall i, j | 0 <= i < j < |f|
      ensures f[i] != f[j]
    {
      if i == 0 {
        assert f[j] == ids[j - 1];
      } else {
        assert f[i] == ids[i - 1] && f[j] == ids[j - 1];
      }
    }
    forall i, j | 0 <= i < |other| && 0 <= j < |f|
      ensures other[i] != f[j]
    {
      if j > 0 {
        assert f[j] == ids[j - 1];
      }
    }
  }

  /** Dropping the first entry of a list keeps it apart from the other. */
  lemma {:induction false} DropDistinct(ids: seq<Id>, other: seq<Id>)
    requires ids != [] && Distinct(ids) && Apart(ids, other) && Apart(other, ids)
    ensures Distinct(ids[1..]) && Apart(ids[1..], other) && Apart(other, ids[1..])
    ensures ids[0] !in ids[1..] && ids[0] !in other
  {
    var t := ids[1..];
    assert forall k | 0 <= k < |t| :: t[k] == ids[k + 1];
  }

  /** The two lists, seen from the other side. */
  lemma {:induction false} ApartSwap(a: seq<Id>, b: seq<Id>)
    requires Apart(a, b)
    ensures Apart(b, a)
  {
  }

  /** Adding an entry that is on neither list and links nowhere puts it
      at the end of the queue; the head and the tail are then both set. */
  lemma {:induction false} AddKeepsShape(q: Queue, order: seq<Id>, free: seq<Id>, p: Id)
    requires Shape(q, order, free) && p in q.entries && q.entries[p].next.None?
    requires p !in order && p !in free
    ensures Shape(AddEntry(q, p), order + [p], free)
    ensures AddEntry(q, p).head.Some? && AddEntry(q, p).tail.Some?
  {
    var r := AddEntry(q, p);
    var o := order + [p];
    AppendDistinct(order, p, free);
    if order != [] {
      var t := order[|order| - 1];
      forall k | 0 <= k < |o|
        ensures o[k] in r.entries && r.entries[o[k]].next == Next(o, k)
      {
        if k < |order| - 1 {
          assert o[k] == order[k] != t;
          assert q.entries[order[k]].next == Next(order, k);
        }
      }
      forall k | 0 <= k < |free|
        ensures free[k] in r.entries && r.entries[free[k]].next == q.entries[free[k]].next
      {
        assert free[k] != order[|order| - 1];
      }
      assert Linked(r, r.head, o);
    } else {
      assert o == [p];
    }
    LinkedKept(q, r, r.freeList, free);
  }

  /** Removing from a non-empty queue yields its first entry, leaves the
      rest in order, and clears the tail with the head. */
  lemma {:induction false} RemoveKeepsShape(q: Queue, order: seq<Id>, free: seq<Id>)
    requires Shape(q, order, free) && order != []
    ensures RemoveEntry(q).1 == Some(order[0])
    ensures Shape(RemoveEntry(q).0, order[1..], free)
    ensures RemoveEntry(q).0.head.None? <==> RemoveEntry(q).0.tail.None?
  {
    var r := RemoveEntry(q).0;
    var h := order[0];
    var t := order[1..];
    ApartSwap(order, free);
    DropDistinct(order, free);
    forall k | 0 <= k < |t|
      ensures t[k] in r.entries && r.entries[t[k]].next == Next(t, k)
    {
      assert t[k] == order[k + 1] != h;
      assert q.entries[order[k + 1]].next == Next(order, k + 1);
    }
    forall k | 0 <= k < |free|
      ensures free[k] in r.entries && r.entries[free[k]].next == q.entries[free[k]].next
    {
      assert free[k] != order[0];
    }
    LinkedKept(q, r, r.freeList, free);
    if |order| == 1 {
      assert q.entries[h].next == Next(order, 0);
    } else {
      assert q.entries[h].next == Next(order, 0) == Some(t[0]);
      assert Last(t) == Last(order);
    }
  }

  /** Removing from an empty queue returns null and changes nothing. */
  lemma {:induction false} RemoveEmpty(q: Queue, free: seq<Id>)
    requires Shape(q, [], free)
    ensures RemoveEntry(q) == (q, None)
  {
  }

  /** Freeing an entry that is on neither list puts it on top of the free
      list. */
  lemma {:induction false} FreeKeepsShape(q: Queue, order: seq<Id>, free: seq<Id>, p: Id)
    requires Shape(q, order, free) && p in q.entries && p !in order && p !in free
    ensures Shape(FreeEntry(q, p), order, [p] + free)
  {
    var r := FreeEntry(q, p);
    var f := [p] + free;
    PushDistinct(free, p, order);
    forall k | 0 <= k < |order|
      ensures order[k] in r.entries && r.entries[order[k]].next == q.entries[order[k]].next
    {
      assert order[k] != p;
    }
    LinkedKept(q, r, r.head, order);
    forall k | 0 <= k < |f|
      ensures f[k] in r.entries && r.entries[f[k]].next == Next(f, k)
    {
      if k > 0 {
        assert f[k] == free[k - 1] != p;
        assert q.entries[free[k - 1]].next == Next(free, k - 1);
      }
    }
  }

  /** A new entry comes off the top of the free list, or is allocated when
      the list is empty; it is on neither list and links nowhere. */
  lemma {:induction false} NewKeepsShape(q: Queue, order: seq<Id>, free: seq<Id>)
    returns (rest: seq<Id>)
    requires Shape(q, order, free)
    ensures var (r, p) := NewEntry(q);
            Shape(r, order, rest) && p !in order && p !in rest && r.entries[p].next.None? &&
            (free != [] ==> p == free[0] && rest == free[1..] && r.count == q.count) &&
            (free == [] ==> rest == [] && r.count == q.count + 1)
  {
    var (r, p) := NewEntry(q);
    rest := if free == [] then [] else free[1..];
    if free != [] {
      ApartSwap(order, free);
      DropDistinct(free, order);
    }
    forall k | 0 <= k < |order|
      ensures order[k] in r.entries && r.entries[order[k]].next == q.entries[order[k]].next && order[k] != p
    {
      if free != [] {
        assert order[k] != free[0];
      }
    }
    LinkedKept(q, r, r.head, order);
    forall k | 0 <= k < |rest|
      ensures rest[k] in r.entries && r.entries[rest[k]].next == Next(rest, k) && rest[k] != p
    {
      assert free[k + 1] != free[0];
      assert q.entries[free[k + 1]].next == Next(free, k + 1);
    }
    if free != [] {
      assert r.freeList == Next(free, 0);
    }
  }

  /** A new message is a new entry with its fields filled in: the lists
      are those NewEntry leaves. */
  lemma {:induction false} MessageKeepsShape(q: Queue, order: seq<Id>, free: seq<Id>, level: Severity, text: seq<char>,
                                              toConsole: bool, toLog: bool, stamp: nat)
    returns (rest: seq<Id>)
    requires Shape(q, order, free)
    ensures var (r, p) := NewMessage(q, level, text, toConsole, toLog, stamp);
            Shape(r, order, rest) && p !in order && p !in rest && r.entries[p].next.None? &&
            (free != [] ==> p == free[0] && r.count == q.count) &&
            (free == [] ==> r.count == q.count + 1)
  {
    rest := NewKeepsShape(q, order, free);
    var (n, p) := NewEntry(q);
    var (r, _) := NewMessage(q, level, text, toConsole, toLog, stamp);
    forall k | 0 <= k < |order|
      ensures order[k] in r.entries && r.entries[order[k]].next == n.entries[order[k]].next
    {
    }
    forall k | 0 <= k < |rest|
      ensures rest[k] in r.entries && r.entries[rest[k]].next == n.entries[rest[k]].next
    {
    }
    LinkedKept(n, r, r.head, order);
    LinkedKept(n, r, r.freeList, rest);
  }

  /** The entries `n` calls of RemoveEntry return, in order. */
  function Drain(q: Queue, n: nat): (r: seq<Id>)
    requires Allocated(q)
    ensures |r| <= n
    decreases n
  {
    if n == 0 then []
    else
      var (q1, p) := RemoveEntry(q);
      if p.None? then [] else [p.value] + Drain(q1, n - 1)
  }

  /** Draining the queue returns its entries from head to tail. */
  lemma {:induction false} DrainAll(q: Queue, order: seq<Id>, free: seq<Id>)
    requires Shape(q, order, free)
    ensures Drain(q, |order|) == order
    decreases |order|
  {
    if order != [] {
      RemoveKeepsShape(q, order, free);
      DrainAll(RemoveEntry(q).0, order[1..], free);
    }
  }

  /** First in, first out: an entry added to the queue comes out after
      every entry already on it. */
  lemma {:induction false} FirstInFirstOut(q: Queue, order: seq<Id>, free: seq<Id>, p: Id)
    requires Shape(q, order, free) && p in q.entries && q.entries[p].next.None?
    requires p !in order && p !in free
    ensures Drain(AddEntry(q, p), |order| + 1) == order + [p]
  {
    AddKeepsShape(q, order, free, p);
    DrainAll(AddEntry(q, p), order + [p], free);
  }
}
