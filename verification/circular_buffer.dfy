/** CCircularBuffer: a fixed-size ring of BUFFER_SIZE slots with a put
    index (head), a get index (tail) and a count of the slots in use.

    The buffer is an immutable record; every operation returns the new
    record. `Items` reads the live slots from the tail in order and is the
    queue the buffer stands for. */
module CircularBuffer {
  import opened Results

  datatype Buffer<T> = Buffer(data: seq<T>, head: nat, tail: nat, count: nat)

  /** The representation invariant: both indices inside the array, at most
      BUFFER_SIZE items, and the put index `count` slots after the get
      index, wrapping at the end of the array. */
  predicate Valid<T>(b: Buffer<T>)
  {
    |b.data| > 0 && b.head < |b.data| && b.tail < |b.data| && b.count <= |b.data| &&
    b.head == Wrap(b.tail + b.count, |b.data|)
  }

  /** A position less than two laps round an array of `n` slots, brought
      back into the array. */
  function Wrap(x: nat, n: nat): (p: nat)
    requires x < 2 * n
    ensures p < n && (p == x || p == x - n)
  {
    if x < n then x else x - n
  }

  function Size<T>(b: Buffer<T>): nat
  {
    |b.data|
  }

  function Count<T>(b: Buffer<T>): nat
  {
    b.count
  }

  predicate IsEmpty<T>(b: Buffer<T>)
  {
    b.count == 0
  }

  predicate IsFull<T>(b: Buffer<T>)
  {
    b.count == |b.data|
  }

  /** The queued items, oldest first. */
  function Items<T>(b: Buffer<T>): (items: seq<T>)
    requires Valid(b)
    ensures |items| == Count(b)
  {
    seq(b.count, i requires 0 <= i < b.count => b.data[Wrap(b.tail + i, |b.data|)])
  }

  /** Increment: advance an index by one, wrapping to 0 at BUFFER_SIZE. */
  function Increment(p: nat, size: nat): (q: nat)
    requires p < size
    ensures q < size && q == Wrap(p + 1, size)
  {
    if p + 1 == size then 0 else p + 1
  }

  /** Clear: empty the buffer; the stored data is left in place. */
  function Clear<T>(b: Buffer<T>): (r: Buffer<T>)
    ensures r.data == b.data && IsEmpty(r)
    ensures |b.data| > 0 ==> Valid(r) && Items(r) == []
  {
    Buffer(b.data, 0, 0, 0)
  }

  /** The constructor: `size` slots (initially holding `fill`), cleared. */
  function NewBuffer<T>(size: nat, fill: T): (b: Buffer<T>)
    requires size > 0
    ensures Valid(b) && Size(b) == size && Items(b) == []
  {
    Clear(Buffer(seq(size, _ => fill), 0, 0, 0))
  }

  /** Put: refused on a full buffer; otherwise the item joins the queue at
      the back. */
  function Put<T>(b: Buffer<T>, v: T): (r: (Buffer<T>, bool))
    requires Valid(b)
    ensures Valid(r.0) && Size(r.0) == Size(b)
    ensures r.1 <==> !IsFull(b)
    ensures !r.1 ==> r.0 == b
    ensures r.1 ==> Count(r.0) == Count(b) + 1 && Items(r.0) == Items(b) + [v]
  {
    if IsFull(b) then (b, false)
    else
      var r := Buffer(b.data[b.head := v], Increment(b.head, |b.data|), b.tail, b.count + 1);
      PutItems(b, v, r);
      (r, true)
  }

  lemma {:induction false} PutItems<T>(b: Buffer<T>, v: T, r: Buffer<T>)
    requires Valid(b) && !IsFull(b)
    requires r == Buffer(b.data[b.head := v], Increment(b.head, |b.data|), b.tail, b.count + 1)
    ensures Valid(r) && Items(r) == Items(b) + [v]
  {
    var n := |b.data|;
    assert Valid(r);
    forall i | 0 <= i < b.count ensures Items(r)[i] == Items(b)[i] {
      assert Wrap(b.tail + i, n) != b.head;
    }
    assert Items(r)[b.count] == v;
  }

  /** Get: nothing on an empty buffer; otherwise the oldest item, which
      leaves the queue. */
  function Get<T>(b: Buffer<T>): (r: (Buffer<T>, Option<T>))
    requires Valid(b)
    ensures Valid(r.0) && Size(r.0) == Size(b)
    ensures r.1.None? <==> IsEmpty(b)
    ensures r.1.None? ==> r.0 == b
    ensures r.1.Some? ==> r.1.value == Items(b)[0] && Count(r.0) == Count(b) - 1 && Items(r.0) == Items(b)[1..]
  {
    if IsEmpty(b) then (b, None)
    else
      var r := Buffer(b.data, b.head, Increment(b.tail, |b.data|), b.count - 1);
      GetItems(b, r);
      (r, Some(b.data[b.tail]))
  }

  lemma {:induction false} GetItems<T>(b: Buffer<T>, r: Buffer<T>)
    requires Valid(b) && !IsEmpty(b)
    requires r == Buffer(b.data, b.head, Increment(b.tail, |b.data|), b.count - 1)
    ensures Valid(r) && Items(b)[0] == b.data[b.tail] && Items(r) == Items(b)[1..]
  {
    var n := |b.data|;
    assert Valid(r);
    assert Items(b)[0] == b.data[Wrap(b.tail, n)];
    forall i | 0 <= i < r.count ensures Items(r)[i] == Items(b)[1..][i] {
      assert Wrap(r.tail + i, n) == Wrap(b.tail + 1 + i, n);
    }
  }

  /** Next: the item Get would return, without removing it. */
  function Next<T>(b: Buffer<T>): (r: Option<T>)
    requires Valid(b)
    ensures r.None? <==> IsEmpty(b)
    ensures r.Some? ==> r.value == Items(b)[0]
  {
    if IsEmpty(b) then None
    else
      assert Items(b)[0] == b.data[Wrap(b.tail, |b.data|)];
      Some(b.data[b.tail])
  }

  lemma {:induction false} NextIsGet<T>(b: Buffer<T>)
    requires Valid(b)
    ensures Next(b) == Get(b).1
  {
  }

  /** Put each item in turn, stopping at the first refusal. */
  function PutAll<T>(b: Buffer<T>, vs: seq<T>): (r: Buffer<T>)
    requires Valid(b)
    ensures Valid(r) && Size(r) == Size(b)
    decreases |vs|
  {
    if vs == [] then b
    else
      var p := Put(b, vs[0]);
      if p.1 then PutAll(p.0, vs[1..]) else b
  }

  /** Get `n` items in turn (as many as there are). */
  function GetAll<T>(b: Buffer<T>, n: nat): (r: (Buffer<T>, seq<T>))
    requires Valid(b)
    ensures Valid(r.0) && Size(r.0) == Size(b)
    decreases n
  {
    if n == 0 then (b, [])
    else
      var g := Get(b);
      match g.1
      case None => (b, [])
      case Some(v) =>
        var rest := GetAll(g.0, n - 1);
        (rest.0, [v] + rest.1)
  }

  /** Items put while there is room all join the queue, in order. */
  lemma {:induction false} PutAllItems<T>(b: Buffer<T>, vs: seq<T>)
    requires Valid(b) && Count(b) + |vs| <= Size(b)
    ensures Items(PutAll(b, vs)) == Items(b) + vs
    decreases |vs|
  {
    if vs != [] {
      var p := Put(b, vs[0]);
      PutAllItems(p.0, vs[1..]);
      AppendFirst(Items(b), vs);
    }
  }

  lemma {:induction false} AppendFirst<T>(a: seq<T>, vs: seq<T>)
    requires vs != []
    ensures a + vs == (a + [vs[0]]) + vs[1..]
  {
    assert vs == [vs[0]] + vs[1..];
  }

  /** Getting `n` items returns the `n` oldest, and the rest stay queued. */
  lemma {:induction false} GetAllItems<T>(b: Buffer<T>, n: nat)
    requires Valid(b) && n <= Count(b)
    ensures GetAll(b, n).1 == Items(b)[..n]
    ensures Items(GetAll(b, n).0) == Items(b)[n..]
    decreases n
  {
    if n > 0 {
      var items := Items(b);
      var g := Get(b);
      var rest := GetAll(g.0, n - 1);
      assert GetAll(b, n) == (rest.0, [items[0]] + rest.1);
      GetAllItems(g.0, n - 1);
      assert Items(g.0) == items[1..];
      TakeFirst(items, n);
    }
  }

  lemma {:induction false} TakeFirst<T>(s: seq<T>, n: nat)
    requires 0 < n <= |s|
    ensures s[..n] == [s[0]] + s[1..][..n - 1] && s[n..] == s[1..][n - 1..]
  {
  }

  /** FIFO: whatever is put into an empty buffer, up to its size, comes
      back out in the same order and leaves it empty. */
  lemma {:induction false} FirstInFirstOut<T>(b: Buffer<T>, vs: seq<T>)
    requires Valid(b) && IsEmpty(b) && |vs| <= Size(b)
    ensures var out := GetAll(PutAll(b, vs), |vs|);
            out.1 == vs && IsEmpty(out.0)
  {
    PutAllItems(b, vs);
    GetAllItems(PutAll(b, vs), |vs|);
  }
}
