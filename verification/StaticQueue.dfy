/** The byte-level ring queue of mpmp_queue.c: fixed-size items copied in and out of one block of memory. */
module StaticQueue {
  import opened Words

  /** Item `i` occupies `size` bytes from here on. */
  function Start(i: nat, size: nat): nat {
    i * size
  }

  /** Items do not overlap. */
  lemma ItemsApart(i: nat, j: nat, size: nat)
    requires i < j
    ensures Start(i, size) + size <= Start(j, size)
  {
    assert j * size == i * size + (j - i) * size;
    assert (j - i) * size >= size by {
      assert (j - i) * size == size + (j - i - 1) * size;
    }
  }

  /** A position modulo the queue length, one turn around at most. */
  function Wrap(k: nat, length: nat): nat {
    if k < length then k else k - length
  }

  /** Of the items of a ring, the `count` ones from position `tail` on. */
  function Window(items: seq<seq<byte>>, tail: nat, count: nat): (w: seq<seq<byte>>)
    requires tail < |items| && count <= |items|
    ensures |w| == count && forall k :: 0 <= k < count ==> w[k] == items[Wrap(tail + k, |items|)]
  {
    seq(count, k requires 0 <= k < count => items[Wrap(tail + k, |items|)])
  }

  lemma WindowPush(items: seq<seq<byte>>, tail: nat, count: nat, item: seq<byte>)
    requires tail < |items| && count < |items|
    ensures Window(items[Wrap(tail + count, |items|) := item], tail, count + 1) == Window(items, tail, count) + [item]
  {
    var h := Wrap(tail + count, |items|);
    var left, right := Window(items[h := item], tail, count + 1), Window(items, tail, count) + [item];
    forall k | 0 <= k < count + 1
      ensures left[k] == right[k]
    {
      assert k < count ==> Wrap(tail + k, |items|) != h;
    }
  }

  lemma WindowPop(items: seq<seq<byte>>, tail: nat, count: nat)
    requires tail < |items| && 0 < count <= |items|
    ensures Window(items, tail, count) == [items[tail]] + Window(items, Wrap(tail + 1, |items|), count - 1)
  {
    var rest := Window(items, Wrap(tail + 1, |items|), count - 1);
    var left, right := Window(items, tail, count), [items[tail]] + rest;
    forall k | 0 <= k < count
      ensures left[k] == right[k]
    {
      if k > 0 {
        assert Wrap(tail + k, |items|) == Wrap(Wrap(tail + 1, |items|) + (k - 1), |items|);
        assert right[k] == rest[k - 1];
      }
    }
  }

  class Queue {
    const buffer: array<byte>
    const length: nat
    const itemSize: nat
    var head: nat
    var tail: nat
    var count: nat

    ghost predicate Valid()
      reads this
    {
      && length > 0 && itemSize > 0 && Start(length, itemSize) <= buffer.Length
      && tail < length && count <= length
      && head == Wrap(tail + count, length)
    }

    lemma ItemInside(i: nat)
      requires Valid() && i < length
      ensures Start(i, itemSize) + itemSize <= buffer.Length
    {
      hide Start;
      ItemsApart(i, length, itemSize);
    }

    ghost function Item(i: nat): (item: seq<byte>)
      requires Valid() && i < length
      reads this, buffer
      ensures |item| == itemSize
    {
      ItemInside(i);
      buffer[Start(i, itemSize)..Start(i, itemSize) + itemSize]
    }

    /** All slots, whether in use or not. */
    ghost function Items(): (items: seq<seq<byte>>)
      requires Valid()
      reads this, buffer
      ensures |items| == length && forall i :: 0 <= i < length ==> items[i] == Item(i)
    {
      seq(length, i requires 0 <= i < length && Valid() reads this, buffer => Item(i))
    }

    /** The items waiting, oldest first. */
    ghost function Contents(): (q: seq<seq<byte>>)
      requires Valid()
      reads this, buffer
      ensures |q| == count
    {
      Window(Items(), tail, count)
    }

    constructor (length: nat, itemSize: nat, buffer: array<byte>)
      requires length > 0 && itemSize > 0 && Start(length, itemSize) <= buffer.Length
      ensures Valid() && Contents() == []
      ensures this.length == length && this.itemSize == itemSize && this.buffer == buffer
    {
      this.buffer, this.length, this.itemSize := buffer, length, itemSize;
      head, tail, count := 0, 0, 0;
    }

    /** `memcpy` of one item into the slot at `head`: no other item changes. */
    method CopyIn(item: seq<byte>)
      requires Valid() && |item| == itemSize
      modifies buffer
      ensures Items() == old(Items())[head := item]
      ensures buffer[Start(length, itemSize)..] == old(buffer[Start(length, itemSize)..])
    {
      hide Start;
      ItemInside(head);
      ItemsApart(head, length, itemSize);
      var start := Start(head, itemSize);
      forall k | 0 <= k < itemSize {
        buffer[start + k] := item[k];
      }
      assert Item(head) == item;
      forall i | 0 <= i < length && i != head
        ensures Item(i) == old(Item(i))
      {
        ItemInside(i);
        if i < head { ItemsApart(i, head, itemSize); } else { ItemsApart(head, i, itemSize); }
      }
    }

    /** `xQueueSend`: refused exactly when the queue is full. Bytes behind the items are never written. */
    method Send(item: seq<byte>) returns (ok: bool)
      requires Valid() && |item| == itemSize
      modifies this`head, this`count, buffer
      ensures Valid() && ok == (old(count) < length)
      ensures Contents() == if ok then old(Contents()) + [item] else old(Contents())
      ensures buffer[Start(length, itemSize)..] == old(buffer[Start(length, itemSize)..])
    {
      hide Window;
      ok := count < length;
      if ok {
        WindowPush(Items(), tail, count, item);
        CopyIn(item);
        ghost var items := Items();
        head := if head + 1 == length then 0 else head + 1;
        count := count + 1;
        assert Items() == items;
      }
    }

    /** `xQueueReceive`: the oldest item, or nothing exactly when the queue is empty. */
    method Receive() returns (item: Option<seq<byte>>)
      requires Valid()
      modifies this`tail, this`count
      ensures Valid() && item.None? == (old(Contents()) == [])
      ensures item.Some? ==> old(Contents()) == [item.value] + Contents()
      ensures item.None? ==> Contents() == []
    {
      hide Window, Start;
      item := None;
      if count > 0 {
        ghost var items := Items();
        WindowPop(items, tail, count);
        ItemInside(tail);
        item := Some(buffer[Start(tail, itemSize)..Start(tail, itemSize) + itemSize]);
        tail := if tail + 1 == length then 0 else tail + 1;
        count := count - 1;
        assert Items() == items;
      }
    }

    /** `uxQueueMessagesWaiting`, and `uxQueueSpacesAvailable` beside it. */
    method Waiting() returns (waiting: nat, spaces: nat)
      requires Valid()
      ensures waiting == |Contents()| && waiting + spaces == length
    {
      waiting := count;
      spaces := length - count;
    }

    /** `xQueueReset`. */
    method Reset()
      requires Valid()
      modifies this`head, this`tail, this`count
      ensures Valid() && Contents() == []
    {
      head, tail, count := 0, 0, 0;
    }
  }

  /** `xQueueCreateStatic`: no queue without items, item bytes or storage. */
  method Create(length: nat, itemSize: nat, buffer: array?<byte>) returns (q: Queue?)
    requires buffer != null ==> Start(length, itemSize) <= buffer.Length
    ensures q == null <==> length == 0 || itemSize == 0 || buffer == null
    ensures q != null ==> fresh(q) && q.Valid() && q.Contents() == [] && q.length == length
  {
    if length == 0 || itemSize == 0 || buffer == null {
      return null;
    }
    q := new Queue(length, itemSize, buffer);
  }

  // ----- runs of atomic sends and receives -----

  datatype Op = SendOp(item: seq<byte>) | ReceiveOp

  /** What a run accepted and handed out so far, and what waits in between. */
  datatype Trace = Trace(accepted: seq<seq<byte>>, received: seq<seq<byte>>, queued: seq<seq<byte>>)

  function StepOp(capacity: nat, t: Trace, op: Op): Trace {
    match op
    case SendOp(item) =>
      if |t.queued| < capacity then t.(accepted := t.accepted + [item], queued := t.queued + [item]) else t
    case ReceiveOp =>
      if t.queued == [] then t else t.(received := t.received + [t.queued[0]], queued := t.queued[1..])
  }

  function RunOps(capacity: nat, t: Trace, ops: seq<Op>): Trace
    decreases |ops|
  {
    if ops == [] then t else RunOps(capacity, StepOp(capacity, t, ops[0]), ops[1..])
  }

  /** First in, first out, over every interleaving: what came out, then what still waits, is what went in, in order. */
  lemma {:induction false} FirstInFirstOut(capacity: nat, t: Trace, ops: seq<Op>)
    requires t.received + t.queued == t.accepted && |t.queued| <= capacity
    ensures var u := RunOps(capacity, t, ops);
            u.received + u.queued == u.accepted && |u.queued| <= capacity
    decreases |ops|
  {
    if ops != [] {
      var u := StepOp(capacity, t, ops[0]);
      match ops[0] {
        case SendOp(item) =>
          assert t.received + (t.queued + [item]) == (t.received + t.queued) + [item];
        case ReceiveOp =>
          if t.queued != [] {
            assert t.received + t.queued == (t.received + [t.queued[0]]) + t.queued[1..];
          }
      }
      FirstInFirstOut(capacity, u, ops[1..]);
    }
  }

  /** The queue in memory goes through exactly such a run. */
  method Drive(q: Queue, ops: seq<Op>) returns (accepted: seq<seq<byte>>, received: seq<seq<byte>>)
    requires q.Valid() && q.Contents() == []
    requires forall op :: op in ops && op.SendOp? ==> |op.item| == q.itemSize
    modifies q, q.buffer
    ensures q.Valid() && Trace(accepted, received, q.Contents()) == RunOps(q.length, Trace([], [], []), ops)
    ensures received + q.Contents() == accepted
  {
    accepted, received := [], [];
    var i := 0;
    assert ops[0..] == ops;
    while i < |ops|
      invariant 0 <= i <= |ops| && q.Valid()
      invariant RunOps(q.length, Trace(accepted, received, q.Contents()), ops[i..])
             == RunOps(q.length, Trace([], [], []), ops)
    {
      assert ops[i..][1..] == ops[i + 1..];
      match ops[i] {
        case SendOp(item) =>
          var ok := q.Send(item);
          if ok {
            accepted := accepted + [item];
          }
        case ReceiveOp =>
          var item := q.Receive();
          if item.Some? {
            received := received + [item.value];
          }
      }
      i := i + 1;
    }
    FirstInFirstOut(q.length, Trace([], [], []), ops);
  }
}
