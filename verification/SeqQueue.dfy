/** lib_queue/seq/seq_queue.c: a ring buffer of fixed-size items in one block of
    bytes, one slot of which always stays free. */
module SeqQueue {
  import opened Bytes
  import opened FifoSpec

  datatype QueueRet = QUEUE_SUCCESS | QUEUE_FULL | QUEUE_EMPTY

  // --------------------------------------------------------- slots in the bytes

  /** Where slot i of size d begins: i * d. */
  ghost function Offset(i: nat, d: nat): nat {
    if i == 0 then 0 else Offset(i - 1, d) + d
  }

  lemma {:induction false} OffsetIsProduct(i: nat, d: nat)
    ensures Offset(i, d) == i * d
  {
    if i > 0 {
      OffsetIsProduct(i - 1, d);
      assert i * d == (i - 1) * d + d;
    }
  }

  /** Slot i of size d. */
  ghost function Slot(bytes: seq<byte>, i: nat, d: nat): seq<byte> {
    if Offset(i, d) + d <= |bytes| then bytes[Offset(i, d)..Offset(i, d) + d] else []
  }

  /** Slots lie one after the other. */
  lemma {:induction false} SlotBounds(i: nat, j: nat, d: nat)
    requires i < j
    ensures Offset(i, d) + d <= Offset(j, d)
  {
    if i < j - 1 {
      SlotBounds(i, j - 1, d);
    }
  }

  lemma OtherSlotKept(bytes: seq<byte>, n: nat, d: nat, i: nat, j: nat, v: seq<byte>)
    requires |bytes| == Offset(n, d) && i < n && j < n && i != j && |v| == d && Offset(i, d) + d <= |bytes|
    ensures Slot(Written(bytes, Offset(i, d), v), j, d) == Slot(bytes, j, d)
  {
    SlotBounds(j, n, d);
    if j < i {
      SlotBounds(j, i, d);
    } else {
      SlotBounds(i, j, d);
    }
    WrittenElsewhere(bytes, Offset(i, d), v, Offset(j, d), Offset(j, d) + d);
  }

  lemma WriteOneSlot(bytes: seq<byte>, n: nat, d: nat, i: nat, v: seq<byte>)
    requires |bytes| == Offset(n, d) && i < n && |v| == d
    ensures Offset(i, d) + d <= |bytes|
    ensures var w := Written(bytes, Offset(i, d), v);
            |w| == |bytes| && Slot(w, i, d) == v &&
            forall j: nat :: j < n && j != i ==> Slot(w, j, d) == Slot(bytes, j, d)
  {
    SlotBounds(i, n, d);
    var o := Offset(i, d);
    var w := Written(bytes, o, v);
    assert w[o..o + d] == v;
    forall j: nat | j < n && j != i ensures Slot(w, j, d) == Slot(bytes, j, d) {
      OtherSlotKept(bytes, n, d, i, j, v);
    }
  }

  // ------------------------------------------------------------ positions in the ring

  /** The slot k steps after front, going round n slots. */
  function Around(front: nat, k: nat, n: nat): nat {
    if front + k < n then front + k else front + k - n
  }

  lemma AroundAgain(front: nat, k: nat, n: nat)
    requires front < n && k + 1 < n
    ensures Around(Around(front, 1, n), k, n) == Around(front, k + 1, n)
  {
  }

  lemma NextSlot(i: nat, n: nat)
    requires i < n
    ensures (i + 1) % n == Around(i, 1, n) < n
  {
    if i + 1 < n {
      assert (i + 1) % n == i + 1;
    }
  }

  /** How many items lie between front and rear. */
  function Used(front: nat, rear: nat, n: nat): int {
    if front <= rear then rear - front else rear + n - front
  }

  /** The items are the slots from front on, up to but not including rear. */
  ghost predicate Holds(bytes: seq<byte>, contents: seq<seq<byte>>, front: nat, rear: nat, n: nat, d: nat) {
    front < n && rear < n && |bytes| == Offset(n, d) && |contents| == Used(front, rear, n) &&
    forall k :: 0 <= k < |contents| ==> contents[k] == Slot(bytes, Around(front, k, n), d)
  }

  lemma AfterPut(bytes: seq<byte>, contents: seq<seq<byte>>, front: nat, rear: nat, n: nat, d: nat, v: seq<byte>)
    requires Holds(bytes, contents, front, rear, n, d) && |v| == d && Around(rear, 1, n) != front
    ensures Offset(rear, d) + d <= |bytes|
    ensures Holds(Written(bytes, Offset(rear, d), v), contents + [v], front, Around(rear, 1, n), n, d)
    ensures forall k :: 0 <= k < |contents| ==> Around(front, k, n) != rear
  {
    WriteOneSlot(bytes, n, d, rear, v);
    assert Around(front, |contents|, n) == rear;
  }

  lemma AfterGet(bytes: seq<byte>, contents: seq<seq<byte>>, front: nat, rear: nat, n: nat, d: nat)
    requires Holds(bytes, contents, front, rear, n, d) && front != rear
    ensures contents != [] && Offset(front, d) + d <= |bytes|
    ensures contents[0] == bytes[Offset(front, d)..Offset(front, d) + d]
    ensures Holds(bytes, contents[1..], Around(front, 1, n), rear, n, d)
  {
    SlotBounds(front, n, d);
    assert contents[0] == Slot(bytes, Around(front, 0, n), d);
    var rest := contents[1..];
    forall k | 0 <= k < |rest| ensures rest[k] == Slot(bytes, Around(Around(front, 1, n), k, n), d) {
      AroundAgain(front, k, n);
      assert rest[k] == contents[k + 1];
    }
  }

  class SeqQueue {
    var front: nat
    var rear: nat
    const dataSize: nat
    const nodeCnt: nat
    const queuePtr: array<byte>
    ghost var contents: seq<seq<byte>>

    ghost predicate Valid()
      reads this, queuePtr
    {
      Holds(queuePtr[..], contents, front, rear, nodeCnt, dataSize)
    }

    /** InitSeqQueue, when calloc succeeds. */
    constructor (queueLen: nat, dataSize: nat)
      ensures Valid() && contents == [] && nodeCnt == queueLen + 1 && this.dataSize == dataSize && fresh(queuePtr)
    {
      this.dataSize := dataSize;
      nodeCnt := queueLen + 1;
      OffsetIsProduct(queueLen + 1, dataSize);
      queuePtr := new byte[(queueLen + 1) * dataSize](_ => 0);
      front, rear := 0, 0;
      contents := [];
    }

    /** EnSeqQueue. The size argument is only compared for a log line; dataSize
        bytes are copied. Writes one slot, which held no item. */
    method EnSeqQueue(data: seq<byte>, size: nat) returns (ret: QueueRet)
      requires Valid() && |data| >= dataSize
      modifies this`rear, this`contents, queuePtr
      ensures Valid()
      ensures ret == QUEUE_FULL <==> |old(contents)| == nodeCnt - 1
      ensures ret == QUEUE_FULL ==> contents == old(contents) && rear == old(rear) && queuePtr[..] == old(queuePtr[..])
      ensures ret != QUEUE_FULL ==> ret == QUEUE_SUCCESS && contents == old(contents) + [data[..dataSize]]
      ensures old(rear) * dataSize + dataSize <= queuePtr.Length
      ensures ret != QUEUE_FULL ==> queuePtr[..] == Written(old(queuePtr[..]), old(rear) * dataSize, data[..dataSize])
      ensures forall k :: 0 <= k < |old(contents)| ==> Around(front, k, nodeCnt) != old(rear)
    {
      NextSlot(rear, nodeCnt);
      SlotBounds(rear, nodeCnt, dataSize);
      OffsetIsProduct(rear, dataSize);
      if (rear + 1) % nodeCnt == front {
        return QUEUE_FULL;
      }
      AfterPut(queuePtr[..], contents, front, rear, nodeCnt, dataSize, data[..dataSize]);
      Memcpy(queuePtr, rear * dataSize, data[..dataSize]);
      rear := (rear + 1) % nodeCnt;
      contents := contents + [data[..dataSize]];
      ret := QUEUE_SUCCESS;
    }

    /** DeSeqQueue: dataSize bytes of the first item to the caller's buffer. */
    method DeSeqQueue(data: array<byte>, size: nat) returns (ret: QueueRet)
      requires Valid() && data.Length >= dataSize && data != queuePtr
      modifies this`front, this`contents, data
      ensures Valid()
      ensures ret == QUEUE_EMPTY <==> old(contents) == []
      ensures ret == QUEUE_EMPTY ==> contents == [] && data[..] == old(data[..])
      ensures ret != QUEUE_EMPTY ==> ret == QUEUE_SUCCESS && contents == old(contents)[1..]
      ensures ret != QUEUE_EMPTY ==> data[..dataSize] == old(contents)[0] && data[dataSize..] == old(data[dataSize..])
    {
      if front == rear {
        return QUEUE_EMPTY;
      }
      NextSlot(front, nodeCnt);
      OffsetIsProduct(front, dataSize);
      AfterGet(queuePtr[..], contents, front, rear, nodeCnt, dataSize);
      var item := queuePtr[front * dataSize..front * dataSize + dataSize];
      CopyOut(data, item);
      front := (front + 1) % nodeCnt;
      contents := contents[1..];
      ret := QUEUE_SUCCESS;
    }

    method Call(op: Op<seq<byte>>, buffer: array<byte>) returns (reply: Reply<seq<byte>>)
      requires Valid() && buffer.Length == dataSize && buffer != queuePtr && (op.Put? ==> |op.value| == dataSize)
      modifies this, queuePtr, buffer
      ensures Valid() && contents == Contents(old(contents), Bounded(nodeCnt - 1), op)
      ensures reply == Answer(old(contents), Bounded(nodeCnt - 1), op)
    {
      match op {
        case Put(x) =>
          var ret := EnSeqQueue(x, dataSize);
          assert x[..dataSize] == x;
          reply := if ret == QUEUE_FULL then Refused else Stored;
        case Get =>
          var ret := DeSeqQueue(buffer, dataSize);
          assert buffer[..dataSize] == buffer[..];
          reply := if ret == QUEUE_EMPTY then Nothing else Got(buffer[..]);
      }
    }
  }

  /** Any sequence of calls on a new queue is answered as by a first-in
      first-out queue of queueLen places. */
  method Drive(queueLen: nat, dataSize: nat, ops: seq<Op<seq<byte>>>) returns (replies: seq<Reply<seq<byte>>>)
    requires forall i :: 0 <= i < |ops| && ops[i].Put? ==> |ops[i].value| == dataSize
    ensures replies == Replies([], Bounded(queueLen), ops)
  {
    var q := new SeqQueue(queueLen, dataSize);
    var buffer := new byte[dataSize](_ => 0);
    replies := [];
    for i := 0 to |ops|
      invariant q.Valid() && q.nodeCnt == queueLen + 1 && q.dataSize == dataSize
      invariant fresh(q) && fresh(q.queuePtr) && fresh(buffer) && buffer != q.queuePtr && buffer.Length == dataSize
      invariant replies + Replies(q.contents, Bounded(queueLen), ops[i..]) == Replies([], Bounded(queueLen), ops)
    {
      RepliesStep(replies, q.contents, Bounded(queueLen), ops, i);
      var reply := q.Call(ops[i], buffer);
      replies := replies + [reply];
    }
  }
}
