/** socket/common/thread_pool/task_queue, socket_udp/common/thread_pool/task_queue
    and socket_udp/common/lcmsg/lcmsg_queue: one queue over list.h, three times. */
module ListQueue {
  import opened Common
  import opened IntrusiveList
  import opened FifoSpec

  datatype QueueRet = QUEUE_SUCCESS | QUEUE_ERROR | QUEUE_EMPTY

  class Queue<T(0)> {
    var head: ListHead<T>
    ghost var nodes: seq<ListHead<T>>
    ghost var contents: seq<T>
    ghost var live: set<ListHead<T>>   // allocated and not freed

    ghost predicate Valid()
      reads this, head, nodes
    {
      IsList(head, nodes) && head !in nodes && live == {head} + (set n | n in nodes) &&
      |contents| == |nodes| && forall i :: 0 <= i < |nodes| ==> nodes[i].entry == Some(contents[i])
    }

    /** init_task_queue. */
    constructor ()
      ensures Valid() && contents == [] && fresh(live)
    {
      head := new ListHead<T>(None);
      nodes, contents := [], [];
      new;
      InitListHead(head);
      live := {head};
    }

    /** EnTaskQueue, EnMsgQueue: the node goes to the tail. */
    method EnTaskQueue(task: T) returns (ret: QueueRet)
      requires Valid()
      modifies this, live
      ensures Valid() && fresh(live - old(live))
      ensures ret == QUEUE_SUCCESS && contents == old(contents) + [task]
    {
      var node := new ListHead<T>(Some(task));
      assert node !in [head] + nodes;
      NeighboursInRing([head] + nodes, head);
      ListAddTail(node, head, nodes);
      nodes, contents := nodes + [node], contents + [task];
      live := live + {node};
      ret := QUEUE_SUCCESS;
    }

    /** DeTaskQueue, de_task_from_queue, DeMsgQueue: the first node, which is then freed. */
    method DeTaskQueue() returns (ret: QueueRet, task: Option<T>)
      requires Valid()
      modifies this, live
      ensures Valid() && live <= old(live)
      ensures old(contents) == [] ==> ret == QUEUE_EMPTY && task == None && contents == []
      ensures old(contents) != [] ==>
                ret == QUEUE_SUCCESS && task == Some(old(contents)[0]) && contents == old(contents)[1..]
    {
      var empty := ListEmpty(head, nodes);
      if empty {
        return QUEUE_EMPTY, None;
      }
      RingNode([head] + nodes, 0);
      var node := head.next;
      task := Some(node.entry.value);
      UnlinkFirst(node);
      ret := QUEUE_SUCCESS;
    }

    /** list_del and free. */
    method UnlinkFirst(node: ListHead<T>)
      requires Valid() && nodes != [] && node == nodes[0]
      modifies this, live
      ensures Valid() && live == old(live) - {node} && node in old(live) && contents == old(contents)[1..]
    {
      ghost var rest := nodes[1..];
      RingNode([head] + nodes, 1);
      assert nodes == [] + [node] + rest && [] + rest == rest;
      ListDel(node, head, [], rest);
      Without(head, [], node, rest);
      live := live - {node};
      nodes, contents := rest, contents[1..];
    }

    /** en_task_to_queue: a missing task is refused. */
    method EnTaskToQueue(task: Option<T>) returns (ret: QueueRet)
      requires Valid()
      modifies this, live
      ensures Valid() && fresh(live - old(live))
      ensures task.None? ==> ret == QUEUE_ERROR && contents == old(contents)
      ensures task.Some? ==> ret == QUEUE_SUCCESS && contents == old(contents) + [task.value]
    {
      if task.None? {
        return QUEUE_ERROR;
      }
      ret := EnTaskQueue(task.value);
    }

    /** DestoryTaskQueue, destroy_task_queue, DestoryMsgQueue: drains the queue,
        frees every node and then the head; drained is what was still in it. */
    method Destroy() returns (ghost drained: seq<T>)
      requires Valid()
      modifies this, live
      ensures live == {} && drained == old(contents)
    {
      drained := [];
      var done := false;
      while !done
        invariant Valid() && live <= old(live) && drained + contents == old(contents)
        invariant done ==> contents == []
        decreases !done, |contents|
      {
        var ret, task := DeTaskQueue();
        if ret == QUEUE_EMPTY {
          done := true;
        } else {
          drained := drained + [task.value];
        }
      }
      assert live == {head};
      live := live - {head};
    }
  }

  /** Any sequence of calls on a new queue is answered as by an unbounded
      first-in first-out queue. */
  method Drive<T(0)>(ops: seq<Op<T>>) returns (replies: seq<Reply<T>>)
    ensures replies == Replies([], Unbounded, ops)
  {
    var q := new Queue<T>();
    replies := [];
    for i := 0 to |ops|
      invariant q.Valid() && fresh(q) && fresh(q.live)
      invariant replies + Replies(q.contents, Unbounded, ops[i..]) == Replies([], Unbounded, ops)
    {
      RepliesStep(replies, q.contents, Unbounded, ops, i);
      match ops[i] {
        case Put(x) =>
          var _ := q.EnTaskQueue(x);
          replies := replies + [Stored];
        case Get =>
          var ret, task := q.DeTaskQueue();
          replies := replies + [if ret == QUEUE_EMPTY then Nothing else Got(task.value)];
      }
    }
  }
}
