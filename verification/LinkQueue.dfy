/** lib_queue/link/link_queue.c: a singly linked queue that ends in a node
    without data; storing an item fills that node and hangs a new empty one
    behind it. Whether an allocation succeeds is a parameter. */
module LinkQueue {
  import opened Bytes
  import opened Common
  import opened FifoSpec
  import opened Tally

  datatype QueueRet = RET_ERROR | QUEUE_SUCCESS | QUEUE_EMPTY

  class LinkNode {
    var data: array?<byte>
    var next: LinkNode?

    constructor ()
      ensures data == null && next == null
    {
      data, next := null, null;
    }
  }

  /** What a node holds: the bytes handed over, or whatever malloc returned if that was NULL. */
  type Item = Option<seq<byte>>

  datatype Request =
    | Enqueue(data: Option<seq<byte>>, size: nat, nodeOk: bool, dataOk: bool)
    | Dequeue(size: nat, wanted: bool) // not wanted: called with NULL to discard

  datatype Response = Response(ret: QueueRet, bytes: Option<seq<byte>>)

  /** The bytes that memcpy reads are there. */
  predicate Readable(req: Request, dataSize: nat) {
    req.Enqueue? && req.data.Some? && req.size == dataSize ==> |req.data.value| >= dataSize
  }

  /** What a call asks of the queue; nothing if its size is wrong or an allocation fails. */
  function Effect(req: Request, dataSize: nat): Option<Op<Item>>
    requires Readable(req, dataSize)
  {
    if req.size != dataSize || (req.Enqueue? && !(req.nodeOk && req.dataOk)) then None
    else match req
      case Enqueue(data, _, _, _) => Some(Put(if data.Some? then Some(data.value[..dataSize]) else None))
      case Dequeue(_, _) => Some(Get)
  }

  ghost predicate AllReadable(reqs: seq<Request>, dataSize: nat) {
    forall i :: 0 <= i < |reqs| ==> Readable(reqs[i], dataSize)
  }

  ghost function Effects(reqs: seq<Request>, dataSize: nat): (effects: seq<Option<Op<Item>>>)
    requires AllReadable(reqs, dataSize)
    ensures |effects| == |reqs|
  {
    seq(|reqs|, i requires 0 <= i < |reqs| => Effect(reqs[i], dataSize))
  }

  /** Whether a response is what the call was to get; no expected reply means an error. */
  ghost predicate Meets(response: Response, req: Request, dataSize: nat, expected: Option<Reply<Item>>) {
    match expected
    case None => response == Response(RET_ERROR, None)
    case Some(Got(item)) =>
      response.ret == QUEUE_SUCCESS && response.bytes.Some? == (req.Dequeue? && req.wanted) &&
      (response.bytes.Some? ==> |response.bytes.value| == dataSize && (item.Some? ==> response.bytes == item))
    case Some(reply) => response == Response(if reply == Nothing then QUEUE_EMPTY else QUEUE_SUCCESS, None)
  }

  /** One for a call whose node is dropped because its data block was not to be had. */
  ghost function Leaks(dataSize: nat): Request -> nat {
    (req: Request) => if req.Enqueue? && req.size == dataSize && req.nodeOk && !req.dataOk then 1 else 0
  }

  class LinkQueue {
    var front: LinkNode
    var rear: LinkNode
    const dataSize: nat
    ghost var nodes: seq<LinkNode>
    ghost var blocks: seq<array<byte>>      // the data of all nodes but the last
    ghost var contents: seq<seq<byte>>
    ghost var liveNodes: set<LinkNode>      // allocated and not freed
    ghost var liveBlocks: set<array<byte>>
    ghost var leaked: set<LinkNode>         // allocated, and dropped on a failure

    /** Node i links to the next one and, unless it is the last, has its item. */
    ghost predicate NodeAt(i: nat)
      requires i < |nodes| && |blocks| == |contents| == |nodes| - 1
      reads this, nodes, blocks
    {
      if i == |nodes| - 1 then nodes[i].data == null && nodes[i].next == null
      else nodes[i].next == nodes[i + 1] && nodes[i].data == blocks[i] &&
           blocks[i].Length == dataSize && blocks[i][..] == contents[i]
    }

    ghost predicate Valid()
      reads this, nodes, blocks
    {
      |nodes| >= 1 && front == nodes[0] && rear == nodes[|nodes| - 1] &&
      |blocks| == |contents| == |nodes| - 1 &&
      Distinct(nodes) && Distinct(blocks) &&
      (forall i: nat {:trigger NodeAt(i)} :: i < |nodes| ==> NodeAt(i)) &&
      liveNodes == (set n | n in nodes) && liveBlocks == (set b | b in blocks)
    }

    /** InitLinkQueue, when dataSize is positive. */
    constructor (dataSize: nat)
      ensures Valid() && contents == [] && this.dataSize == dataSize
      ensures leaked == {} && fresh(liveNodes) && liveBlocks == {}
    {
      this.dataSize := dataSize;
      var linkNode := new LinkNode();
      front, rear := linkNode, linkNode;
      nodes, blocks, contents, leaked := [linkNode], [], [], {};
      liveNodes, liveBlocks := {linkNode}, {};
    }

    /** From the empty last node on: give it its data and hang linkNode behind it. */
    method Append(linkNode: LinkNode, block: array<byte>, data: Option<seq<byte>>)
      requires Valid() && linkNode !in nodes && linkNode.data == null && linkNode.next == null
      requires block !in blocks && block.Length == dataSize && (data.Some? ==> |data.value| >= dataSize)
      modifies this`rear, this`nodes, this`blocks, this`contents, this`liveNodes, this`liveBlocks, rear, block
      ensures Valid() && nodes == old(nodes) + [linkNode] && blocks == old(blocks) + [block]
      ensures contents == old(contents) + [if data.Some? then data.value[..dataSize] else old(block[..])]
      ensures block[..] == contents[|old(contents)|]
    {
      ghost var n := |nodes| - 1;
      assert NodeAt(0) && NodeAt(n);
      rear.data := block;
      assert front.data != null;
      if data.Some? && front.data != null {
        CopyOut(block, data.value[..dataSize]);
        assert block[..dataSize] == block[..];
      }
      rear.next := linkNode;
      rear := linkNode;
      DistinctAppend(nodes, linkNode);
      DistinctAppend(blocks, block);
      nodes, blocks, contents := nodes + [linkNode], blocks + [block], contents + [block[..]];
      liveNodes, liveBlocks := liveNodes + {linkNode}, liveBlocks + {block};
      forall i: nat | i < |nodes| ensures NodeAt(i) {
        if i < n {
          assert old(NodeAt(i));
          assert Differ(old(nodes), i, n);
        }
      }
    }

    /** EnLinkQueue. A failed allocation leaves the items as they were. */
    method EnLinkQueue(data: Option<seq<byte>>, size: nat, nodeOk: bool, dataOk: bool) returns (ret: QueueRet)
      requires Valid() && (data.Some? && size == dataSize ==> |data.value| >= dataSize)
      modifies this, rear
      ensures Valid() && fresh(liveNodes - old(liveNodes)) && fresh(liveBlocks - old(liveBlocks))
      ensures ret == if size == dataSize && nodeOk && dataOk then QUEUE_SUCCESS else RET_ERROR
      ensures ret == RET_ERROR ==>
                contents == old(contents) && liveNodes == old(liveNodes) && liveBlocks == old(liveBlocks)
      ensures if size == dataSize && nodeOk && !dataOk
              then old(leaked) < leaked && |leaked| == |old(leaked)| + 1 && fresh(leaked - old(leaked))
              else leaked == old(leaked)
      ensures ret == QUEUE_SUCCESS ==> |contents| == |old(contents)| + 1 && contents[..|old(contents)|] == old(contents)
      ensures ret == QUEUE_SUCCESS ==>
                var stored := contents[|old(contents)|];
                |stored| == dataSize && (data.Some? ==> stored == data.value[..dataSize])
    {
      if dataSize != size {
        return RET_ERROR;
      }
      if !nodeOk {
        return RET_ERROR;
      }
      var linkNode := new LinkNode();
      assert NodeAt(|nodes| - 1);
      var block := rear.data;
      if block == null {
        if !dataOk {
          leaked := leaked + {linkNode};
          forall i: nat | i < |nodes| ensures NodeAt(i) {
            assert old(NodeAt(i));
          }
          return RET_ERROR;
        }
        block := new byte[dataSize];
      }
      forall i: nat | i < |nodes| ensures NodeAt(i) {
        assert old(NodeAt(i));
      }
      Append(linkNode, block, data);
      ret := QUEUE_SUCCESS;
    }

    /** DeLinkQueue: the first node and its data are freed; a null out only discards. */
    method DeLinkQueue(out: array?<byte>, size: nat) returns (ret: QueueRet)
      requires Valid() && (out != null ==> out !in blocks && (size == dataSize ==> out.Length >= dataSize))
      modifies this, front, out
      ensures Valid() && leaked == old(leaked)
      ensures ret == if size != dataSize then RET_ERROR else if old(contents) == [] then QUEUE_EMPTY else QUEUE_SUCCESS
      ensures ret != QUEUE_SUCCESS ==> contents == old(contents) && nodes == old(nodes) && blocks == old(blocks)
      ensures ret != QUEUE_SUCCESS && out != null ==> out[..] == old(out[..])
      ensures ret == QUEUE_SUCCESS ==> contents == old(contents)[1..]
      ensures ret == QUEUE_SUCCESS ==>
                liveNodes == old(liveNodes) - {old(front)} && liveBlocks == old(liveBlocks) - {old(front.data)}
      ensures ret == QUEUE_SUCCESS ==> old(front) in old(liveNodes) && old(front.data) in old(liveBlocks)
      ensures ret == QUEUE_SUCCESS && out != null ==>
                out[..dataSize] == old(contents)[0] && out[dataSize..] == old(out[dataSize..])
    {
      if dataSize != size {
        return RET_ERROR;
      }
      assert |nodes| > 1 ==> Differ(nodes, 0, |nodes| - 1);
      if front == rear {
        return QUEUE_EMPTY;
      }
      assert NodeAt(0);
      var tmp := front.next;
      if out != null && front.data != null {
        assert front.data[..dataSize] == front.data[..];
        CopyOut(out, front.data[..dataSize]);
        forall i: nat | i < |nodes| ensures NodeAt(i) {
          assert old(NodeAt(i));
          assert i < |blocks| ==> blocks[i] in blocks;
        }
      }
      DropFirst(tmp);
      ret := QUEUE_SUCCESS;
    }

    /** Free the first node and its data; next is the node after it. */
    method DropFirst(next: LinkNode)
      requires Valid() && |nodes| > 1 && next == nodes[1]
      modifies this`front, this`nodes, this`blocks, this`contents, this`liveNodes, this`liveBlocks, front
      ensures Valid() && nodes == old(nodes)[1..] && blocks == old(blocks)[1..] && contents == old(contents)[1..]
      ensures liveNodes == old(liveNodes) - {old(front)} && liveBlocks == old(liveBlocks) - {old(blocks[0])}
    {
      DistinctRest(nodes);
      DistinctRest(blocks);
      liveBlocks, liveNodes := liveBlocks - {blocks[0]}, liveNodes - {nodes[0]};
      front.data := null;
      front.next := null;
      front := next;
      nodes, blocks, contents := nodes[1..], blocks[1..], contents[1..];
      forall i: nat | i < |nodes| ensures NodeAt(i) {
        assert old(NodeAt(i + 1));
        assert Differ(old(nodes), i + 1, 0);
      }
    }

    /** DestoryLinkQueue: every node and every block of data is freed, each once. */
    method Destroy()
      requires Valid()
      modifies this, liveNodes
      ensures liveNodes == {} && liveBlocks == {} && leaked == old(leaked)
    {
      assert |nodes| > 1 ==> Differ(nodes, 0, |nodes| - 1);
      while front != rear
        invariant front == rear <==> |nodes| == 1
        invariant Valid() && leaked == old(leaked) && liveNodes <= old(liveNodes)
        decreases |contents|
      {
        assert |nodes| > 1 && front in nodes && front in liveNodes;
        var _ := DeLinkQueue(null, dataSize);
        assert |nodes| > 1 ==> Differ(nodes, 0, |nodes| - 1);
      }
      assert liveNodes == {front};
      liveNodes := liveNodes - {front};
    }

    /** The stored bytes are the items, wherever those are known. */
    ghost predicate Holds(items: seq<Item>)
      reads this
    {
      |items| == |contents| &&
      forall i :: 0 <= i < |items| ==> |contents[i]| == dataSize && (items[i].Some? ==> items[i].value == contents[i])
    }

    method Call(req: Request, buffer: array<byte>, ghost items: seq<Item>) returns (response: Response)
      requires Valid() && Holds(items) && Readable(req, dataSize) && buffer.Length == dataSize && buffer !in blocks
      modifies this, front, rear, buffer
      ensures Valid() && fresh(liveNodes - old(liveNodes)) && fresh(liveBlocks - old(liveBlocks)) && buffer !in blocks
      ensures Holds(After(items, Unbounded, Effect(req, dataSize)))
      ensures Meets(response, req, dataSize, Outcome(items, Unbounded, Effect(req, dataSize)))
      ensures |leaked| == |old(leaked)| + Leaks(dataSize)(req)
    {
      match req {
        case Enqueue(data, size, nodeOk, dataOk) =>
          var ret := EnLinkQueue(data, size, nodeOk, dataOk);
          response := Response(ret, None);
        case Dequeue(size, wanted) =>
          var ret := DeLinkQueue(if wanted then buffer else null, size);
          assert buffer[..dataSize] == buffer[..];
          response := Response(ret, if ret == QUEUE_SUCCESS && wanted then Some(buffer[..]) else None);
      }
    }
  }

  /** InitLinkQueue. */
  method InitLinkQueue(dataSize: nat) returns (q: LinkQueue?)
    ensures q == null <==> dataSize == 0
    ensures q != null ==> fresh(q) && q.Valid() && q.contents == [] && q.leaked == {} && q.dataSize == dataSize
    ensures q != null ==> fresh(q.liveNodes) && q.liveBlocks == {}
  {
    if dataSize <= 0 {
      return null;
    }
    q := new LinkQueue(dataSize);
  }

  /** So far the responses are as expected, and from items on the reference queue goes on. */
  ghost predicate Answered(dataSize: nat, reqs: seq<Request>, responses: seq<Response>, items: seq<Item>)
    requires AllReadable(reqs, dataSize)
  {
    var i, effects := |responses|, Effects(reqs, dataSize);
    var expected := Outcomes([], Unbounded, effects);
    i <= |reqs| && Outcomes(items, Unbounded, effects[i..]) == expected[i..] &&
    forall j :: 0 <= j < i ==> Meets(responses[j], reqs[j], dataSize, expected[j])
  }

  lemma AnsweredStep(dataSize: nat, reqs: seq<Request>, responses: seq<Response>, items: seq<Item>, response: Response)
    requires AllReadable(reqs, dataSize) && Answered(dataSize, reqs, responses, items) && |responses| < |reqs|
    requires var req := reqs[|responses|];
             Meets(response, req, dataSize, Outcome(items, Unbounded, Effect(req, dataSize)))
    ensures var i := |responses|;
            Answered(dataSize, reqs, responses + [response], After(items, Unbounded, Effect(reqs[i], dataSize))) &&
            Total(reqs[..i + 1], Leaks(dataSize)) == Total(reqs[..i], Leaks(dataSize)) + Leaks(dataSize)(reqs[i])
  {
    var i, effects := |responses|, Effects(reqs, dataSize);
    var expected := Outcomes([], Unbounded, effects);
    assert effects[i..][0] == Effect(reqs[i], dataSize) && effects[i..][1..] == effects[i + 1..];
    assert expected[i..][0] == expected[i] && expected[i..][1..] == expected[i + 1..];
    assert reqs[..i + 1] == reqs[..i] + [reqs[i]];
    TotalAppend(reqs[..i], reqs[i], Leaks(dataSize));
  }

  /** Any sequence of calls on a new queue, whatever sizes they give and whichever
      allocations fail, is answered as by an unbounded first-in first-out queue
      on which the failing calls had no effect. Destroying the queue then frees
      all it holds; lost are exactly the nodes whose data block failed. */
  method Drive(dataSize: nat, reqs: seq<Request>)
    returns (responses: seq<Response>,
             ghost liveNodes: set<LinkNode>, ghost liveBlocks: set<array<byte>>, ghost leaked: set<LinkNode>)
    requires dataSize > 0 && AllReadable(reqs, dataSize)
    ensures |responses| == |reqs|
    ensures var expected := Outcomes([], Unbounded, Effects(reqs, dataSize));
            forall i :: 0 <= i < |reqs| ==> Meets(responses[i], reqs[i], dataSize, expected[i])
    ensures liveNodes == {} && liveBlocks == {} && |leaked| == Total(reqs, Leaks(dataSize))
  {
    var q := InitLinkQueue(dataSize);
    var buffer := new byte[dataSize];
    ghost var items: seq<Item> := [];
    responses := [];
    for i := 0 to |reqs|
      invariant q.Valid() && q.Holds(items) && q.dataSize == dataSize && |q.leaked| == Total(reqs[..i], Leaks(dataSize))
      invariant fresh(q) && fresh(q.liveNodes) && fresh(q.liveBlocks) && fresh(buffer) && buffer !in q.blocks
      invariant |responses| == i && Answered(dataSize, reqs, responses, items)
    {
      assert q.front in q.nodes && q.rear in q.nodes && q.front in q.liveNodes && q.rear in q.liveNodes;
      var response := q.Call(reqs[i], buffer, items);
      AnsweredStep(dataSize, reqs, responses, items, response);
      responses, items := responses + [response], After(items, Unbounded, Effect(reqs[i], dataSize));
    }
    assert reqs[..|reqs|] == reqs;
    q.Destroy();
    liveNodes, liveBlocks, leaked := q.liveNodes, q.liveBlocks, q.leaked;
  }
}
