/** socket_udp/server/clientinfo_list/clientinfo_list.c: client addresses on a
    list.h list, newest first, searched by walking the links. */
module ClientRegistry {
  import opened Common
  import opened IntrusiveList
  import R = RegistrySpec

  class CliInfoList {
    var infoList: ListHead<R.Registration>
    ghost var nodes: seq<ListHead<R.Registration>>
    ghost var registry: seq<R.Registration>
    ghost var live: set<ListHead<R.Registration>>   // allocated and not freed

    ghost predicate Valid()
      reads this, infoList, nodes
    {
      IsList(infoList, nodes) && infoList !in nodes && live == {infoList} + (set n | n in nodes) &&
      |registry| == |nodes| && forall i :: 0 <= i < |nodes| ==> nodes[i].entry == Some(registry[i])
    }

    /** InitCliInfoList. */
    constructor ()
      ensures Valid() && registry == [] && fresh(live)
    {
      infoList := new ListHead<R.Registration>(None);
      nodes, registry := [], [];
      new;
      InitListHead(infoList);
      live := {infoList};
    }

    /** AddNodeToCliInfoList: list_add, so the newest comes first. */
    method AddNode(cliID: R.EndId, addr: R.SockAddr)
      requires Valid()
      modifies this, live
      ensures Valid() && fresh(live - old(live))
      ensures registry == [R.Registration(cliID, addr)] + old(registry)
    {
      var node := new ListHead<R.Registration>(Some(R.Registration(cliID, addr)));
      NeighboursInRing([infoList] + nodes, infoList);
      ListAdd(node, infoList, nodes);
      live := live + {node};
      nodes, registry := [node] + nodes, [R.Registration(cliID, addr)] + registry;
    }

    /** __GetCliInfoNodeByCliID: list_for_each up to the first match. */
    method FindNode(cliID: R.EndId) returns (found: ListHead?<R.Registration>, ghost k: nat)
      requires Valid()
      ensures found == null ==> forall i :: 0 <= i < |registry| ==> registry[i].id != cliID
      ensures found != null ==> k < |nodes| && found == nodes[k] && registry[k].id == cliID &&
                                forall i :: 0 <= i < k ==> registry[i].id != cliID
    {
      ghost var a := [infoList] + nodes;
      k := 0;
      RingNode(a, 0);
      var pos := infoList.next;
      while pos != infoList
        invariant k <= |nodes| && pos == if k == |nodes| then infoList else nodes[k]
        invariant forall i :: 0 <= i < k ==> registry[i].id != cliID
        decreases |nodes| - k
      {
        if pos.entry.value.id == cliID {
          return pos, k;
        }
        RingNode(a, k + 1);
        pos := pos.next;
        k := k + 1;
      }
      assert k == |nodes|;
      return null, k;
    }

    /** GetCliInfoNodeByCliID, with the address the caller reads from the node. */
    method GetAddress(cliID: R.EndId) returns (addr: Option<R.SockAddr>)
      requires Valid()
      ensures addr == R.Lookup(registry, cliID)
    {
      ghost var k;
      var node;
      node, k := FindNode(cliID);
      if node == null {
        R.LookupMisses(registry, cliID);
        addr := None;
      } else {
        R.WithoutNewestAt(registry, cliID, k);
        addr := Some(node.entry.value.addr);
      }
    }

    /** DelCliInfoNodeFormListByCliID: the ID must be present, for the result of
        the search is unlinked unseen. */
    method DelNode(cliID: R.EndId)
      requires Valid() && R.Lookup(registry, cliID).Some?
      modifies this, live
      ensures Valid() && live < old(live)
      ensures registry == R.WithoutNewest(old(registry), cliID)
    {
      ghost var k;
      var node;
      node, k := FindNode(cliID);
      if node == null {
        R.LookupMisses(registry, cliID);
        assert false;
      }
      R.WithoutNewestAt(registry, cliID, k);
      Unlink(node, k);
    }

    /** list_del and free. */
    method Unlink(node: ListHead<R.Registration>, ghost k: nat)
      requires Valid() && k < |nodes| && nodes[k] == node
      modifies this, live
      ensures Valid() && live == old(live) - {node} && node in old(live)
      ensures registry == old(registry)[..k] + old(registry)[k + 1..]
    {
      ghost var before, after := nodes[..k], nodes[k + 1..];
      assert nodes == before + [node] + after;
      assert ([infoList] + nodes)[k + 1] == node;
      NeighboursInRing([infoList] + nodes, node);
      ListDel(node, infoList, before, after);
      Without(infoList, before, node, after);
      live := live - {node};
      nodes, registry := before + after, registry[..k] + registry[k + 1..];
    }

    method Call(op: R.Op) returns (answer: Option<R.SockAddr>)
      requires Valid() && (op.Delete? ==> R.Lookup(registry, op.id).Some?)
      modifies this, live
      ensures Valid() && fresh(live - old(live))
      ensures registry == R.ListAfter(old(registry), op)
      ensures op.Get? ==> answer == R.Lookup(registry, op.id)
    {
      answer := None;
      match op {
        case Add(id, addr) => AddNode(id, addr);
        case Delete(id) => DelNode(id);
        case Get(id) => answer := GetAddress(id);
      }
    }
  }

  /** Any sequence of adds, deletes of present IDs and lookups on a new registry
      is answered as by one stack of addresses per ID. */
  method Drive(ops: seq<R.Op>) returns (answers: seq<Option<R.SockAddr>>)
    requires R.DeletesPresent(map[], ops)
    ensures answers == R.Answers(map[], ops)
  {
    var list := new CliInfoList();
    ghost var m: R.Stacks := map[];
    answers := [];
    R.AgreeAtStart();
    for i := 0 to |ops|
      invariant list.Valid() && fresh(list) && fresh(list.live)
      invariant R.Agree(list.registry, m) && R.DeletesPresent(m, ops[i..])
      invariant answers + R.Answers(m, ops[i..]) == R.Answers(map[], ops)
    {
      var op := ops[i];
      R.AnswersStep(answers, m, ops, i);
      R.StepAgrees(list.registry, m, op);
      var answer := list.Call(op);
      if op.Get? {
        answers := answers + [answer];
      }
      m := R.After(m, op);
    }
  }
}
