/** socket/common/list.h: circular doubly linked lists whose links are embedded
    in the listed structures. A ring is described by the sequence of its nodes;
    each operation is tied to the matching operation on that sequence, and its
    modifies clause names the very links it writes, so all other rings keep. */
module IntrusiveList {
  import opened Common

  /** struct list_head. entry stands for the structure that container_of
      recovers from the links; the operations here never touch it. */
  class ListHead<T> {
    var next: ListHead?<T>
    var prev: ListHead?<T>
    var entry: Option<T>

    constructor (entry: Option<T>)
      ensures this.entry == entry && next == null && prev == null
    {
      this.entry := entry;
      next, prev := null, null;
    }
  }

  ghost function After<T>(nodes: seq<T>, i: nat): nat
    requires i < |nodes|
  {
    if i + 1 == |nodes| then 0 else i + 1
  }

  /** The i-th node and the one after it, going round, point at each other. */
  ghost predicate LinkAt<T>(nodes: seq<ListHead<T>>, i: nat)
    requires i < |nodes|
    reads nodes
  {
    nodes[i].next == nodes[After(nodes, i)] && nodes[After(nodes, i)].prev == nodes[i]
  }

  /** next and prev run round nodes in both directions, once. */
  ghost predicate IsRing<T>(nodes: seq<ListHead<T>>)
    reads nodes
  {
    |nodes| > 0 && Distinct(nodes) &&
    forall i: nat {:trigger LinkAt(nodes, i)} :: i < |nodes| ==> LinkAt(nodes, i)
  }

  /** True of every node of a ring. */
  ghost predicate Linked<T>(node: ListHead<T>)
    reads node
  {
    node.next != null && node.prev != null
  }

  /** The list at head has the nodes s. */
  ghost predicate IsList<T>(head: ListHead<T>, s: seq<ListHead<T>>)
    reads head, s
  {
    IsRing([head] + s) && Linked(head)
  }

  lemma RingNode<T>(nodes: seq<ListHead<T>>, k: nat)
    requires IsRing(nodes) && k < |nodes|
    ensures Linked(nodes[k])
    ensures nodes[k].next == nodes[After(nodes, k)]
    ensures nodes[k].prev == nodes[if k == 0 then |nodes| - 1 else k - 1]
  {
    assert LinkAt(nodes, k) && LinkAt(nodes, if k == 0 then |nodes| - 1 else k - 1);
  }

  lemma RingIsList<T>(head: ListHead<T>, s: seq<ListHead<T>>)
    requires IsRing([head] + s)
    ensures IsList(head, s)
  {
    RingNode([head] + s, 0);
  }

  method InitListHead<T>(list: ListHead<T>)
    modifies list`next, list`prev
    ensures IsList(list, [])
  {
    list.next := list;
    list.prev := list;
  }

  ghost function Inserted<T>(nodes: seq<T>, k: nat, node: T): seq<T>
    requires k < |nodes|
  {
    nodes[..k + 1] + [node] + nodes[k + 1..]
  }

  /** __list_add between the k-th node prev and its successor next. */
  method AddBetween<T>(node: ListHead<T>, prev: ListHead<T>, next: ListHead<T>, ghost a: seq<ListHead<T>>, ghost k: nat)
    requires IsRing(a) && k < |a| && prev == a[k] && prev.next == next && node !in a
    modifies node`next, node`prev, prev`next, next`prev
    ensures IsRing(Inserted(a, k, node))
  {
    ghost var b := Inserted(a, k, node);
    assert LinkAt(a, k) && a[k] in a && a[After(a, k)] in a;
    next.prev := node;
    node.next := next;
    node.prev := prev;
    prev.next := node;
    forall i: nat, j: nat | i < |b| && j < |b| && i != j ensures Differ(b, i, j) {
      var i', j' := if i <= k then i else i - 1, if j <= k then j else j - 1;
      if i == k + 1 {
        assert b[j] == a[j'] && a[j'] in a;
      } else if j == k + 1 {
        assert b[i] == a[i'] && a[i'] in a;
      } else {
        assert Differ(a, i', j');
      }
    }
    forall i: nat | i < |b| ensures LinkAt(b, i) {
      if i != k && i != k + 1 {
        var i' := if i < k then i else i - 1;
        assert old(LinkAt(a, i'));
        assert b[i] == a[i'] && b[After(b, i)] == a[After(a, i')];
        assert a[i'] in a && a[After(a, i')] in a;
        assert Differ(a, i', k) && Differ(a, After(a, i'), After(a, k));
      } else {
        assert b[k] == a[k] && b[k + 1] == node && b[After(b, k + 1)] == a[After(a, k)];
      }
    }
  }

  /** list_add: right after the head. */
  method ListAdd<T>(node: ListHead<T>, head: ListHead<T>, ghost s: seq<ListHead<T>>)
    requires IsList(head, s) && node !in [head] + s
    modifies node`next, node`prev, head`next, head.next`prev
    ensures IsList(head, [node] + s)
  {
    ghost var a := [head] + s;
    AddBetween(node, head, head.next, a, 0);
    assert Inserted(a, 0, node) == [head] + ([node] + s);
    RingIsList(head, [node] + s);
  }

  /** list_add_tail: right before the head. */
  method ListAddTail<T>(node: ListHead<T>, head: ListHead<T>, ghost s: seq<ListHead<T>>)
    requires IsList(head, s) && node !in [head] + s
    modifies node`next, node`prev, head.prev`next, head`prev
    ensures IsList(head, s + [node])
  {
    ghost var a := [head] + s;
    RingNode(a, 0);
    RingNode(a, |s|);
    AddBetween(node, head.prev, head, a, |s|);
    assert Inserted(a, |s|, node) == [head] + (s + [node]);
    RingIsList(head, s + [node]);
  }

  lemma OnlyOnce<T>(head: T, before: seq<T>, node: T, after: seq<T>)
    requires Distinct([head] + (before + [node] + after))
    ensures node !in [head] + (before + after) && Distinct([head] + (before + after))
  {
    var a, b, n := [head] + (before + [node] + after), [head] + (before + after), |before|;
    forall i: nat | i < |b| ensures b[i] != node {
      assert Differ(a, if i <= n then i else i + 1, n + 1);
    }
    forall i: nat, j: nat | i < |b| && j < |b| && i != j ensures Differ(b, i, j) {
      assert Differ(a, if i <= n then i else i + 1, if j <= n then j else j + 1);
    }
  }

  /** The nodes of a list and its head, less one node. */
  lemma Without<T>(head: T, before: seq<T>, node: T, after: seq<T>)
    requires node !in [head] + (before + after)
    ensures {head} + (set n | n in before + [node] + after) - {node} == {head} + (set n | n in before + after)
  {
    assert head in [head] + (before + after);
  }

  /** __list_del_entry: takes node out; its own links are left as they were. */
  method DelEntry<T>(node: ListHead<T>, ghost head: ListHead<T>,
                     ghost before: seq<ListHead<T>>, ghost after: seq<ListHead<T>>)
    requires IsList(head, before + [node] + after) && Linked(node)
    modifies node.prev`next, node.next`prev
    ensures IsList(head, before + after) && node !in [head] + (before + after)
    ensures node.next == old(node.next) && node.prev == old(node.prev)
    ensures node.prev.next == node.next && node.next.prev == node.prev
  {
    ghost var a, b, n := [head] + (before + [node] + after), [head] + (before + after), |before|;
    OnlyOnce(head, before, node, after);
    RingNode(a, n + 1);
    assert a[n + 1] == node;
    ghost var m := After(a, n + 1);
    var prev, next := node.prev, node.next;
    next.prev := prev;
    prev.next := next;
    forall i: nat | i < |b| ensures LinkAt(b, i) {
      var k := if i <= n then i else i + 1;
      assert b[i] == a[k];
      if i == n {
        assert b[After(b, i)] == a[m];
      } else {
        assert b[After(b, i)] == a[After(a, k)];
        assert old(LinkAt(a, k));
        assert Differ(a, k, n) && Differ(a, After(a, k), m);
      }
    }
    RingIsList(head, before + after);
  }

  /** list_del: the node's links are poisoned. */
  method ListDel<T>(node: ListHead<T>, ghost head: ListHead<T>,
                    ghost before: seq<ListHead<T>>, ghost after: seq<ListHead<T>>)
    requires IsList(head, before + [node] + after) && Linked(node)
    modifies node`next, node`prev, node.prev`next, node.next`prev
    ensures IsList(head, before + after) && node !in [head] + (before + after)
    ensures node.next == null && node.prev == null
  {
    ghost var a := [head] + (before + [node] + after);
    assert a[|before| + 1] == node;
    DelEntry(node, head, before, after);
    node.next := null;
    node.prev := null;
  }

  method ListDelInit<T>(node: ListHead<T>, ghost head: ListHead<T>,
                        ghost before: seq<ListHead<T>>, ghost after: seq<ListHead<T>>)
    requires IsList(head, before + [node] + after) && Linked(node)
    modifies node`next, node`prev, node.prev`next, node.next`prev
    ensures IsList(head, before + after) && IsList(node, []) && node !in [head] + (before + after)
  {
    DelEntry(node, head, before, after);
    InitListHead(node);
  }

  /** list_replace: node takes the place of old_, also when old_ is alone. */
  method ListReplace<T>(old_: ListHead<T>, node: ListHead<T>, ghost s: seq<ListHead<T>>)
    requires IsList(old_, s) && node !in [old_] + s
    modifies node`next, node`prev, old_.next`prev, old_.prev`next
    ensures IsList(node, s)
  {
    ghost var a, b, n := [old_] + s, [node] + s, |s|;
    RingNode(a, 0);
    assert LinkAt(a, n) && a[n] in a && a[After(a, 0)] in a && a[0] == old_;
    assert n > 0 ==> Differ(a, 1, 0);
    node.next := old_.next;
    node.next.prev := node;
    node.prev := old_.prev;
    node.prev.next := node;
    assert forall i :: 1 <= i < |b| ==> b[i] == a[i];
    forall i: nat, j: nat | i < |b| && j < |b| && i != j ensures Differ(b, i, j) {
      assert Differ(a, i, j);
    }
    forall i: nat | i < |b| ensures LinkAt(b, i) {
      assert old(LinkAt(a, i));
      assert i != n ==> Differ(a, i, n);
      assert i != 0 && i != n ==> Differ(a, i + 1, After(a, 0));
    }
    RingIsList(node, s);
  }

  /** list_replace_init: an empty old_ leaves two empty rings. */
  method ListReplaceInit<T>(old_: ListHead<T>, node: ListHead<T>, ghost s: seq<ListHead<T>>)
    requires IsList(old_, s) && node !in [old_] + s
    modifies node`next, node`prev, old_.next`prev, old_.prev`next, old_`next, old_`prev
    ensures IsList(node, s) && IsList(old_, [])
  {
    ghost var a := [old_] + s;
    forall i | 0 <= i < |s| ensures s[i] != old_ {
      assert Differ(a, i + 1, 0);
    }
    assert a[0] == old_;
    ListReplace(old_, node, s);
    InitListHead(old_);
  }

  lemma DistinctParts<T>(x: T, y: T, before: seq<T>, after: seq<T>)
    requires Distinct([x] + (before + after)) && y !in [x] + (before + after)
    ensures Distinct([y] + before) && Distinct([x] + after)
  {
    var a, b, c := [x] + (before + after), [y] + before, [x] + after;
    forall i: nat, j: nat | i < |b| && j < |b| && i != j ensures Differ(b, i, j) {
      assert i > 0 ==> b[i] == a[i];
      assert j > 0 ==> b[j] == a[j];
      assert Differ(a, i, j);
    }
    forall i: nat, j: nat | i < |c| && j < |c| && i != j ensures Differ(c, i, j) {
      assert Differ(a, if i == 0 then 0 else i + |before|, if j == 0 then 0 else j + |before|);
    }
  }

  ghost function Spliced<T>(nodes: seq<T>, k: nat, t: seq<T>): seq<T>
    requires k < |nodes|
  {
    nodes[..k + 1] + t + nodes[k + 1..]
  }

  lemma DistinctSpliced<T>(b: seq<T>, k: nat, y: T, t: seq<T>)
    requires k < |b| && Distinct([y] + t) && Distinct(b) && Apart([y] + t, b)
    ensures Distinct(Spliced(b, k, t))
  {
    var a, c, n := [y] + t, Spliced(b, k, t), |t|;
    forall i: nat, j: nat | i < |c| && j < |c| && i != j ensures Differ(c, i, j) {
      var iIn, jIn := k < i <= k + n, k < j <= k + n;
      var i', j' := if i <= k then i else i - n, if j <= k then j else j - n;
      if iIn && jIn {
        assert Differ(a, i - k, j - k);
      } else if !iIn && !jIn {
        assert Differ(b, i', j');
      } else if iIn {
        assert c[i] == a[i - k] && a[i - k] in a && c[j] == b[j'] && b[j'] in b;
      } else {
        assert c[j] == a[j - k] && a[j - k] in a && c[i] == b[i'] && b[i'] in b;
      }
    }
  }

  ghost predicate Apart<T>(xs: seq<T>, ys: seq<T>) {
    forall x :: x in xs ==> x !in ys
  }

  /** A neighbour of a node is in the node's ring. */
  lemma NeighboursInRing<T>(nodes: seq<ListHead<T>>, node: ListHead<T>)
    requires IsRing(nodes) && node in nodes
    ensures Linked(node) && node.next in nodes && node.prev in nodes
  {
    var k :| 0 <= k < |nodes| && nodes[k] == node;
    RingNode(nodes, k);
  }

  /** list_move: to the front of its own list, or of another. */
  method ListMove<T>(node: ListHead<T>, head: ListHead<T>, ghost src: ListHead<T>,
                     ghost before: seq<ListHead<T>>, ghost after: seq<ListHead<T>>, ghost s: seq<ListHead<T>>)
    requires IsList(src, before + [node] + after) && Linked(node) && Linked(head)
    requires head == src || (IsList(head, s) && Apart([head] + s, [src] + (before + [node] + after)))
    modifies node`next, node`prev, node.prev`next, node.next`prev, head`next, head.next`prev
    ensures head == src ==> IsList(head, [node] + (before + after))
    ensures head != src ==> IsList(src, before + after) && IsList(head, [node] + s)
  {
    ghost var a := [src] + (before + [node] + after);
    assert a[|before| + 1] == node;
    NeighboursInRing(a, node);
    if head != src {
      assert head in [head] + s;
      NeighboursInRing([head] + s, head);
    }
    DelEntry(node, src, before, after);
    assert forall x :: x in [src] + (before + after) ==> x in a;
    ListAdd(node, head, if head == src then before + after else s);
  }

  /** list_move_tail: to the end of its own list, or of another. */
  method ListMoveTail<T>(node: ListHead<T>, head: ListHead<T>, ghost src: ListHead<T>,
                         ghost before: seq<ListHead<T>>, ghost after: seq<ListHead<T>>, ghost s: seq<ListHead<T>>)
    requires IsList(src, before + [node] + after) && Linked(node) && Linked(head)
    requires head == src || (IsList(head, s) && Apart([head] + s, [src] + (before + [node] + after)))
    modifies node`next, node`prev, node.prev`next, node.next`prev, head`prev, head.prev`next
    ensures head == src ==> IsList(head, before + after + [node])
    ensures head != src ==> IsList(src, before + after) && IsList(head, s + [node])
  {
    ghost var a := [src] + (before + [node] + after);
    assert a[|before| + 1] == node;
    NeighboursInRing(a, node);
    if head != src {
      assert head in [head] + s;
      NeighboursInRing([head] + s, head);
    }
    DelEntry(node, src, before, after);
    assert forall x :: x in [src] + (before + after) ==> x in a;
    ListAddTail(node, head, if head == src then before + after else s);
  }

  method ListEmpty<T>(head: ListHead<T>, ghost s: seq<ListHead<T>>) returns (r: bool)
    requires IsList(head, s)
    ensures r <==> s == []
  {
    ghost var a := [head] + s;
    RingNode(a, 0);
    assert s != [] ==> Differ(a, 1, 0);
    r := head.next == head;
  }

  method ListEmptyCareful<T>(head: ListHead<T>, ghost s: seq<ListHead<T>>) returns (r: bool)
    requires IsList(head, s)
    ensures r <==> s == []
  {
    ghost var a := [head] + s;
    RingNode(a, 0);
    assert s != [] ==> Differ(a, 1, 0);
    var next := head.next;
    r := next == head && next == head.prev;
  }

  method ListIsSingular<T>(head: ListHead<T>, ghost s: seq<ListHead<T>>) returns (r: bool)
    requires IsList(head, s)
    ensures r <==> |s| == 1
  {
    ghost var a := [head] + s;
    RingNode(a, 0);
    assert |s| > 1 ==> Differ(a, 1, |s|);
    var empty := ListEmpty(head, s);
    r := !empty && head.next == head.prev;
  }

  method ListIsLast<T>(node: ListHead<T>, head: ListHead<T>, ghost s: seq<ListHead<T>>, ghost k: nat) returns (r: bool)
    requires IsList(head, s) && k < |s| && s[k] == node
    ensures r <==> k == |s| - 1
  {
    ghost var a := [head] + s;
    RingNode(a, k + 1);
    assert k + 1 < |s| ==> Differ(a, k + 2, 0);
    r := node.next == head;
  }

  /** list_rotate_left. */
  method ListRotateLeft<T>(head: ListHead<T>, ghost s: seq<ListHead<T>>)
    requires IsList(head, s)
    modifies head`next, head`prev, s`next, s`prev
    ensures IsList(head, if s == [] then [] else s[1..] + [s[0]])
  {
    ghost var a := [head] + s;
    var empty := ListEmpty(head, s);
    if !empty {
      RingNode(a, 0);
      RingNode(a, 1);
      var first := head.next;
      assert s == [] + [first] + s[1..];
      NeighboursInRing(a, first);
      ListMoveTail(first, head, head, [], s[1..], []);
      assert [] + s[1..] + [first] == s[1..] + [s[0]];
    }
  }

  /** __list_cut_position. */
  method CutAfter<T>(list: ListHead<T>, head: ListHead<T>, entry: ListHead<T>,
                     ghost before: seq<ListHead<T>>, ghost after: seq<ListHead<T>>)
    requires IsList(head, before + [entry] + after) && Linked(entry) && list !in [head] + (before + [entry] + after)
    modifies list`next, list`prev, head`next, head.next`prev, entry`next, entry.next`prev
    ensures IsRing([list] + (before + [entry])) && IsRing([head] + after)
  {
    ghost var a, n := [head] + (before + [entry] + after), |before|;
    DistinctParts(head, list, before + [entry], after);
    RingNode(a, 0);
    RingNode(a, n + 1);
    assert a[0] == head && a[n + 1] == entry && LinkAt(a, n + 1);
    ghost var m := After(a, n + 1);
    var newFirst := entry.next;
    list.next := head.next;
    list.next.prev := list;
    list.prev := entry;
    entry.next := list;
    head.next := newFirst;
    newFirst.prev := head;
    assert Differ(a, 0, n + 1) && Differ(a, 1, m);
    ghost var b, c := [list] + (before + [entry]), [head] + after;
    assert forall i :: 1 <= i < |b| ==> b[i] == a[i];
    assert forall i :: 1 <= i < |c| ==> c[i] == a[i + n + 1];
    forall i: nat | i < |b| ensures LinkAt(b, i) {
      if 0 < i <= n {
        assert old(LinkAt(a, i));
        assert Differ(a, i, n + 1) && Differ(a, i, 0) && Differ(a, i + 1, 1) && Differ(a, i + 1, m);
      }
    }
    forall i: nat | i < |c| ensures LinkAt(c, i) {
      if i > 0 {
        var k := i + n + 1;
        assert old(LinkAt(a, k));
        assert Differ(a, k, n + 1) && Differ(a, k, 0) && Differ(a, After(a, k), 1) && Differ(a, After(a, k), m);
      }
    }
  }

  /** list_cut_position: entry is the k-th of head and its nodes; the first k
      nodes go to list. An empty head is left alone, and so is a list of one
      node that entry is not on. */
  method ListCutPosition<T>(list: ListHead<T>, head: ListHead<T>, entry: ListHead<T>,
                            ghost s: seq<ListHead<T>>, ghost k: nat)
    requires IsList(head, s) && Linked(entry) && list !in [head] + s
    requires entry in [head] + s ==> k <= |s| && entry == ([head] + s)[k]
    requires |s| > 1 ==> entry in [head] + s
    modifies list`next, list`prev, head`next, head.next`prev, entry`next, entry.next`prev
    ensures s != [] && entry in [head] + s ==> IsList(list, s[..k]) && IsList(head, s[k..])
    ensures s == [] || entry !in [head] + s ==>
              IsList(head, s) && list.next == old(list.next) && list.prev == old(list.prev)
  {
    ghost var a := [head] + s;
    RingNode(a, 0);
    var empty := ListEmpty(head, s);
    if empty {
      return;
    }
    var singular := ListIsSingular(head, s);
    if singular && head.next != entry && head != entry {
      return;
    }
    assert a[1] == s[0];
    if entry == head {
      assert k > 0 ==> Differ(a, k, 0);
      InitListHead(list);
      assert s[..k] == [] && s[k..] == s;
    } else {
      assert a[k] == s[k - 1];
      assert s == s[..k - 1] + [entry] + s[k..];
      CutAfter(list, head, entry, s[..k - 1], s[k..]);
      assert s[..k] == s[..k - 1] + [entry];
      RingIsList(list, s[..k]);
      RingIsList(head, s[k..]);
    }
  }

  /** __list_splice: the nodes of list between the k-th node prev of b and its successor next. */
  method SpliceBetween<T>(list: ListHead<T>, prev: ListHead<T>, next: ListHead<T>,
                          ghost t: seq<ListHead<T>>, ghost b: seq<ListHead<T>>, ghost k: nat)
    requires IsList(list, t) && t != [] && IsRing(b) && k < |b| && prev == b[k] && prev.next == next
    requires Apart([list] + t, b)
    modifies list.next`prev, list.prev`next, prev`next, next`prev
    ensures IsRing(Spliced(b, k, t))
  {
    ghost var a, c, n := [list] + t, Spliced(b, k, t), |t|;
    RingNode(a, 0);
    RingNode(b, k);
    assert LinkAt(b, k) && LinkAt(a, 0) && LinkAt(a, n);
    DistinctSpliced(b, k, list, t);
    var first := list.next;
    var last := list.prev;
    assert first == a[1] && last == a[n] && a[1] in a && a[n] in a && b[k] in b && b[After(b, k)] in b;
    first.prev := prev;
    prev.next := first;
    last.next := next;
    next.prev := last;
    forall i: nat | i < |c| ensures LinkAt(c, i) {
      if k < i < k + n {
        assert old(LinkAt(a, i - k));
        assert c[i] == a[i - k] && c[i + 1] == a[i - k + 1] && a[i - k] in a && a[i - k + 1] in a;
        assert Differ(a, i - k, n) && Differ(a, i - k + 1, 1);
      } else if i == k || i == k + n {
        assert c[k] == b[k] && c[k + 1] == a[1] && c[k + n] == a[n] && c[After(c, k + n)] == b[After(b, k)];
      } else {
        var i' := if i < k then i else i - n;
        assert old(LinkAt(b, i'));
        assert c[i] == b[i'] && c[After(c, i)] == b[After(b, i')] && b[i'] in b && b[After(b, i')] in b;
        assert Differ(b, i', k) && Differ(b, After(b, i'), After(b, k));
      }
    }
  }

  /** list_splice: all of t to the front of head's list; list itself is left stale. */
  method ListSplice<T>(list: ListHead<T>, head: ListHead<T>, ghost t: seq<ListHead<T>>, ghost s: seq<ListHead<T>>)
    requires IsList(list, t) && IsList(head, s) && Apart([list] + t, [head] + s)
    modifies list.next`prev, list.prev`next, head`next, head.next`prev
    ensures IsList(head, t + s)
  {
    var empty := ListEmpty(list, t);
    if !empty {
      SpliceBetween(list, head, head.next, t, [head] + s, 0);
      assert Spliced([head] + s, 0, t) == [head] + (t + s);
      RingIsList(head, t + s);
    } else {
      assert t + s == s;
    }
  }

  /** list_splice_tail: all of t to the end of head's list. */
  method ListSpliceTail<T>(list: ListHead<T>, head: ListHead<T>, ghost t: seq<ListHead<T>>, ghost s: seq<ListHead<T>>)
    requires IsList(list, t) && IsList(head, s) && Apart([list] + t, [head] + s)
    modifies list.next`prev, list.prev`next, head`prev, head.prev`next
    ensures IsList(head, s + t)
  {
    var empty := ListEmpty(list, t);
    if !empty {
      ghost var a := [head] + s;
      RingNode(a, 0);
      RingNode(a, |s|);
      SpliceBetween(list, head.prev, head, t, a, |s|);
      assert Spliced(a, |s|, t) == [head] + (s + t);
      RingIsList(head, s + t);
    } else {
      assert s + t == s;
    }
  }

  lemma HeadsDiffer<T>(list: T, t: seq<T>, head: T, s: seq<T>)
    requires Distinct([list] + t) && Apart([list] + t, [head] + s)
    ensures list !in [head] + (t + s) && list !in [head] + (s + t)
  {
    var a := [list] + t;
    assert a[0] in a;
    forall i | 0 <= i < |t| ensures t[i] != list {
      assert Differ(a, i + 1, 0);
    }
  }

  /** list_splice_init: the emptied list becomes an empty ring of its own. */
  method ListSpliceInit<T>(list: ListHead<T>, head: ListHead<T>, ghost t: seq<ListHead<T>>, ghost s: seq<ListHead<T>>)
    requires IsList(list, t) && IsList(head, s) && Apart([list] + t, [head] + s)
    modifies list`next, list`prev, list.next`prev, list.prev`next, head`next, head.next`prev
    ensures IsList(head, t + s) && IsList(list, [])
  {
    HeadsDiffer(list, t, head, s);
    var empty := ListEmpty(list, t);
    if !empty {
      ListSplice(list, head, t, s);
      InitListHead(list);
    } else {
      assert t + s == s;
    }
  }

  /** list_splice_tail_init. */
  method ListSpliceTailInit<T>(list: ListHead<T>, head: ListHead<T>,
                               ghost t: seq<ListHead<T>>, ghost s: seq<ListHead<T>>)
    requires IsList(list, t) && IsList(head, s) && Apart([list] + t, [head] + s)
    modifies list`next, list`prev, list.next`prev, list.prev`next, head`prev, head.prev`next
    ensures IsList(head, s + t) && IsList(list, [])
  {
    HeadsDiffer(list, t, head, s);
    var empty := ListEmpty(list, t);
    if !empty {
      ListSpliceTail(list, head, t, s);
      InitListHead(list);
    } else {
      assert s + t == s;
    }
  }

  lemma CutApart<T>(list: T, head: T, s: seq<T>, k: nat)
    requires Distinct([head] + s) && list !in [head] + s && k <= |s|
    ensures Apart([list] + s[..k], [head] + s[k..])
  {
    var a := [head] + s;
    assert a[0] in a;
    forall i, j | 0 <= i < k && 0 <= j < |s| - k ensures s[..k][i] != s[k..][j] {
      assert Differ(a, i + 1, k + j + 1);
    }
    forall i | 0 <= i < k ensures s[..k][i] != head {
      assert Differ(a, i + 1, 0);
    }
  }

  lemma CutMembers<T>(list: T, head: T, s: seq<T>, k: nat)
    requires k <= |s|
    ensures forall x :: x in [list] + s[..k] ==> x == list || x in [head] + s
    ensures forall x :: x in [head] + s[k..] ==> x in [head] + s
  {
  }

  /** The links determine the nodes and their order. */
  lemma {:induction false} ListIsUnique<T>(head: ListHead<T>, s: seq<ListHead<T>>, t: seq<ListHead<T>>, k: nat)
    requires IsList(head, s) && IsList(head, t) && k <= |s| && k <= |t|
    ensures s[..k] == t[..k] && (k == |s| <==> k == |t|)
  {
    var a, b := [head] + s, [head] + t;
    if k > 0 {
      ListIsUnique(head, s, t, k - 1);
      assert LinkAt(a, k - 1) && LinkAt(b, k - 1);
      assert k >= 2 ==> s[..k - 1][k - 2] == t[..k - 1][k - 2];
      assert a[k - 1] == b[k - 1];
      assert a[k] == b[k];
    }
    assert LinkAt(a, k) && LinkAt(b, k);
    assert k < |s| ==> Differ(a, k + 1, 0);
    assert k < |t| ==> Differ(b, k + 1, 0);
  }

  /** Cut at the k-th node, then splice back: a list with nodes is restored,
      order and all, whatever list was before. */
  method CutThenSplice<T>(list: ListHead<T>, head: ListHead<T>, entry: ListHead<T>,
                          ghost s: seq<ListHead<T>>, ghost k: nat)
    requires IsList(head, s) && s != [] && k <= |s| && entry == ([head] + s)[k] && Linked(entry) && list !in [head] + s
    modifies list`next, list`prev, head`next, head`prev, s`next, s`prev
    ensures IsList(head, s)
  {
    ghost var a := [head] + s;
    assert entry in a && head in a;
    NeighboursInRing(a, head);
    NeighboursInRing(a, entry);
    CutApart(list, head, s, k);
    CutMembers(list, head, s, k);
    ListCutPosition(list, head, entry, s, k);
    NeighboursInRing([list] + s[..k], list);
    NeighboursInRing([head] + s[k..], head);
    ListSplice(list, head, s[..k], s[k..]);
    assert s[..k] + s[k..] == s;
  }

  /** An empty list is not cut, so it takes what was on list: it is restored
      if and only if list was empty too. */
  method CutThenSpliceEmpty<T>(list: ListHead<T>, head: ListHead<T>, ghost t: seq<ListHead<T>>)
    requires IsList(head, []) && IsList(list, t) && Apart([list] + t, [head] + [])
    modifies list`next, list`prev, head`next, head`prev, t`next, t`prev
    ensures IsList(head, t) && (IsList(head, []) <==> t == [])
  {
    ghost var a := [head] + [];
    assert ([list] + t)[0] in [list] + t && head in a;
    NeighboursInRing(a, head);
    NeighboursInRing([list] + t, list);
    ListCutPosition(list, head, head, [], 0);
    NeighboursInRing(a, head);
    NeighboursInRing([list] + t, list);
    ListSplice(list, head, t, []);
    assert t + [] == t;
    if IsList(head, []) {
      ListIsUnique(head, t, [], 0);
    }
  }
}
