/** The doubly linked list under every retire list (src/double_llist.c). */
module DoubleLlist {
  import opened Addresses

  /** A retired node and when it was retired. */
  datatype Item = Item(node: Node, created: int)

  /** mr_node_t: the wrapper that stands in a list for a retired node. */
  class MrNode {
    const item: Item
    var prev: MrNode?
    var next: MrNode?

    constructor (item: Item)
      ensures this.item == item && prev == null && next == null
    {
      this.item := item;
      prev, next := null, null;
    }
  }

  function Items(nodes: seq<MrNode>): (items: seq<Item>)
    ensures |items| == |nodes| && forall i :: 0 <= i < |nodes| ==> items[i] == nodes[i].item
  {
    seq(|nodes|, i requires 0 <= i < |nodes| => nodes[i].item)
  }

  ghost predicate NeighboursOk(nodes: seq<MrNode>, i: nat)
    requires i < |nodes|
    reads nodes
  {
    && (if i == 0 then nodes[i].prev == null else nodes[i].prev == nodes[i - 1])
    && (if i == |nodes| - 1 then nodes[i].next == null else nodes[i].next == nodes[i + 1])
  }

  /** The wrappers are distinct and each one's prev and next are its neighbours. */
  ghost predicate Chained(nodes: seq<MrNode>)
    reads nodes
  {
    && (forall i, j :: 0 <= i < j < |nodes| ==> nodes[i] != nodes[j])
    && (forall i :: 0 <= i < |nodes| ==> NeighboursOk(nodes, i))
  }

  class DoubleList {
    var head: MrNode?
    var tail: MrNode?
    var size: nat
    /** The wrappers in the list, head first. */
    ghost var nodes: seq<MrNode>

    ghost predicate Valid()
      reads this, nodes
    {
      && size == |nodes| && Chained(nodes)
      && head == (if nodes == [] then null else nodes[0])
      && tail == (if nodes == [] then null else nodes[|nodes| - 1])
    }

    /** init */
    constructor ()
      ensures Valid() && nodes == []
    {
      head, tail, size, nodes := null, null, 0, [];
    }

    method Init()
      modifies this
      ensures Valid() && nodes == []
    {
      head, tail, size, nodes := null, null, 0, [];
    }

    method AddToHead(node: MrNode)
      requires Valid() && node !in nodes
      modifies this, node, nodes
      ensures Valid() && nodes == [node] + old(nodes)
    {
      ghost var rest := nodes;
      assert rest != [] ==> rest[0] in rest && NeighboursOk(rest, 0);
      node.next := head;
      node.prev := null;
      if head == null {
        tail := node;
      } else {
        head.prev := node;
      }
      head := node;
      size := size + 1;
      nodes := [node] + rest;
      forall i | 0 <= i < |nodes| ensures NeighboursOk(nodes, i) {
        assert i > 0 ==> nodes[i] == rest[i - 1] && old(NeighboursOk(rest, i - 1));
      }
    }

    method RemoveFromTail() returns (res: MrNode?)
      requires Valid()
      modifies this, nodes
      ensures Valid()
      ensures if old(nodes) == [] then res == null && nodes == []
              else nodes == old(nodes)[..|old(nodes)| - 1] && res == old(nodes)[|old(nodes)| - 1] && res !in nodes
                   && res.prev == null && res.next == null
    {
      if tail == null {
        return null;
      }
      ghost var all := nodes;
      ghost var last := |all| - 1;
      assert NeighboursOk(all, last) && all[last] in all && (last > 0 ==> all[last - 1] in all && NeighboursOk(all, last - 1));
      res := tail;
      tail := res.prev;
      if tail != null {
        tail.next := null;
      } else {
        head := null;
      }
      res.prev := null;
      size := size - 1;
      nodes := all[..last];
      forall i | 0 <= i < last ensures NeighboursOk(nodes, i) {
        assert old(NeighboursOk(all, i)) && nodes[i] == all[i];
      }
    }

    /** remove_node: the caller knows that node is in the list, at position i. */
    method RemoveNode(node: MrNode, ghost i: nat)
      requires Valid() && i < |nodes| && nodes[i] == node
      modifies this, nodes
      ensures Valid() && nodes == old(nodes)[..i] + old(nodes)[i + 1..]
      ensures node.prev == old(node.prev) && node.next == old(node.next)
    {
      ghost var all := nodes;
      ghost var rest := all[..i] + all[i + 1..];
      assert NeighboursOk(all, i);
      assert i > 0 ==> all[i - 1] in all && NeighboursOk(all, i - 1);
      assert i < |all| - 1 ==> all[i + 1] in all && NeighboursOk(all, i + 1);
      if node.prev != null {
        node.prev.next := node.next;
      } else {
        head := node.next;
      }
      if node.next != null {
        node.next.prev := node.prev;
      } else {
        tail := node.prev;
      }
      size := size - 1;
      nodes := rest;
      forall j | 0 <= j < |rest| ensures NeighboursOk(rest, j) {
        ghost var k := if j < i then j else j + 1;
        assert rest[j] == all[k] && old(NeighboursOk(all, k));
        assert j + 1 < |rest| ==> rest[j + 1] == all[if j + 1 < i then j + 1 else j + 2];
        assert j > 0 ==> rest[j - 1] == all[if j - 1 < i then j - 1 else j];
      }
    }

    /** The three assignments with which the scans move a whole list into a local one, and init. */
    method Take(other: DoubleList)
      requires other.Valid() && other != this
      modifies this, other
      ensures Valid() && other.Valid() && nodes == old(other.nodes) && other.nodes == []
    {
      head := other.head;
      tail := other.tail;
      size := other.size;
      nodes := other.nodes;
      other.Init();
    }
  }

  /** No wrapper stands in both lists. */
  ghost predicate Apart(a: DoubleList, b: DoubleList)
    reads a, b
  {
    a != b && forall x :: x in a.nodes ==> x !in b.nodes
  }

  /** remove_from_tail(from), then add_to_head(onto). */
  method MoveTail(from: DoubleList, onto: DoubleList) returns (x: MrNode)
    requires from.Valid() && onto.Valid() && Apart(from, onto) && from.nodes != []
    modifies from, onto, from.nodes, onto.nodes
    ensures from.Valid() && onto.Valid() && Apart(from, onto)
    ensures from.nodes == old(from.nodes)[..|old(from.nodes)| - 1] && x == old(from.nodes)[|old(from.nodes)| - 1]
    ensures onto.nodes == [x] + old(onto.nodes)
  {
    ghost var all := from.nodes;
    x := from.RemoveFromTail();
    assert x in all && forall y :: y in from.nodes ==> y in all;
    Untouched(onto);
    label A:
    onto.AddToHead(x);
    Untouched@A(from);
  }

  /** add_to_head(l, remove_from_tail(l)). */
  method TailToHead(l: DoubleList) returns (x: MrNode)
    requires l.Valid() && l.nodes != []
    modifies l, l.nodes
    ensures l.Valid() && l.nodes == [x] + old(l.nodes)[..|old(l.nodes)| - 1] && x == old(l.nodes)[|old(l.nodes)| - 1]
  {
    ghost var all := l.nodes;
    x := l.RemoveFromTail();
    assert x in all;
    l.AddToHead(x);
  }

  /** remove_from_tail(l); other is a list beside it. */
  method DropTail(l: DoubleList, other: DoubleList) returns (x: MrNode)
    requires l.Valid() && other.Valid() && Apart(l, other) && l.nodes != []
    modifies l, l.nodes
    ensures l.Valid() && other.Valid() && Apart(l, other) && other.nodes == old(other.nodes)
    ensures l.nodes == old(l.nodes)[..|old(l.nodes)| - 1] && x == old(l.nodes)[|old(l.nodes)| - 1]
  {
    hide Chained;
    ghost var all := l.nodes;
    x := l.RemoveFromTail();
    assert x in all && forall y :: y in l.nodes ==> y in all;
    Untouched(other);
  }

  /** A new wrapper for x goes to the head of l. */
  method WrapAlone(l: DoubleList, x: Item) returns (w: MrNode)
    requires l.Valid()
    modifies l, l.nodes
    ensures fresh(w) && w.item == x && l.Valid() && l.nodes == [w] + old(l.nodes)
    ensures Items(l.nodes) == [x] + Items(old(l.nodes))
  {
    hide Chained;
    w := new MrNode(x);
    l.AddToHead(w);
  }

  /** A new wrapper for x goes to the head of l; other is a list beside it. */
  method Wrap(l: DoubleList, other: DoubleList, x: Item) returns (w: MrNode)
    requires l.Valid() && other.Valid() && Apart(l, other)
    modifies l, l.nodes
    ensures fresh(w) && w.item == x && l.Valid() && other.Valid() && Apart(l, other)
    ensures l.nodes == [w] + old(l.nodes) && other.nodes == old(other.nodes)
  {
    hide Chained;
    w := WrapAlone(l, x);
    Untouched(other);
  }

  /** A list none of whose wrappers was touched is still a list. */
  twostate lemma Untouched(l: DoubleList)
    requires old(l.Valid()) && l.head == old(l.head) && l.tail == old(l.tail) && l.size == old(l.size)
             && l.nodes == old(l.nodes)
    requires forall x :: x in l.nodes ==> x.prev == old(x.prev) && x.next == old(x.next)
    ensures l.Valid()
  {
    forall i | 0 <= i < |l.nodes| ensures NeighboursOk(l.nodes, i) {
      assert old(NeighboursOk(l.nodes, i));
    }
  }
}
