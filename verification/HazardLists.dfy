/** The scans on their lists, one class per source file: src/smr.c and src/smr_no_membar_opt.c on the
    doubly linked list, src/smr_no_membar.c on its singly linked one. */
module HazardLists {
  import opened Addresses
  import opened DoubleLlist
  import opened ItemLists
  import opened Timing
  import opened HazardScan
  import opened ScanVerdicts
  import opened Bloom

  /** Stage 1 of the scans: plist has room for one entry per slot, and never needs more. */
  method ReadSlots(hp: array<Node>, plist: array<Node>) returns (psize: nat)
    requires plist.Length == hp.Length && plist != hp
    modifies plist
    ensures psize <= plist.Length && plist[..psize] == Hazards(hp[..])
  {
    psize := 0;
    var i := 0;
    while i < hp.Length
      invariant 0 <= psize <= i <= hp.Length && plist[..psize] == Hazards(hp[..i])
    {
      assert hp[..i + 1][..i] == hp[..i];
      if hp[i] != 0 {
        plist[psize] := hp[i];
        psize := psize + 1;
      }
      i := i + 1;
    }
    assert hp[..] == hp[..hp.Length];
  }

  method Ssearch(list: array<Node>, size: nat, key: Node) returns (found: bool)
    requires size <= list.Length
    ensures found <==> key in list[..size]
  {
    var i := 0;
    while i < size
      invariant 0 <= i <= size && key !in list[..i]
    {
      if list[i] == key {
        return true;
      }
      i := i + 1;
    }
    return false;
  }

  /** src/smr.c */
  class Smr {
    const rlist: DoubleList
    const plist: array<Node>
    var rcount: int
    var freed: seq<Node>
    ghost var Repr: set<object>

    ghost predicate Valid()
      reads this, Repr
    {
      && this in Repr && rlist in Repr && plist in Repr && (forall x :: x in rlist.nodes ==> x in Repr)
      && rlist.Valid()
    }

    ghost function View(): Retired
      reads this, rlist
    {
      Retired(Items(rlist.nodes), rcount, freed)
    }

    constructor (h: nat)
      ensures Valid() && fresh(Repr) && plist.Length == h && View() == Retired([], 0, [])
    {
      rlist := new DoubleList();
      plist := new Node[h];
      rcount, freed := 0, [];
      new;
      Repr := {this, rlist, plist};
    }

    /** A list of wrappers of this object that is not rlist. */
    ghost predicate Aside(l: DoubleList)
      reads this, l, l.nodes, rlist
    {
      && l in Repr && (forall x :: x in l.nodes ==> x in Repr) && l.Valid() && Apart(l, rlist)
    }

    /** The oldest node of tmplist is hazardous: it goes to the head of rlist. */
    method Keep(tmplist: DoubleList)
      requires Valid() && Aside(tmplist) && tmplist.nodes != []
      modifies `rcount, rlist, rlist.nodes, tmplist, tmplist.nodes
      ensures Valid() && Aside(tmplist)
      ensures tmplist.nodes == old(tmplist.nodes)[..|old(tmplist.nodes)| - 1]
      ensures Items(rlist.nodes) == [LastOf(old(Items(tmplist.nodes)))] + old(Items(rlist.nodes)) && rcount == old(rcount) + 1
    {
      hide Chained;
      ghost var rest, kept := tmplist.nodes, rlist.nodes;
      var cur := MoveTail(tmplist, rlist);
      assert cur in rest && LastOf(Items(rest)) == cur.item;
      assert Items(rlist.nodes) == [cur.item] + Items(kept);
      rcount := rcount + 1;
    }

    /** It is not: it is freed. */
    method Drop(tmplist: DoubleList)
      requires Valid() && Aside(tmplist) && tmplist.nodes != []
      modifies `freed, tmplist, tmplist.nodes
      ensures Valid() && Aside(tmplist) && rlist.nodes == old(rlist.nodes)
      ensures tmplist.nodes == old(tmplist.nodes)[..|old(tmplist.nodes)| - 1]
      ensures freed == old(freed) + [LastOf(old(Items(tmplist.nodes))).node]
    {
      hide Chained;
      ghost var rest := tmplist.nodes;
      var cur := DropTail(tmplist, rlist);
      assert cur in rest && LastOf(Items(rest)) == cur.item;
      freed := freed + [cur.item.node];
    }

    /** One round of the loop in scan: the oldest node of tmplist is kept or freed. */
    method Judge(tmplist: DoubleList, psize: nat)
      requires Valid() && Aside(tmplist) && tmplist.nodes != [] && psize <= plist.Length
      modifies `rcount, `freed, rlist, rlist.nodes, tmplist, tmplist.nodes
      ensures Valid() && Aside(tmplist)
      ensures tmplist.nodes == old(tmplist.nodes)[..|old(tmplist.nodes)| - 1]
      ensures var p := plist[..psize];
              var x := LastOf(old(Items(tmplist.nodes)));
              if x.node in p then
                Items(rlist.nodes) == [x] + old(Items(rlist.nodes)) && rcount == old(rcount) + 1 && freed == old(freed)
              else rlist.nodes == old(rlist.nodes) && rcount == old(rcount) && freed == old(freed) + [x.node]
    {
      assert tmplist.tail in tmplist.nodes && LastOf(Items(tmplist.nodes)) == tmplist.tail.item;
      var hazardous := Ssearch(plist, psize, tmplist.tail.item.node);
      hide *;
      if hazardous {
        Keep(tmplist);
      } else {
        Drop(tmplist);
      }
    }

    /** Stage 3: every node of tmplist, oldest first. */
    method JudgeAll(tmplist: DoubleList, psize: nat)
      requires Valid() && Aside(tmplist) && psize <= plist.Length && rlist.nodes == [] && rcount == 0
      modifies Repr
      ensures Valid() && Repr == old(Repr)
      ensures var q, p := old(Items(tmplist.nodes)), old(plist[..psize]);
              View() == Retired(Kept(q, p), |Kept(q, p)|, old(freed) + Dropped(q, p))
    {
      hide Chained, Scanned, Kept, Dropped;
      ghost var q, p := Items(tmplist.nodes), plist[..psize];
      ScanStarts(q, p, freed);
      assert Items(rlist.nodes) == [];
      while tmplist.size > 0
        invariant Valid() && Aside(tmplist) && Repr == old(Repr) && plist[..psize] == p && rcount == |rlist.nodes|
        invariant Scanned(q, p, old(freed), Items(tmplist.nodes), Items(rlist.nodes), freed)
        decreases |tmplist.nodes|
      {
        ghost var rest := Items(tmplist.nodes);
        ScanGoesOn(q, p, old(freed), rest, Items(rlist.nodes), freed);
        Judge(tmplist, psize);
        assert Front(rest) == Items(tmplist.nodes);
      }
      assert Items(tmplist.nodes) == [];
      ScanEnds(q, p, old(freed), Items(rlist.nodes), freed);
    }

    method ScanAll(hp: array<Node>)
      requires Valid() && plist.Length == hp.Length && hp !in Repr
      modifies Repr
      ensures Valid() && fresh(Repr - old(Repr)) && View() == Scan(old(View()), hp[..])
    {
      hide Chained, Hazards, Kept, Dropped;
      var psize := ReadSlots(hp, plist);
      rcount := 0;
      var tmplist := new DoubleList();
      tmplist.Take(rlist);
      Repr := Repr + {tmplist};
      JudgeAll(tmplist, psize);
    }

    method FreeNodeLater(hp: array<Node>, n: Node, created: int)
      requires Valid() && plist.Length == hp.Length && hp !in Repr
      modifies Repr
      ensures Valid() && fresh(Repr - old(Repr)) && View() == HazardScan.Retire(old(View()), hp[..], Item(n, created))
    {
      hide Chained;
      var wrapper := WrapAlone(rlist, Item(n, created));
      rcount := rcount + 1;
      Repr := Repr + {wrapper};
      if rcount >= Threshold(hp.Length) {
        ScanAll(hp);
      }
    }
  }

  ghost predicate NextOk(nodes: seq<MrNode>, i: nat)
    requires i < |nodes|
    reads nodes
  {
    nodes[i].next == if i + 1 < |nodes| then nodes[i + 1] else null
  }

  /** A singly linked list: each wrapper's next is the one behind it. */
  ghost predicate Strung(head: MrNode?, nodes: seq<MrNode>)
    reads nodes
  {
    && (forall i, j :: 0 <= i < j < |nodes| ==> nodes[i] != nodes[j])
    && head == (if nodes == [] then null else nodes[0])
    && forall i :: 0 <= i < |nodes| ==> NextOk(nodes, i)
  }

  lemma StrungTail(head: MrNode, nodes: seq<MrNode>)
    requires Strung(head, nodes)
    ensures nodes != [] && head == nodes[0] && head !in nodes[1..] && Strung(head.next, nodes[1..])
  {
    var rest := nodes[1..];
    assert NextOk(nodes, 0);
    forall i | 0 <= i < |rest| ensures NextOk(rest, i) {
      assert NextOk(nodes, i + 1) && rest[i] == nodes[i + 1];
    }
  }

  ghost predicate Disjoint(a: seq<MrNode>, b: seq<MrNode>) {
    forall x :: x in a ==> x !in b
  }

  /** src/smr_no_membar.c: of rlist only head and mr_next are used, so popping its head and pushing on a new head turns
      it round. */
  class NoMembar {
    const plist: array<Node>
    var head: MrNode?
    var rcount: int
    var freed: seq<Node>
    /** The wrappers in rlist, head first. */
    ghost var nodes: seq<MrNode>

    ghost predicate Valid()
      reads this, nodes
    {
      Strung(head, nodes)
    }

    ghost function View(): Retired
      reads this
    {
      Retired(Items(nodes), rcount, freed)
    }

    constructor (h: nat)
      ensures Valid() && fresh(plist) && plist.Length == h && View() == Retired([], 0, [])
    {
      plist := new Node[h];
      head, nodes, rcount, freed := null, [], 0, [];
    }

    /** A wrapper goes to the head of rlist; rest is a list beside it. */
    method Push(cur: MrNode, rest: MrNode?, ghost others: seq<MrNode>)
      requires Valid() && cur !in nodes && cur !in others && Strung(rest, others) && Disjoint(others, nodes)
      modifies this`head, this`nodes, this`rcount, cur
      ensures Valid() && nodes == [cur] + old(nodes) && rcount == old(rcount) + 1
      ensures Strung(rest, others) && Disjoint(others, nodes) && Items(nodes) == [cur.item] + old(Items(nodes))
    {
      ghost var kept := nodes;
      cur.next := head;
      head := cur;
      nodes := [cur] + nodes;
      rcount := rcount + 1;
      forall i | 0 <= i < |nodes| ensures NextOk(nodes, i) {
        assert i > 0 ==> nodes[i] == kept[i - 1] && kept[i - 1] in kept && old(NextOk(kept, i - 1));
      }
      forall i | 0 <= i < |others| ensures NextOk(others, i) {
        assert others[i] in others && old(NextOk(others, i));
      }
    }

    /** One round of the loop in scan, at the head of tmplist; todo is what tmplist has. */
    method Round(cur: MrNode, psize: nat, now: int, ghost todo: seq<MrNode>) returns (rest: MrNode?)
      requires Valid() && Strung(cur, todo) && Disjoint(todo, nodes) && psize <= plist.Length
      modifies this`head, this`nodes, this`rcount, this`freed, cur
      ensures Valid() && todo != [] && cur == todo[0] && Strung(rest, todo[1..]) && Disjoint(todo[1..], nodes)
      ensures if !IsOldEnough(cur.item.created, now) || cur.item.node in plist[..psize] then
                nodes == [cur] + old(nodes) && Items(nodes) == [cur.item] + old(Items(nodes)) && rcount == old(rcount) + 1
                    && freed == old(freed)
              else nodes == old(nodes) && rcount == old(rcount) && freed == old(freed) + [cur.item.node]
    {
      StrungTail(cur, todo);
      rest := cur.next;
      var hazardous := Ssearch(plist, psize, cur.item.node);
      hide IsOldEnough, Strung;
      if !IsOldEnough(cur.item.created, now) || hazardous {
        Push(cur, rest, todo[1..]);
      } else {
        freed := freed + [cur.item.node];
      }
    }

    /** clock(i) is what the i-th call of gettimeofday returns. */
    method ScanAll(hp: array<Node>, clock: nat -> int)
      requires Valid() && plist.Length == hp.Length && plist != hp
      modifies this, plist, nodes
      ensures Valid() && View() == AgedScan(old(View()), hp[..], clock)
    {
      hide Hazards, IsOldEnough, AgedScanned, AgedKept, AgedDropped;
      var psize := ReadSlots(hp, plist);
      ghost var q, p := Items(nodes), plist[..psize];
      var tmplist := head;
      ghost var todo := nodes;
      head := null;
      nodes := [];
      rcount := 0;
      var i := 0;
      AgedStarts(q, p, clock, freed);
      assert Items(nodes) == [];
      while tmplist != null
        invariant Valid() && Strung(tmplist, todo) && Disjoint(todo, nodes) && rcount == |nodes|
        invariant forall x :: x in todo ==> x in old(nodes)
        invariant psize <= plist.Length && plist[..psize] == p
        invariant AgedScanned(q, p, clock, old(freed), Items(todo), Items(nodes), freed, i)
        decreases |todo|
      {
        AgedGoesOn(q, p, clock, old(freed), Items(todo), Items(nodes), freed, i);
        assert Items(todo)[1..] == Items(todo[1..]) && tmplist in todo;
        tmplist := Round(tmplist, psize, clock(i), todo);
        todo := todo[1..];
        i := i + 1;
      }
      assert Items(todo) == [];
      AgedEnds(q, p, clock, old(freed), Items(nodes), freed, i);
    }

    /** free_node_later; the node's time stamp is taken before. */
    method FreeNodeLater(hp: array<Node>, n: Node, created: int, clock: nat -> int)
      requires Valid() && plist.Length == hp.Length && plist != hp
      modifies this, plist, nodes
      ensures Valid()
      ensures var r := Retired([Item(n, created)] + old(Items(nodes)), old(rcount) + 1, old(freed));
              View() == if r.rcount >= Threshold(hp.Length) then AgedScan(r, hp[..], clock) else r
    {
      var cur := new MrNode(Item(n, created));
      Push(cur, null, []);
      if rcount >= Threshold(hp.Length) {
        ScanAll(hp, clock);
      }
    }
  }

  /** src/smr_no_membar_opt.c with its three options: a filter in place of plist, and an early exit. */
  class Optimized {
    const rlist: DoubleList
    var rcount: int
    var freed: seq<Node>
    ghost var Repr: set<object>

    ghost predicate Valid()
      reads this, Repr
    {
      && this in Repr && rlist in Repr && (forall x :: x in rlist.nodes ==> x in Repr)
      && rlist.Valid()
    }

    ghost function View(): Retired
      reads this, rlist
    {
      Retired(Items(rlist.nodes), rcount, freed)
    }

    constructor ()
      ensures Valid() && fresh(Repr) && View() == Retired([], 0, [])
    {
      rlist := new DoubleList();
      rcount, freed := 0, [];
      new;
      Repr := {this, rlist};
    }

    /** One round of the walk at the node at position k - 1: remove it where it stands, or leave it. */
    method Visit(cur: MrNode, free: bool, ghost k: nat)
      requires Valid() && 0 < k <= |rlist.nodes| && rlist.nodes[k - 1] == cur
      modifies Repr
      ensures Valid() && Repr == old(Repr) && rcount + |freed| == old(rcount) + |old(freed)| && k - 1 <= |rlist.nodes|
      ensures cur.prev == if k == 1 then null else rlist.nodes[k - 2]
      ensures freed == if free then old(freed) + [cur.item.node] else old(freed)
      ensures Items(rlist.nodes) == Without(old(Items(rlist.nodes)), k, free)
    {
      ghost var all := rlist.nodes;
      assert NeighboursOk(rlist.nodes, k - 1);
      hide Chained, NeighboursOk;
      if free {
        rlist.RemoveNode(cur, k - 1);
        rcount := rcount - 1;
        freed := freed + [cur.item.node];
        assert rlist.nodes == all[..k - 1] + all[k..];
      }
    }

    /** ssearch in plist, or bloom_search if there is a filter. */
    method Search(plist: array<Node>, psize: nat, filter: Filter?, n: Node,
        ghost hazard: Node -> bool) returns (found: bool)
      requires psize <= plist.Length && Searches(plist[..psize], filter, hazard)
      modifies if filter == null then {} else {filter.bf}
      ensures found == hazard(n) && Searches(old(plist[..psize]), filter, hazard)
    {
      if filter == null {
        found := Ssearch(plist, psize, n);
      } else {
        var res := filter.Check(n);
        found := res == 1;
      }
    }

    /** The test of one node at this time: the search is made only for a node that is old enough. */
    method MayFree(plist: array<Node>, psize: nat, filter: Filter?, x: Item, now: int,
        ghost hazard: Node -> bool) returns (free: bool)
      requires psize <= plist.Length && Searches(plist[..psize], filter, hazard)
      modifies if filter == null then {} else {filter.bf}
      ensures free == Freeable(x, hazard, now) && Searches(old(plist[..psize]), filter, hazard)
    {
      free := false;
      if IsOldEnough(x.created, now) {
        var found := Search(plist, psize, filter, x.node, hazard);
        free := !found;
      }
    }

    /** One round of the walk, at the node at position k - 1; the walk goes on at prev. */
    method Round(plist: array<Node>, psize: nat, filter: Filter?, cur: MrNode, now: int,
        ghost hazard: Node -> bool, ghost k: nat) returns (prev: MrNode?)
      requires Valid() && 0 < k <= |rlist.nodes| && rlist.nodes[k - 1] == cur
      requires psize <= plist.Length && Searches(plist[..psize], filter, hazard)
      requires plist !in Repr && (filter != null ==> filter !in Repr && filter.bf !in Repr && filter.bf as object != plist)
      modifies Repr, if filter == null then {} else {filter.bf}
      ensures Valid() && Repr == old(Repr) && k - 1 <= |rlist.nodes|
      ensures Searches(plist[..psize], filter, hazard) && plist[..psize] == old(plist[..psize])
      ensures prev == if k == 1 then null else rlist.nodes[k - 2]
      ensures rcount + |freed| == old(rcount) + |old(freed)|
      ensures var free := Freeable(cur.item, hazard, now);
              && freed == (if free then old(freed) + [cur.item.node] else old(freed))
              && Items(rlist.nodes) == Without(old(Items(rlist.nodes)), k, free)
    {
      hide Freeable, Chained, Without, Searches;
      var free := MayFree(plist, psize, filter, cur.item, now, hazard);
      Visit(cur, free, k);
      prev := cur.prev;
    }

    /** The walk of scan from the oldest node toward the head. hazard is what the search answers, and clock(i) is
        what the i-th call of gettimeofday returns. */
    method Walk(plist: array<Node>, psize: nat, filter: Filter?, ghost hazard: Node -> bool, clock: nat -> int, early: bool)
      requires Valid() && psize <= plist.Length && Searches(plist[..psize], filter, hazard)
      requires plist !in Repr && (filter != null ==> filter !in Repr && filter.bf !in Repr && filter.bf as object != plist)
      modifies Repr, if filter == null then {} else {filter.bf}
      ensures Valid() && Repr == old(Repr)
      ensures Items(rlist.nodes) == WalkKept(old(Items(rlist.nodes)), hazard, clock, 0, early)
      ensures freed == old(freed) + WalkDropped(old(Items(rlist.nodes)), hazard, clock, 0, early)
      ensures rcount == old(rcount) - |WalkDropped(old(Items(rlist.nodes)), hazard, clock, 0, early)|
    {
      hide IsOldEnough, Freeable, Chained, Walked, Without, Searches, WalkKept, WalkDropped;
      ghost var q := Items(rlist.nodes);
      ghost var p := plist[..psize];
      var cur := rlist.tail;
      var i := 0;
      ghost var k: nat := |rlist.nodes|;
      WalkStarts(q, freed, clock, hazard, early);
      while cur != null && !(early && !IsOldEnough(cur.item.created, clock(i)))
        invariant Valid() && Repr == old(Repr) && k <= |rlist.nodes| && i + k == |q|
        invariant Searches(p, filter, hazard) && plist[..psize] == p
        invariant cur == if k == 0 then null else rlist.nodes[k - 1]
        invariant Walked(q, old(freed), clock, hazard, early, Items(rlist.nodes), freed, k)
        invariant rcount + |freed| == old(rcount) + |old(freed)|
        decreases k
      {
        ghost var list := Items(rlist.nodes);
        WalkGoesOn(q, old(freed), clock, hazard, early, list, freed, k);
        cur := Round(plist, psize, filter, cur, clock(i), hazard, k);
        k := k - 1;
        i := i + 1;
      }
      WalkEnds(q, old(freed), clock, hazard, early, Items(rlist.nodes), freed, k);
    }

    /** scan without the filter. */
    method ScanExact(hp: array<Node>, plist: array<Node>, clock: nat -> int, early: bool)
      requires Valid() && plist.Length == hp.Length && plist != hp && plist !in Repr && hp !in Repr
      modifies Repr, plist
      ensures Valid() && Repr == old(Repr)
      ensures var q, hazard := old(Items(rlist.nodes)), Exact(Hazards(hp[..]));
              && Items(rlist.nodes) == WalkKept(q, hazard, clock, 0, early)
              && freed == old(freed) + WalkDropped(q, hazard, clock, 0, early)
              && rcount == old(rcount) - |WalkDropped(q, hazard, clock, 0, early)|
    {
      hide Hazards;
      var psize := ReadSlots(hp, plist);
      Walk(plist, psize, null, Exact(Hazards(hp[..])), clock, early);
    }

    /** free_node_later with that scan */
    method FreeNodeLater(hp: array<Node>, plist: array<Node>, n: Node, created: int, clock: nat -> int, early: bool)
      requires Valid() && plist.Length == hp.Length && plist != hp && plist !in Repr && hp !in Repr
      modifies Repr, plist
      ensures Valid() && fresh(Repr - old(Repr))
      ensures var q, hazard := [Item(n, created)] + old(Items(rlist.nodes)), Exact(Hazards(hp[..]));
              if old(rcount) + 1 >= Threshold(hp.Length) then
                && Items(rlist.nodes) == WalkKept(q, hazard, clock, 0, early)
                && freed == old(freed) + WalkDropped(q, hazard, clock, 0, early)
                && rcount == old(rcount) + 1 - |WalkDropped(q, hazard, clock, 0, early)|
              else Items(rlist.nodes) == q && freed == old(freed) && rcount == old(rcount) + 1
    {
      hide Chained, Hazards, WalkKept, WalkDropped;
      var wrapper := WrapAlone(rlist, Item(n, created));
      rcount := rcount + 1;
      Repr := Repr + {wrapper};
      assert Items(rlist.nodes) == [Item(n, created)] + old(Items(rlist.nodes));
      if rcount >= Threshold(hp.Length) {
        ScanExact(hp, plist, clock, early);
      }
    }

    /** scan with the filter: the walk takes for hazardous exactly what the slots cover. So what it frees is in no slot, and
        scan without the filter would have freed it too; if all slots are NULL it frees the same. */
    method ScanBloom(hp: array<Node>, bits: nat, hashes: nat, hash: Node -> Hash, clock: nat -> int, early: bool)
      requires Valid() && hp !in Repr && bits > 0
      modifies Repr
      ensures Valid() && Repr == old(Repr)
      ensures var q, hazard := old(Items(rlist.nodes)), CoveredBy(hp[..], bits, hashes, hash);
              && Items(rlist.nodes) == WalkKept(q, hazard, clock, 0, early)
              && freed == old(freed) + WalkDropped(q, hazard, clock, 0, early)
              && rcount == old(rcount) - |WalkDropped(q, hazard, clock, 0, early)|
      ensures forall n :: n in freed[|old(freed)|..] ==>
                n !in Hazards(hp[..]) && n in WalkDropped(old(Items(rlist.nodes)), Exact(Hazards(hp[..])), clock, 0, early)
      ensures Hazards(hp[..]) == [] && hashes > 0 ==>
                freed == old(freed) + WalkDropped(old(Items(rlist.nodes)), Exact(Hazards(hp[..])), clock, 0, early)
    {
      hide Hazards, WalkKept, WalkDropped, Covered;
      var filter := new Filter(bits, hashes, hash);
      filter.AddAll(hp);
      var unused := new Node[0];
      ghost var hazard := CoveredBy(hp[..], bits, hashes, hash);
      forall n ensures hazard(n) <==> filter.Contains(n) {
        filter.ContainsIff(hp[..], n);
      }
      ghost var q := Items(rlist.nodes);
      CoveredFrees(q, hp[..], bits, hashes, hash, clock, early);
      Walk(unused, 0, filter, hazard, clock, early);
    }
  }

  /** The answers of a filter of these slots */
  ghost function CoveredBy(slots: seq<Node>, bits: nat, hashes: nat, hash: Node -> Hash): Node -> bool
    requires bits > 0
  {
    (n: Node) => Covered(slots, bits, hashes, hash, n)
  }

  /** Of the nodes that it comes to, the scan with the filter frees exactly those that are old enough at their own reading
      and have a probe that is none of a non-NULL slot's. */
  lemma BloomFreesIff(q: seq<Item>, slots: seq<Node>, bits: nat, hashes: nat, hash: Node -> Hash, clock: nat -> int,
                      early: bool) returns (stop: nat)
    requires bits > 0
    ensures EndsAt(q, clock, 0, early, stop)
    ensures forall n :: n in WalkDropped(q, CoveredBy(slots, bits, hashes, hash), clock, 0, early) <==>
              exists p :: stop <= p < |q| && q[p].node == n && IsOldEnough(q[p].created, clock(ReadingOf(q, 0, p)))
                && exists i :: 0 <= i < hashes && !IsProbe(slots, bits, hashes, hash, Probe(hash(n), i, bits))
  {
    var at;
    var hazard := CoveredBy(slots, bits, hashes, hash);
    stop, at := WalkExactly(q, hazard, clock, early);
    hide WalkDropped, WalkKept, EndsAt, IsOldEnough, IsProbe, Probe;
    var d := WalkDropped(q, hazard, clock, 0, early);
    forall n ensures hazard(n) <==> forall i :: 0 <= i < hashes ==> IsProbe(slots, bits, hashes, hash, Probe(hash(n), i, bits)) {
    }
  }

  lemma CoveredFrees(q: seq<Item>, slots: seq<Node>, bits: nat, hashes: nat, hash: Node -> Hash, clock: nat -> int, early: bool)
    requires bits > 0
    ensures var hazard, exact := CoveredBy(slots, bits, hashes, hash), Exact(Hazards(slots));
            && (forall n :: n in WalkDropped(q, hazard, clock, 0, early) ==>
                  n !in Hazards(slots) && n in WalkDropped(q, exact, clock, 0, early))
            && (Hazards(slots) == [] && hashes > 0 ==>
                  WalkDropped(q, hazard, clock, 0, early) == WalkDropped(q, exact, clock, 0, early))
  {
    var hazard, exact := CoveredBy(slots, bits, hashes, hash), Exact(Hazards(slots));
    forall n ensures exact(n) ==> hazard(n) {
      CoveredCases(slots, bits, hashes, hash, n);
    }
    CoarserFreesLess(q, Hazards(slots), hazard, clock, 0, early);
    if Hazards(slots) == [] && hashes > 0 {
      forall n ensures !hazard(n) {
        assert forall j :: 0 <= j < |slots| ==> slots[j] != 0 ==> slots[j] in Hazards(slots);
        CoveredCases(slots, bits, hashes, hash, n);
      }
      SameAnswers(q, hazard, exact, clock, 0, early);
    }
  }

  /** hazard is what the search answers: membership in the list of slots, or in the filter. */
  ghost predicate Searches(p: seq<Node>, filter: Filter?, hazard: Node -> bool)
    reads filter, if filter == null then {} else {filter.bf}
  {
    if filter == null then forall n :: hazard(n) <==> n in p
    else filter.Valid() && forall n :: hazard(n) <==> filter.Contains(n)
  }
}
