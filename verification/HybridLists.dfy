/** One thread's data in src/hybrid_lazy.c on its four pointer lists. */
module HybridLists {
  import opened Addresses
  import opened Options
  import opened DoubleLlist
  import opened ItemLists
  import opened ListFamily
  import opened Timing
  import opened LazyHybrid

  /** Two views that agree on all lists but one */
  lemma SameBut(a: Lists, b: Lists, j: nat)
    requires Shaped(a) && Shaped(b) && j <= N_EPOCHS
    requires forall i :: 0 <= i <= N_EPOCHS && i != j ==> ListAt(b, i) == ListAt(a, i)
    requires b.cur == a.cur && b.marked == a.marked && b.freed == a.freed
    ensures b == With(a, j, ListAt(b, j)).(rcount := b.rcount)
  {
    forall i | 0 <= i < N_EPOCHS && i != j ensures b.limbo[i] == a.limbo[i] {
      assert ListAt(b, i) == ListAt(a, i);
    }
    if j < N_EPOCHS {
      assert ListAt(b, N_EPOCHS) == ListAt(a, N_EPOCHS);
      assert b.limbo == a.limbo[j := b.limbo[j]];
    } else {
      assert b.limbo == a.limbo;
    }
  }

  /** ltd, HP_cur, the marked fields of the nodes, and what has been handed back to the allocator. */
  class HybridThread {
    /** limbo_list[0] to limbo_list[2], and vlist */
    const lists: seq<DoubleList>
    var hpCur: nat
    var rcount: int
    var marked: set<Node>
    var freed: seq<Node>
    /** The lists and their wrappers. */
    ghost var Repr: set<object>

    ghost predicate Valid()
      reads this, lists, Repr
    {
      |lists| == N_EPOCHS + 1 && this !in Repr && Family(lists, Repr)
    }

    ghost function View(): (a: Lists)
      requires |lists| == N_EPOCHS + 1
      reads this, lists
      ensures Shaped(a) && forall i :: 0 <= i <= N_EPOCHS ==> ListAt(a, i) == Items(lists[i].nodes)
    {
      Lists([Items(lists[0].nodes), Items(lists[1].nodes), Items(lists[2].nodes)], Items(lists[3].nodes), hpCur, rcount,
          marked, freed)
    }

    lemma Sizes()
      requires Valid()
      ensures forall i :: 0 <= i <= N_EPOCHS ==> lists[i].size == |lists[i].nodes|
      ensures forall i :: 0 <= i <= N_EPOCHS && lists[i].nodes != [] ==>
                lists[i].tail != null && lists[i].tail.item == LastOf(Items(lists[i].nodes))
    {
    }

    /** mr_init_local */
    constructor ()
      ensures Valid() && fresh(Repr) && View() == EMPTY
    {
      var ls, repr := EmptyLists(N_EPOCHS + 1);
      lists, Repr := ls, repr;
      hpCur, rcount, marked, freed := 0, 0, {}, [];
    }

    /** remove_from_tail(limbo_list[i]), then add_to_head(vlist), marked. */
    method PromoteTail(i: nat)
      requires Valid() && i < N_EPOCHS && lists[i].nodes != []
      modifies this`marked, Repr
      ensures Valid() && Repr == old(Repr) && View() == Promote(old(View()), i)
    {
      hide Family;
      ghost var a := View();
      var x := Shift(lists, Repr, i, N_EPOCHS);
      marked := marked + {x.item.node};
      assert Items(lists[i].nodes) == Front(a.limbo[i]);
      assert Items(lists[N_EPOCHS].nodes) == [LastOf(a.limbo[i])] + a.vlist;
    }

    /** The tail of list i is handed back. */
    method FreeTail(i: nat)
      requires Valid() && i <= N_EPOCHS && lists[i].nodes != []
      modifies this`freed, Repr
      ensures Valid() && Repr == old(Repr)
      ensures var a := old(View());
              View() == With(a, i, Front(ListAt(a, i))).(freed := a.freed + [LastOf(ListAt(a, i)).node])
    {
      hide Family;
      ghost var a := View();
      var x := TakeTail(lists, Repr, i);
      freed := freed + [x.item.node];
      assert Items(lists[i].nodes) == Front(ListAt(a, i)) && x.item == LastOf(ListAt(a, i));
    }

    method ProcessCallbacks(l: nat)
      requires Valid() && l < N_EPOCHS
      modifies this`freed, this`rcount, Repr
      ensures Valid() && Repr == old(Repr) && View() == Process(old(View()), l)
    {
      hide Family, Nodes;
      ghost var a := View();
      var num := 0;
      Sizes();
      while lists[l].size > 0
        invariant Valid() && Repr == old(Repr) && View() == With(a, l, Items(lists[l].nodes)).(freed := freed)
        invariant lists[l].size == |lists[l].nodes| && lists[l].size + num == |a.limbo[l]|
        invariant freed + Reversed(Nodes(Items(lists[l].nodes))) == a.freed + Reversed(Nodes(a.limbo[l]))
        decreases |lists[l].nodes|
      {
        ProcessRound(Items(lists[l].nodes), freed);
        FreeTail(l);
        num := num + 1;
        Sizes();
      }
      ProcessEnds(Items(lists[l].nodes), freed);
      rcount := rcount - num;
    }

    /** A new wrapper goes to the head of the list of this epoch, and is counted. */
    method Enter(epoch: nat, x: Item)
      requires Valid() && epoch < N_EPOCHS
      modifies this`rcount, this`Repr, Repr
      ensures Valid() && fresh(Repr - old(Repr)) && View() == Enqueue(old(View()), epoch, x)
    {
      hide Family;
      ghost var a := View();
      var w := Push(lists, Repr, epoch, x);
      Repr := Repr + {w};
      rcount := rcount + 1;
    }

    method FreeNodeLater(epoch: nat, x: Item, fallback: bool, hp: array<Option<Node>>, clock: nat -> int)
      requires Valid() && epoch < N_EPOCHS && hpCur < hp.Length && hp !in Repr
      modifies this, Repr
      ensures Valid() && fresh(Repr - old(Repr)) && View() == Retire(old(View()), epoch, x, fallback, hp[..], clock)
    {
      Enter(epoch, x);
      hide Family, Enqueue, UpdateLists;
      if fallback {
        UpdateBoth(hp, clock);
      }
    }

    /** update_lists */
    method UpdateBoth(hp: array<Option<Node>>, clock: nat -> int)
      requires Valid() && hpCur < hp.Length && hp !in Repr
      modifies this, Repr
      ensures Valid() && Repr == old(Repr) && View() == UpdateLists(old(View()), hp[..], clock)
    {
      hide Family, Fill, Rotate;
      var h := hp.Length;
      ghost var a := View();
      FillKeepsCur(a, h, 0, clock, 0);
      var i, k := 0, 0;
      while i < N_EPOCHS
        invariant 0 <= i <= N_EPOCHS && 0 <= k && Valid() && Repr == old(Repr)
        invariant Fill(View(), h, i, clock, k) == Fill(a, h, 0, clock, 0)
        decreases N_EPOCHS - i
      {
        k := FillFrom(i, h, clock, k);
        i := i + 1;
      }
      Sizes();
      FillEnds(View(), h, clock, k);
      if lists[N_EPOCHS].size > h {
        Rotation(hp);
      }
    }

    /** The inner loop of update_lists; the result is the number of clock readings so far. */
    method FillFrom(i: nat, h: nat, clock: nat -> int, k0: nat) returns (k: nat)
      requires Valid() && i < N_EPOCHS
      modifies this`marked, Repr
      ensures Valid() && Repr == old(Repr) && Fill(View(), h, i + 1, clock, k) == Fill(old(View()), h, i, clock, k0)
    {
      k := k0;
      while lists[N_EPOCHS].size <= h && lists[i].tail != null
        invariant Valid() && Repr == old(Repr) && Fill(View(), h, i, clock, k) == Fill(old(View()), h, i, clock, k0)
        decreases |lists[i].nodes|
      {
        assert LastOf(View().limbo[i]) == lists[i].tail.item;
        k := k + 1;
        if !IsOldEnough(lists[i].tail.item.created, clock(k - 1)) {
          return;
        }
        PromoteTail(i);
      }
    }

    method Rotation(hp: array<Option<Node>>)
      requires Valid() && hpCur < hp.Length && hp !in Repr && lists[N_EPOCHS].nodes != []
      modifies this`hpCur, this`marked, this`freed, this`rcount, Repr
      ensures Valid() && Repr == old(Repr) && View() == Rotate(old(View()), hp[..])
    {
      hide Family, Rotate, Turned;
      ghost var a := View();
      RotateParts(a, hp[..]);
      var cur := hp[hpCur];
      if cur.Some? {
        marked := marked + {cur.value};
      }
      hpCur := (hpCur + 1) % hp.Length;
      assert View() == Visited(a, hp[..]);
      TurnTail();
    }

    /** The tail of vlist is marked: it gets a second chance. */
    method SecondChance()
      requires Valid() && lists[N_EPOCHS].nodes != []
      modifies this`marked, Repr
      ensures Valid() && Repr == old(Repr)
      ensures var a := old(View());
              View() == a.(vlist := [LastOf(a.vlist)] + Front(a.vlist), marked := a.marked - {LastOf(a.vlist).node})
    {
      hide Family, With, ListAt;
      ghost var a, v := View(), Items(lists[N_EPOCHS].nodes);
      var x := Turn(lists, Repr, N_EPOCHS);
      assert x.item == LastOf(v) && Items(lists[N_EPOCHS].nodes) == [LastOf(v)] + Front(v);
      marked := marked - {x.item.node};
    }

    /** The second half of a rotation. */
    method TurnTail()
      requires Valid() && lists[N_EPOCHS].nodes != []
      modifies this`marked, this`freed, this`rcount, Repr
      ensures Valid() && Repr == old(Repr)
      ensures View() == Turned(old(View()))
    {
      hide Family;
      Sizes();
      var tail := lists[N_EPOCHS].tail;
      if tail.item.node in marked {
        SecondChance();
      } else {
        FreeTail(N_EPOCHS);
        rcount := rcount - 1;
      }
    }

    /** remove_from_tail(vlist), then add_to_head(limbo_list[0]). */
    method DrainOne()
      requires Valid() && lists[N_EPOCHS].nodes != []
      modifies Repr
      ensures Valid() && Repr == old(Repr)
      ensures var a := old(View());
              View() == With(With(a, 0, [LastOf(a.vlist)] + a.limbo[0]), N_EPOCHS, Front(a.vlist))
    {
      hide Family;
      ghost var a := View();
      var x := Shift(lists, Repr, N_EPOCHS, 0);
      assert Items(lists[N_EPOCHS].nodes) == Front(a.vlist) && Items(lists[0].nodes) == [LastOf(a.vlist)] + a.limbo[0];
    }

    /** The loop of mr_thread_exit over vlist. */
    method DrainVlist()
      requires Valid()
      modifies Repr
      ensures Valid() && Repr == old(Repr) && View() == Drain(old(View()))
    {
      hide Family, Drained;
      ghost var a := View();
      Sizes();
      DrainStarts(a);
      while lists[N_EPOCHS].size > 0
        invariant Valid() && Repr == old(Repr) && lists[N_EPOCHS].size == |View().vlist| && Drained(a, View())
        decreases |View().vlist|
      {
        DrainGoesOn(a, View());
        DrainOne();
        Sizes();
      }
      DrainEnds(a, View());
    }

    /** Where a loop of scan over list j stands: tmplist has what is still to be judged. */
    ghost predicate Scanning(tmplist: DoubleList)
      reads this, lists, tmplist, Repr
    {
      |lists| == N_EPOCHS + 1 && this !in Repr && Family(lists + [tmplist], Repr)
    }

    /** The oldest node of tmplist goes back to the head of list j. */
    method PutBack(tmplist: DoubleList, j: nat)
      requires Scanning(tmplist) && j <= N_EPOCHS && tmplist.nodes != []
      modifies this`rcount, Repr
      ensures Scanning(tmplist) && Repr == old(Repr) && Items(tmplist.nodes) == Front(old(Items(tmplist.nodes)))
      ensures Items(lists[j].nodes) == [LastOf(old(Items(tmplist.nodes)))] + old(Items(lists[j].nodes))
      ensures View() == With(old(View()), j, Items(lists[j].nodes)).(rcount := old(rcount) + 1)
    {
      hide Family, With, ListAt;
      var all := lists + [tmplist];
      ghost var a, t, q := View(), Items(tmplist.nodes), Items(lists[j].nodes);
      assert forall i :: 0 <= i <= N_EPOCHS ==> all[i] == lists[i];
      var x := Shift(all, Repr, N_EPOCHS + 1, j);
      rcount := rcount + 1;
      assert Items(lists[j].nodes) == [x.item] + q && Items(tmplist.nodes) == Front(t);
      SameBut(a, View(), j);
    }

    /** It is handed back. */
    method Release(tmplist: DoubleList)
      requires Scanning(tmplist) && tmplist.nodes != []
      modifies this`freed, Repr
      ensures Scanning(tmplist) && Repr == old(Repr) && Items(tmplist.nodes) == Front(old(Items(tmplist.nodes)))
      ensures forall i :: 0 <= i <= N_EPOCHS ==> lists[i].nodes == old(lists[i].nodes)
      ensures View() == old(View()).(freed := old(freed) + [LastOf(old(Items(tmplist.nodes))).node])
    {
      hide Family;
      var all := lists + [tmplist];
      ghost var t := Items(tmplist.nodes);
      var x := TakeTail(all, Repr, N_EPOCHS + 1);
      freed := freed + [x.item.node];
      assert forall i :: 0 <= i <= N_EPOCHS ==> all[i] == lists[i];
      assert Items(tmplist.nodes) == Front(t);
    }

    /** One round of a loop of scan. */
    method Judge(tmplist: DoubleList, j: nat, hazardous: set<Node>, aged: bool, now: int)
      requires Scanning(tmplist) && j <= N_EPOCHS && tmplist.nodes != []
      modifies this`rcount, this`freed, Repr
      ensures Scanning(tmplist) && Repr == old(Repr) && Items(tmplist.nodes) == Front(old(Items(tmplist.nodes)))
      ensures var x, q := LastOf(old(Items(tmplist.nodes))), old(Items(lists[j].nodes));
              View() == if Stays(x, hazardous, aged, now) then With(old(View()), j, [x] + q).(rcount := old(rcount) + 1)
                        else old(View()).(freed := old(freed) + [x.node])
    {
      HeadFirst(tmplist);
      var cur := tmplist.tail;
      hide *;
      if Stays(cur.item, hazardous, aged, now) {
        PutBack(tmplist, j);
      } else {
        Release(tmplist);
      }
    }

    method Round(ghost a: Lists, ghost q: seq<Item>, tmplist: DoubleList, j: nat, hazardous: set<Node>, clock: nat -> int,
                 ghost k0: nat, k: nat)
      requires Scanning(tmplist) && Shaped(a) && j <= N_EPOCHS && tmplist.nodes != []
      requires Midway(a, q, j, hazardous, clock, k0, View(), Items(tmplist.nodes), k)
      modifies this`rcount, this`freed, Repr
      ensures Scanning(tmplist) && Repr == old(Repr) && |tmplist.nodes| < |old(tmplist.nodes)|
      ensures (tmplist.head == null <==> tmplist.nodes == [])
      ensures Midway(a, q, j, hazardous, clock, k0, View(), Items(tmplist.nodes), k + 1)
    {
      hide Family, Midway, Stays, With, ListAt;
      MidGoesOn(a, q, j, hazardous, clock, k0, View(), Items(tmplist.nodes), k);
      Judge(tmplist, j, hazardous, j < N_EPOCHS, clock(k));
      HeadFirst(tmplist);
    }

    /** One of the four loops of scan, with its list taken away. */
    method SiftAll(tmplist: DoubleList, j: nat, hazardous: set<Node>, clock: nat -> int, k0: nat)
      requires Scanning(tmplist) && j <= N_EPOCHS && lists[j].nodes == []
      modifies this`rcount, this`freed, Repr
      ensures Scanning(tmplist) && Repr == old(Repr)
      ensures View() == Sifted1(With(old(View()), j, old(Items(tmplist.nodes))), j, hazardous, clock, k0)
    {
      hide Family, Midway, Sifted1, With;
      ghost var a, q := View(), Items(tmplist.nodes);
      assert ListAt(a, j) == [];
      MidStarts(a, q, j, hazardous, clock, k0);
      HeadFirst(tmplist);
      hide Scanning, ListAt;
      var k := k0;
      while tmplist.head != null
        invariant Scanning(tmplist) && Repr == old(Repr) && k >= 0 && (tmplist.head == null <==> tmplist.nodes == [])
        invariant Midway(a, q, j, hazardous, clock, k0, View(), Items(tmplist.nodes), k)
        decreases |tmplist.nodes|
      {
        Round(a, q, tmplist, j, hazardous, clock, k0, k);
        k := k + 1;
      }
      assert Items(tmplist.nodes) == [];
      MidEnds(a, q, j, hazardous, clock, k0, View(), k);
    }

    method Sift(j: nat, hazardous: set<Node>, clock: nat -> int, k0: nat)
      requires Valid() && j <= N_EPOCHS
      modifies this`rcount, this`freed, this`Repr, Repr
      ensures Valid() && fresh(Repr - old(Repr)) && View() == Sifted1(old(View()), j, hazardous, clock, k0)
    {
      hide Family, Sifted1;
      ghost var a := View();
      var tmplist := TakeAll(lists, Repr, j);
      Repr := Repr + {tmplist};
      assert Items(lists[j].nodes) == [] && View() == With(a, j, []);
      assert With(View(), j, Items(tmplist.nodes)) == a;
      SiftAll(tmplist, j, hazardous, clock, k0);
      FamilyPrefix(lists, tmplist, Repr);
    }

    lemma HeadFirst(tmplist: DoubleList)
      requires Scanning(tmplist)
      ensures tmplist.head == null <==> tmplist.nodes == []
      ensures tmplist.nodes != [] ==> tmplist.tail != null && tmplist.tail.item == LastOf(Items(tmplist.nodes))
    {
      var all := lists + [tmplist];
      assert all[|lists|].Valid();
    }

    /** The four loops one after the other. */
    method SiftFour(hazardous: set<Node>, clock: nat -> int, n0: nat, n1: nat, n2: nat)
      requires Valid()
      modifies this`rcount, this`freed, this`Repr, Repr
      ensures Valid() && fresh(Repr - old(Repr)) && View() == SiftedAll(old(View()), hazardous, clock, n0, n1, n2)
    {
      hide Valid, Sifted1;
      Sift(0, hazardous, clock, 0);
      Sift(1, hazardous, clock, n0);
      Sift(2, hazardous, clock, n1);
      Sift(N_EPOCHS, hazardous, clock, n2);
    }

    method ScanAll(hp: array<Option<Node>>, clock: nat -> int)
      requires Valid() && hp !in Repr
      modifies this, Repr
      ensures Valid() && fresh(Repr - old(Repr)) && View() == Scan(old(View()), hp[..], clock)
    {
      hide Family;
      ghost var a := View();
      var hazardous := ReadSlots(hp);
      Sizes();
      var n0 := lists[0].size;
      var n1 := n0 + lists[1].size;
      var n2 := n1 + lists[2].size;
      ScanParts(a, hp[..], clock, n0, n1, n2);
      hide Scan, SiftedAll, Hazardous;
      rcount := 0;
      SiftFour(hazardous, clock, n0, n1, n2);
    }
  }

  function SiftedAll(a: Lists, z: set<Node>, clock: nat -> int, n0: nat, n1: nat, n2: nat): Lists
    requires Shaped(a)
  {
    Sifted1(Sifted1(Sifted1(Sifted1(a, 0, z, clock, 0), 1, z, clock, n0), 2, z, clock, n1), N_EPOCHS, z, clock, n2)
  }

  /** Stage 1 of scan */
  method ReadSlots(hp: array<Option<Node>>) returns (hazardous: set<Node>)
    ensures hazardous == Hazardous(hp[..])
  {
    hazardous := set i | 0 <= i < hp.Length && hp[i].Some? :: hp[i].value;
  }

  /** What one loop of scan does. */
  function Sifted1(a: Lists, j: nat, z: set<Node>, clock: nat -> int, k0: nat): (b: Lists)
    requires Shaped(a) && j <= N_EPOCHS
    ensures Shaped(b)
  {
    var kept := Kept(ListAt(a, j), z, j < N_EPOCHS, clock, k0);
    With(a, j, kept).(rcount := a.rcount + |kept|, freed := a.freed + Dropped(ListAt(a, j), z, j < N_EPOCHS, clock, k0))
  }

  /** How far the loop over list j has come, from lists a of which q was taken away. */
  predicate Midway(a: Lists, q: seq<Item>, j: nat, z: set<Node>, clock: nat -> int, k0: nat, b: Lists, rest: seq<Item>, k: nat)
    requires Shaped(a) && Shaped(b) && j <= N_EPOCHS
  {
    && b == With(a, j, ListAt(b, j)).(rcount := a.rcount + |ListAt(b, j)|, freed := b.freed)
    && Sifting(q, z, j < N_EPOCHS, clock, k0, a.freed, rest, ListAt(b, j), b.freed, k)
  }

  lemma MidStarts(a: Lists, q: seq<Item>, j: nat, z: set<Node>, clock: nat -> int, k: nat)
    requires Shaped(a) && j <= N_EPOCHS && ListAt(a, j) == []
    ensures Midway(a, q, j, z, clock, k, a, q, k)
  {
    SiftStarts(q, z, j < N_EPOCHS, clock, k, a.freed);
    hide Sifting;
    assert With(a, j, ListAt(a, j)) == a;
  }

  lemma MidGoesOn(a: Lists, q: seq<Item>, j: nat, z: set<Node>, clock: nat -> int, k0: nat, b: Lists, rest: seq<Item>, k: nat)
    requires Shaped(a) && Shaped(b) && j <= N_EPOCHS && rest != [] && Midway(a, q, j, z, clock, k0, b, rest, k)
    ensures var x := LastOf(rest);
            var c := if Stays(x, z, j < N_EPOCHS, clock(k)) then With(b, j, [x] + ListAt(b, j)).(rcount := b.rcount + 1)
                     else b.(freed := b.freed + [x.node]);
            Midway(a, q, j, z, clock, k0, c, Front(rest), k + 1)
  {
    SiftGoesOn(q, z, j < N_EPOCHS, clock, k0, a.freed, rest, ListAt(b, j), b.freed, k);
    hide Sifting, Stays, LastOf, Front;
  }

  lemma MidEnds(a: Lists, q: seq<Item>, j: nat, z: set<Node>, clock: nat -> int, k0: nat, b: Lists, k: nat)
    requires Shaped(a) && Shaped(b) && j <= N_EPOCHS && Midway(a, q, j, z, clock, k0, b, [], k)
    ensures b == Sifted1(With(a, j, q), j, z, clock, k0)
  {
    SiftEnds(q, z, j < N_EPOCHS, clock, k0, a.freed, ListAt(b, j), b.freed, k);
    hide Sifting, Kept, Dropped;
  }

  lemma ScanParts(a: Lists, slots: Slots, clock: nat -> int, n0: nat, n1: nat, n2: nat)
    requires Shaped(a) && n0 == |a.limbo[0]| && n1 == n0 + |a.limbo[1]| && n2 == n1 + |a.limbo[2]|
    ensures var z := Hazardous(slots);
            Scan(a, slots, clock) == SiftedAll(a.(rcount := 0), z, clock, n0, n1, n2)
  {
    assert Readings(a, 1) == n0 && Readings(a, 2) == n1 && Readings(a, 3) == n2;
    hide Kept, Dropped, Hazardous;
  }

  /** Part of vlist has gone, tail first, to the head of limbo list 0. */
  predicate Drained(a: Lists, b: Lists) {
    && Shaped(a) && Shaped(b) && b == With(With(a, 0, b.limbo[0]), N_EPOCHS, b.vlist)
    && b.vlist + b.limbo[0] == a.vlist + a.limbo[0]
  }

  lemma DrainStarts(a: Lists)
    requires Shaped(a)
    ensures Drained(a, a)
  {
    assert a.limbo[0 := a.limbo[0]] == a.limbo;
  }

  lemma DrainGoesOn(a: Lists, b: Lists)
    requires Drained(a, b) && b.vlist != []
    ensures Drained(a, With(With(b, 0, [LastOf(b.vlist)] + b.limbo[0]), N_EPOCHS, Front(b.vlist)))
  {
    var c := With(With(b, 0, [LastOf(b.vlist)] + b.limbo[0]), N_EPOCHS, Front(b.vlist));
    assert c.limbo == a.limbo[0 := c.limbo[0]];
    assert b.vlist == Front(b.vlist) + [LastOf(b.vlist)];
    Regroup(Front(b.vlist), [LastOf(b.vlist)], b.limbo[0]);
  }

  lemma DrainEnds(a: Lists, b: Lists)
    requires Drained(a, b) && b.vlist == []
    ensures b == Drain(a)
  {
    assert b.limbo[0] == a.vlist + a.limbo[0];
  }

  lemma FillEnds(a: Lists, h: nat, clock: nat -> int, k: nat)
    requires Shaped(a)
    ensures Fill(a, h, N_EPOCHS, clock, k) == a
  {
  }

  lemma ProcessRound(q: seq<Item>, freed: seq<Node>)
    requires q != []
    ensures freed + Reversed(Nodes(q)) == (freed + [LastOf(q).node]) + Reversed(Nodes(Front(q)))
  {
    assert Nodes(q) == Nodes(Front(q)) + [LastOf(q).node];
    ReversedSnoc(Nodes(Front(q)), LastOf(q).node);
  }

  lemma ProcessEnds(q: seq<Item>, freed: seq<Node>)
    requires q == []
    ensures freed + Reversed(Nodes(q)) == freed
  {
  }
}
