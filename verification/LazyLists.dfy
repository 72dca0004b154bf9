/** The per-thread part of src/smr_membar_lazy.c and src/smr_lazy.c on its two pointer lists. */
module LazyLists {
  import opened Addresses
  import opened Options
  import opened DoubleLlist
  import opened ItemLists
  import opened Timing
  import opened LazyRotation

  /** sd, HP_cur, the marked fields of the nodes, and what has been handed back to the allocator. */
  class LazySmr {
    const rlist: DoubleList
    const vlist: DoubleList
    var hpCur: nat
    var rcount: int
    var marked: set<Node>
    var freed: seq<Node>
    ghost var Repr: set<object>

    ghost predicate Valid()
      reads this, Repr
    {
      && this in Repr && rlist in Repr && vlist in Repr
      && (forall x :: x in rlist.nodes ==> x in Repr) && (forall x :: x in vlist.nodes ==> x in Repr)
      && rlist.Valid() && vlist.Valid() && Apart(rlist, vlist)
    }

    ghost function View(): Lazy
      reads this, rlist, vlist
    {
      Lazy(Items(rlist.nodes), Items(vlist.nodes), hpCur, rcount, marked, freed)
    }

    /** mr_init_local */
    constructor ()
      ensures Valid() && fresh(Repr) && View() == Lazy([], [], 0, 0, {}, [])
    {
      rlist := new DoubleList();
      vlist := new DoubleList();
      hpCur, rcount, marked, freed := 0, 0, {}, [];
      new;
      Repr := {this, rlist, vlist};
    }

    /** remove_from_tail(rlist), then add_to_head(vlist). */
    method PromoteTail(mark: bool)
      requires Valid() && rlist.nodes != []
      modifies Repr
      ensures Valid() && Repr == old(Repr) && View() == Promote(old(View()), mark)
    {
      ghost var r, v := rlist.nodes, vlist.nodes;
      hide Chained;
      var x := MoveTail(rlist, vlist);
      if mark {
        marked := marked + {x.item.node};
      }
      assert Items(vlist.nodes) == [x.item] + Items(v);
      assert Items(rlist.nodes) == Front(Items(r));
    }

    /** The second half of a rotation. */
    method TurnTail()
      requires Valid() && vlist.nodes != []
      modifies Repr
      ensures Valid() && Repr == old(Repr) && View() == Turn(old(View()))
    {
      ghost var v := vlist.nodes;
      hide Chained;
      var tail := vlist.tail;
      if tail.item.node in marked {
        marked := marked - {tail.item.node};
        var x := TailToHead(vlist);
        Untouched(rlist);
        assert Items(vlist.nodes) == [LastOf(Items(v))] + Front(Items(v));
      } else {
        var x := vlist.RemoveFromTail();
        Untouched(rlist);
        freed := freed + [x.item.node];
        rcount := rcount - 1;
        assert Items(vlist.nodes) == Front(Items(v));
      }
    }

    method Rotate(hp: array<Option<Node>>)
      requires Valid() && vlist.nodes != [] && hpCur < hp.Length && hp !in Repr
      modifies Repr
      ensures Valid() && Repr == old(Repr) && View() == Rotation(old(View()), hp[..])
    {
      var cur := hp[hpCur];
      if cur.Some? {
        marked := marked + {cur.value};
      }
      hpCur := (hpCur + 1) % hp.Length;
      assert View() == Visit(old(View()), hp[..]);
      TurnTail();
    }

    method Push(x: Item)
      requires Valid()
      modifies Repr
      ensures Valid() && fresh(Repr - old(Repr)) && View() == Enqueue(old(View()), x)
    {
      ghost var r := rlist.nodes;
      hide Chained;
      var wrapper := Wrap(rlist, vlist, x);
      assert Items(rlist.nodes) == [x] + Items(r);
      rcount := rcount + 1;
      Repr := Repr + {wrapper};
    }

    /** free_node_later of src/smr_membar_lazy.c; created stands for the field it leaves unset. */
    method FreeNodeLater(hp: array<Option<Node>>, n: Node, created: int)
      requires Valid() && hpCur < hp.Length && hp !in Repr
      modifies Repr
      ensures Valid() && fresh(Repr - old(Repr)) && View() == Retire(old(View()), hp[..], Item(n, created))
    {
      var h := hp.Length;
      ghost var start := Enqueue(View(), Item(n, created));
      Push(Item(n, created));
      while vlist.size <= h && rlist.tail != null
        invariant Valid() && fresh(Repr - old(Repr)) && Fill(View(), h) == Fill(start, h)
        decreases |rlist.nodes|
      {
        PromoteTail(true);
      }
      FillCur(start, h);
      if vlist.size > h {
        Rotate(hp);
      }
    }

    /** free_node_later of src/smr_lazy.c; clock(i) is what the i-th call of gettimeofday returns. */
    method FreeNodeLaterAged(hp: array<Option<Node>>, n: Node, clock: nat -> int)
      requires Valid() && hpCur < hp.Length && hp !in Repr
      modifies Repr
      ensures Valid() && fresh(Repr - old(Repr)) && View() == RetireAged(old(View()), hp[..], n, clock)
    {
      var h := hp.Length;
      var created := clock(0);
      Push(Item(n, created));
      var oldest := rlist.tail;
      if IsOldEnough(oldest.item.created, clock(1)) {
        PromoteTail(vlist.size + 1 <= h);
      }
      ghost var start := View();
      assert start == PromoteOne(Enqueue(old(View()), Item(n, created)), h, clock(1));
      if vlist.size > h {
        Rotate(hp);
      } else {
        FillOld(h, clock);
      }
    }

    method FillOld(h: nat, clock: nat -> int)
      requires Valid()
      modifies Repr
      ensures Valid() && Repr == old(Repr) && View() == FillAged(old(View()), h, clock, 2)
    {
      var i := 2;
      while vlist.size <= h && rlist.tail != null && IsOldEnough(rlist.tail.item.created, clock(i))
        invariant Valid() && Repr == old(Repr) && FillAged(View(), h, clock, i) == FillAged(old(View()), h, clock, 2)
        decreases |rlist.nodes|
      {
        PromoteTail(true);
        i := i + 1;
      }
    }
  }
}
