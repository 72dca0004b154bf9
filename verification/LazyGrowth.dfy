/** vlist of src/smr_lazy.c can grow without bound: a node that stays in its slot comes back from the tail each time, and
    the call that turns it has already promoted another one.
 */
module LazyGrowth {
  import opened Addresses
  import opened Options
  import opened DoubleLlist
  import opened ItemLists
  import opened Timing
  import opened LazyRotation

  /** A call of free_node_later of src/smr_lazy.c. */
  ghost predicate AgedCall(l: Lazy, l': Lazy, slots: Slots) {
    l.cur < |slots| && exists n, clock :: !Waits(l, n) && l' == RetireAged(l, slots, n, clock)
  }

  /** The calls of one thread from the beginning, with slots and marks left alone by others. */
  ghost predicate AgedRun(ls: seq<Lazy>, slots: Slots) {
    && ls != [] && slots != [] && ls[0] == Lazy([], [], 0, 0, {}, [])
    && forall k :: 0 < k < |ls| ==> AgedCall(ls[k - 1], ls[k], slots)
  }

  /** vlist has this size, node 1, which the only slot holds, at position p, and everything else unmarked; all nodes
      are below next. */
  predicate Grown(l: Lazy, size: nat, p: nat, next: nat) {
    && l.rlist == [] && l.cur == 0 && |l.vlist| == size && p < size && 2 <= size
    && (forall i :: 0 <= i < size ==> l.vlist[i].node < next && (l.vlist[i].node == 1 <==> i == p))
    && (forall i :: 0 <= i < size && i != p ==> l.vlist[i].node !in l.marked)
    && forall n :: n in l.marked ==> n < next
  }

  /** A clock on which every node is old when it is tested. */
  function Late(): nat -> int {
    (i: nat) => if i == 0 then 0 else 1_000_000
  }

  /** A call with that clock promotes its own node, visits the slot, and turns the tail. */
  lemma LateCall(l: Lazy, n: Node)
    requires l.rlist == [] && l.cur == 0 && l.vlist != []
    ensures RetireAged(l, [Some(1)], n, Late()) == Turn(Lazy([], [Item(n, 0)] + l.vlist, 0, l.rcount + 1, l.marked + {1}, l.freed))
  {
    assert IsOldEnough(0, 1_000_000);
    hide IsOldEnough, FillAged;
    var l0 := Enqueue(l, Item(n, 0));
    assert l0.rlist == [Item(n, 0)] && Front(l0.rlist) == [];
    assert Visit(PromoteOne(l0, 1, 1_000_000), [Some(1)]).cur == 0;
  }

  /** One more place between node 1 and the head. */
  lemma GrowNearer(l: Lazy, size: nat, p: nat, next: nat, m: Lazy)
    requires Grown(l, size, p, next) && p + 1 < size
    requires m == Lazy([], [Item(next, 0)] + l.vlist, 0, m.rcount, l.marked + {1}, l.freed)
    ensures Grown(Turn(m), size, p + 1, next + 1)
  {
    var v := [Item(next, 0)] + Front(l.vlist);
    assert Front(m.vlist) == v && LastOf(m.vlist) == l.vlist[size - 1];
    assert l.vlist[p].node == 1 && l.vlist[size - 1].node !in m.marked;
    assert Turn(m).vlist == v;
    forall i | 0 <= i < size ensures v[i] == if i == 0 then Item(next, 0) else l.vlist[i - 1] {
    }
  }

  /** At the tail node 1 goes back to the head instead of being freed. */
  lemma GrowLonger(l: Lazy, size: nat, next: nat, m: Lazy)
    requires 0 < size && Grown(l, size, size - 1, next)
    requires m == Lazy([], [Item(next, 0)] + l.vlist, 0, m.rcount, l.marked + {1}, l.freed)
    ensures Grown(Turn(m), size + 1, 0, next + 1)
  {
    var v := [l.vlist[size - 1], Item(next, 0)] + Front(l.vlist);
    assert [LastOf(m.vlist)] + Front(m.vlist) == v;
    assert Turn(m).vlist == v;
    forall i | 0 <= i <= size ensures v[i] == if i == 0 then l.vlist[size - 1] else if i == 1 then Item(next, 0) else l.vlist[i - 2] {
    }
  }

  lemma NotWaiting(l: Lazy, size: nat, p: nat, next: nat)
    requires Grown(l, size, p, next)
    ensures !Waits(l, next)
  {
    assert forall i :: 0 <= i < size ==> Nodes(l.vlist)[i] == l.vlist[i].node;
  }

  lemma GrowStep(l: Lazy, size: nat, p: nat, next: nat)
    requires Grown(l, size, p, next)
    ensures var l' := RetireAged(l, [Some(1)], next, Late());
            && AgedCall(l, l', [Some(1)])
            && if p + 1 < size then Grown(l', size, p + 1, next + 1) else Grown(l', size + 1, 0, next + 1)
  {
    var m := Lazy([], [Item(next, 0)] + l.vlist, 0, l.rcount + 1, l.marked + {1}, l.freed);
    LateCall(l, next);
    NotWaiting(l, size, p, next);
    assert l.cur == 0 && (p + 1 < size || p == size - 1);
    hide RetireAged, Grown, Waits, Turn;
    if p + 1 < size {
      GrowNearer(l, size, p, next, m);
    } else {
      GrowLonger(l, size, next, m);
    }
  }

  lemma OneMore(ls: seq<Lazy>, l: Lazy, slots: Slots)
    requires AgedRun(ls, slots) && AgedCall(ls[|ls| - 1], l, slots)
    ensures AgedRun(ls + [l], slots)
  {
    hide AgedCall;
    assert forall k :: 0 <= k < |ls| ==> (ls + [l])[k] == ls[k];
  }

  lemma {:induction false} Grow(ls: seq<Lazy>, size: nat, p: nat, next: nat, n: nat) returns (longer: seq<Lazy>)
    requires AgedRun(ls, [Some(1)]) && Grown(ls[|ls| - 1], size, p, next)
    ensures AgedRun(longer, [Some(1)]) && |longer[|longer| - 1].vlist| > n
    decreases if size > n then 0 else n - size + 1, if size > n then 0 else size - p
  {
    longer := ls;
    if size <= n {
      var l := ls[|ls| - 1];
      var l' := RetireAged(l, [Some(1)], next, Late());
      GrowStep(l, size, p, next);
      OneMore(ls, l', [Some(1)]);
      hide Grown, RetireAged, AgedCall, AgedRun;
      if p + 1 < size {
        longer := Grow(ls + [l'], size, p + 1, next + 1, n);
      } else {
        longer := Grow(ls + [l'], size + 1, 0, next + 1, n);
      }
    }
  }

  /** The lists after one and two calls */
  const AFTER_ONE := Lazy([], [Item(1, 0)], 0, 1, {1}, [])
  const AFTER_TWO := Lazy([], [Item(1, 0), Item(2, 0)], 0, 2, {}, [])

  lemma FirstCall()
    ensures AgedCall(Lazy([], [], 0, 0, {}, []), AFTER_ONE, [Some(1)])
  {
    var l0 := Lazy([], [], 0, 0, {}, []);
    var l := Enqueue(l0, Item(1, 0));
    assert IsOldEnough(0, 1_000_000);
    hide IsOldEnough;
    assert l.rlist == [Item(1, 0)] && Front(l.rlist) == [];
    assert !Waits(l0, 1) && AFTER_ONE == RetireAged(l0, [Some(1)], 1, Late());
  }

  lemma SecondCall()
    ensures AgedCall(AFTER_ONE, AFTER_TWO, [Some(1)]) && Grown(AFTER_TWO, 2, 0, 3)
  {
    LateCall(AFTER_ONE, 2);
    var m := Lazy([], [Item(2, 0), Item(1, 0)], 0, 2, {1}, []);
    assert [Item(2, 0)] + AFTER_ONE.vlist == m.vlist && AFTER_ONE.marked + {1} == {1};
    assert Front(m.vlist) == [Item(2, 0)] && LastOf(m.vlist) == Item(1, 0);
    assert Turn(m) == AFTER_TWO && Grown(AFTER_TWO, 2, 0, 3);
    assert !Waits(AFTER_ONE, 2);
    hide RetireAged, Turn, Waits, Grown;
    assert AFTER_TWO == RetireAged(AFTER_ONE, [Some(1)], 2, Late());
  }

  /** So vlist of src/smr_lazy.c has no bound: with one slot that keeps holding one node, for every n some run of calls
      from the beginning leads past n. */
  lemma AgedUnbounded(n: nat) returns (ls: seq<Lazy>)
    ensures AgedRun(ls, [Some(1)]) && |ls[|ls| - 1].vlist| > n
  {
    var l0 := Lazy([], [], 0, 0, {}, []);
    FirstCall();
    SecondCall();
    assert AgedRun([l0], [Some(1)]);
    hide AgedCall, Grown, AgedRun;
    OneMore([l0], AFTER_ONE, [Some(1)]);
    OneMore([l0] + [AFTER_ONE], AFTER_TWO, [Some(1)]);
    ls := Grow([l0] + [AFTER_ONE] + [AFTER_TWO], 2, 0, 3, n);
  }
}
