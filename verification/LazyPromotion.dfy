/** Which nodes the lazy schemes promote from the lists where they wait to vlist, where rotations free without looking at
    ages: in src/smr_lazy.c and src/hybrid_lazy.c only what was old enough at a reading of the clock, and in all of them
    as much as there is room for.
 */
module LazyPromotion {
  import opened Addresses
  import opened Options
  import opened DoubleLlist
  import opened ItemLists
  import opened Timing
  import opened LazyRotation
  import H = LazyHybrid

  // ----- one promotion loop

  /** Where a loop stops that promotes from the tail of q while vlist, of this size to begin with, has at most h nodes:
      q[..m] stays. */
  predicate FillsTo(q: seq<Item>, size: nat, h: nat, m: nat) {
    m <= |q| && (m == |q| || size + (|q| - m) <= h + 1) && (m == 0 || size + (|q| - m) > h)
  }

  /** The same with an age test, which reads clock(k) first. */
  ghost predicate StopsAt(q: seq<Item>, size: nat, h: nat, clock: nat -> int, k: nat, m: nat) {
    && m <= |q| && (m == |q| || size + (|q| - m) <= h + 1)
    && (forall p :: m <= p < |q| ==> IsOldEnough(q[p].created, clock(k + (|q| - 1 - p))))
    && (m == 0 || size + (|q| - m) > h || !IsOldEnough(q[m - 1].created, clock(k + (|q| - m))))
  }

  /** The m oldest nodes but those of q[..m] have moved, in their order, to the head of vlist. */
  predicate Moved(l: Lazy, l': Lazy, m: nat) {
    && m <= |l.rlist| && l'.rlist == l.rlist[..m] && l'.vlist == l.rlist[m..] + l.vlist
    && l'.cur == l.cur && l'.freed == l.freed && l'.rcount == l.rcount
  }

  lemma MovedOne(l: Lazy, mark: bool, l': Lazy, m: nat)
    requires l.rlist != [] && Moved(Promote(l, mark), l', m)
    ensures m < |l.rlist| && Moved(l, l', m)
  {
    var p := Promote(l, mark);
    assert p.rlist[m..] + p.vlist == l.rlist[m..] + l.vlist;
  }

  lemma MovedNone(l: Lazy)
    ensures Moved(l, l, |l.rlist|)
  {
  }

  lemma {:induction false} FillMoves(l: Lazy, h: nat) returns (m: nat)
    ensures FillsTo(l.rlist, |l.vlist|, h, m) && Moved(l, Fill(l, h), m)
    decreases |l.rlist|
  {
    if |l.vlist| <= h && l.rlist != [] {
      m := FillMoves(Promote(l, true), h);
      MovedOne(l, true, Fill(l, h), m);
    } else {
      m := |l.rlist|;
      MovedNone(l);
    }
  }

  lemma StopsMore(q: seq<Item>, size: nat, h: nat, clock: nat -> int, k: nat, m: nat)
    requires q != [] && size <= h && IsOldEnough(LastOf(q).created, clock(k)) && StopsAt(Front(q), size + 1, h, clock, k + 1, m)
    ensures StopsAt(q, size, h, clock, k, m)
  {
    hide IsOldEnough;
    var p := Front(q);
    forall i | m <= i < |q| ensures IsOldEnough(q[i].created, clock(k + (|q| - 1 - i))) {
      if i < |p| {
        assert p[i] == q[i] && k + 1 + (|p| - 1 - i) == k + (|q| - 1 - i);
      }
    }
    assert k + 1 + (|p| - m) == k + (|q| - m);
  }

  lemma {:induction false} FillAgedMoves(l: Lazy, h: nat, clock: nat -> int, k: nat) returns (m: nat)
    ensures StopsAt(l.rlist, |l.vlist|, h, clock, k, m) && Moved(l, FillAged(l, h, clock, k), m)
    decreases |l.rlist|
  {
    hide IsOldEnough;
    if |l.vlist| <= h && l.rlist != [] && IsOldEnough(LastOf(l.rlist).created, clock(k)) {
      var p := Promote(l, true);
      m := FillAgedMoves(p, h, clock, k + 1);
      hide Moved, StopsAt;
      MovedOne(l, true, FillAged(l, h, clock, k), m);
      StopsMore(l.rlist, |l.vlist|, h, clock, k, m);
    } else {
      m := |l.rlist|;
      MovedNone(l);
    }
  }

  // ----- whole calls

  /** vlist and what was freed consist of moved and of what they were before. */
  ghost predicate From(l: Lazy, l': Lazy, moved: seq<Item>) {
    && (forall x :: x in l'.vlist ==> x in moved || x in l.vlist)
    && l.freed <= l'.freed
    && (forall n :: n in l'.freed ==> n in l.freed || n in Nodes(moved + l.vlist))
    && multiset(Nodes(l'.vlist)) + multiset(l'.freed) == multiset(Nodes(moved)) + multiset(Nodes(l.vlist)) + multiset(l.freed)
  }

  lemma StaysFrom(l: Lazy, l': Lazy, moved: seq<Item>)
    requires l'.vlist == moved + l.vlist && l'.freed == l.freed
    ensures From(l, l', moved)
  {
    NodesAppend(moved, l.vlist);
  }

  lemma RotatesFrom(l: Lazy, l1: Lazy, slots: Slots, moved: seq<Item>)
    requires l1.cur < |slots| && l1.vlist == moved + l.vlist && l1.vlist != [] && l1.freed == l.freed
    ensures From(l, Rotation(l1, slots), moved) && Rotation(l1, slots).rlist == l1.rlist
  {
    var l', x := Rotation(l1, slots), LastOf(l1.vlist);
    NodesAppend(moved, l.vlist);
    NodesFront(l1.vlist);
    NodesCons(x, Front(l1.vlist));
    assert Nodes(l1.vlist)[|l1.vlist| - 1] == x.node;
    assert multiset(l.freed + [x.node]) == multiset(l.freed) + multiset{x.node};
    forall y | y in l'.vlist ensures y in l1.vlist {
      assert y in [x] + Front(l1.vlist);
    }
  }

  /** free_node_later of src/smr_membar_lazy.c leaves only q[..m] in rlist, the new node among it: it promotes until vlist
      has more than H nodes or nothing is left. */
  lemma RetirePromotes(l: Lazy, slots: Slots, x: Item) returns (m: nat)
    requires l.cur < |slots|
    ensures var q, l' := [x] + l.rlist, Retire(l, slots, x);
            FillsTo(q, |l.vlist|, |slots|, m) && l'.rlist == q[..m] && From(l, l', q[m..])
  {
    var l0, h := Enqueue(l, x), |slots|;
    m := FillMoves(l0, h);
    var l1 := Fill(l0, h);
    hide Fill, Rotation, From;
    if |l1.vlist| > h {
      RotatesFrom(l, l1, slots, l0.rlist[m..]);
    } else {
      StaysFrom(l, l1, l0.rlist[m..]);
    }
  }

  /** free_node_later of src/smr_lazy.c leaves only q[..m] in rlist, the new node among it. What it promotes is old enough
      at a reading of its own. If vlist is then too long it rotates, having promoted the oldest node at most; otherwise it
      promotes until vlist has more than H nodes or the oldest node left is too young at the last reading. */
  lemma RetireAgedPromotes(l: Lazy, slots: Slots, n: Node, clock: nat -> int) returns (m: nat)
    requires l.cur < |slots|
    ensures var q, l' := [Item(n, clock(0))] + l.rlist, RetireAged(l, slots, n, clock);
            var first := IsOldEnough(LastOf(q).created, clock(1));
            && m <= |q| && l'.rlist == q[..m] && From(l, l', q[m..])
            && if |l.vlist| + (if first then 1 else 0) > |slots| then m == |q| - (if first then 1 else 0)
               else StopsAt(q, |l.vlist|, |slots|, clock, if first then 1 else 2, m)
  {
    var q, h := [Item(n, clock(0))] + l.rlist, |slots|;
    var first := IsOldEnough(LastOf(q).created, clock(1));
    var l0 := Enqueue(l, Item(n, clock(0)));
    var l1 := PromoteOne(l0, h, clock(1));
    var m1 := |q| - if first then 1 else 0;
    assert Moved(l0, l1, m1) by { MovedFirst(l0, h, clock(1)); }
    hide IsOldEnough, PromoteOne, FillAged, Rotation, From, StopsAt;
    if |l1.vlist| > h {
      m := m1;
      RotatesFrom(l, l1, slots, q[m..]);
    } else {
      m := FillAgedMoves(l1, h, clock, 2);
      var l2 := FillAged(l1, h, clock, 2);
      MovedTwice(l0, l1, l2, m1, m);
      StaysFrom(l, l2, q[m..]);
      if first {
        StopsMore(q, |l.vlist|, h, clock, 1, m);
      }
    }
  }

  lemma MovedFirst(l: Lazy, h: nat, now: int)
    requires l.rlist != []
    ensures Moved(l, PromoteOne(l, h, now), |l.rlist| - if IsOldEnough(LastOf(l.rlist).created, now) then 1 else 0)
  {
    hide IsOldEnough;
  }

  lemma MovedTwice(a: Lazy, b: Lazy, c: Lazy, m: nat, k: nat)
    requires Moved(a, b, m) && Moved(b, c, k)
    ensures Moved(a, c, k)
  {
    assert b.rlist[k..] + b.vlist == a.rlist[k..] + a.vlist;
  }

  // ----- over whole runs of src/smr_lazy.c

  /** One call: what it is given, what the clock and the slots say meanwhile, and the marks that it finds. */
  datatype Args = Args(n: Node, clock: nat -> int, slots: Slots, marked: set<Node>)

  /** One thread's lists from the beginning, call by call, with slots and marks changed by others in between. */
  ghost predicate AgedCalls(ls: seq<Lazy>, calls: seq<Args>, h: nat) {
    && |ls| == |calls| + 1 && h > 0 && ls[0] == Lazy([], [], 0, 0, ls[0].marked, [])
    && forall k :: 0 <= k < |calls| ==> AgedCallOk(ls[k], calls[k], ls[k + 1], h)
  }

  predicate AgedCallOk(l: Lazy, c: Args, l': Lazy, h: nat) {
    |c.slots| == h && l.cur < h && l' == RetireAged(l.(marked := c.marked), c.slots, c.n, c.clock)
  }

  /** One of the first k calls retired x. */
  ghost predicate RetiredBy(calls: seq<Args>, k: nat, x: Item) {
    exists r :: 0 <= r < k && r < |calls| && x == Item(calls[r].n, calls[r].clock(0))
  }

  /** And that one or a later one found it old enough. */
  ghost predicate FoundOld(calls: seq<Args>, k: nat, x: Item) {
    exists j, i: nat :: 0 <= j < k && j < |calls| && OldAt(calls[j], i, x) && RetiredBy(calls, j + 1, x)
  }

  predicate OldAt(c: Args, i: nat, x: Item) {
    IsOldEnough(x.created, c.clock(i))
  }

  ghost predicate FreedOld(calls: seq<Args>, k: nat, n: Node) {
    exists x: Item :: x.node == n && FoundOld(calls, k, x)
  }

  /** In every run each node in vlist, from where rotations free, and each that was freed was found old enough after it
      had been retired. */
  lemma {:induction false} AgedRunOld(ls: seq<Lazy>, calls: seq<Args>, h: nat, k: nat)
    requires AgedCalls(ls, calls, h) && k < |ls|
    ensures forall x :: x in ls[k].rlist ==> RetiredBy(calls, k, x)
    ensures forall x :: x in ls[k].vlist ==> FoundOld(calls, k, x)
    ensures forall n :: n in ls[k].freed ==> FreedOld(calls, k, n)
  {
    if k > 0 {
      AgedRunOld(ls, calls, h, k - 1);
      assert AgedCallOk(ls[k - 1], calls[k - 1], ls[k - 1 + 1], h);
      hide AgedCalls, RetiredBy, FoundOld, FreedOld;
      AgedStepOld(ls[k - 1], calls, ls[k], h, k - 1);
    }
  }

  lemma LaterToo(calls: seq<Args>, k: nat, x: Item)
    ensures RetiredBy(calls, k, x) ==> RetiredBy(calls, k + 1, x)
    ensures FoundOld(calls, k, x) ==> FoundOld(calls, k + 1, x)
  {
  }

  lemma OldInCall(l: Lazy, slots: Slots, n: Node, clock: nat -> int) returns (m: nat)
    requires l.cur < |slots|
    ensures var q, l' := [Item(n, clock(0))] + l.rlist, RetireAged(l, slots, n, clock);
            && m <= |q| && l'.rlist == q[..m] && From(l, l', q[m..])
            && forall p :: m <= p < |q| ==> exists i: nat :: IsOldEnough(q[p].created, clock(i))
  {
    m := RetireAgedPromotes(l, slots, n, clock);
    hide RetireAged, From, IsOldEnough;
  }

  /** What one call promotes, call k found old enough, and it had been retired. */
  lemma PromotedOld(q: seq<Item>, m: nat, calls: seq<Args>, k: nat)
    requires k < |calls| && m <= |q|
    requires forall p :: 0 <= p < |q| ==> RetiredBy(calls, k + 1, q[p])
    requires forall p :: m <= p < |q| ==> exists i: nat :: IsOldEnough(q[p].created, calls[k].clock(i))
    ensures forall x :: x in q[..m] ==> RetiredBy(calls, k + 1, x)
    ensures forall x :: x in q[m..] ==> FoundOld(calls, k + 1, x)
  {
    hide RetiredBy, IsOldEnough;
    forall x | x in q[m..] ensures FoundOld(calls, k + 1, x) {
      var p :| m <= p < |q| && q[p] == x;
      var i: nat :| IsOldEnough(q[p].created, calls[k].clock(i));
      assert OldAt(calls[k], i, x) && RetiredBy(calls, k + 1, x);
    }
  }

  lemma EachRetired(l: Lazy, calls: seq<Args>, k: nat)
    requires k < |calls| && forall x :: x in l.rlist ==> RetiredBy(calls, k, x)
    ensures var q := [Item(calls[k].n, calls[k].clock(0))] + l.rlist; forall p :: 0 <= p < |q| ==> RetiredBy(calls, k + 1, q[p])
  {
    var q := [Item(calls[k].n, calls[k].clock(0))] + l.rlist;
    forall p | 0 <= p < |q| ensures RetiredBy(calls, k + 1, q[p]) {
      LaterToo(calls, k, q[p]);
    }
  }

  lemma FreedOldOne(calls: seq<Args>, k: nat, q: seq<Item>, n: Node)
    requires n in Nodes(q) && forall x :: x in q ==> FoundOld(calls, k, x)
    ensures FreedOld(calls, k, n)
  {
    var i :| 0 <= i < |q| && Nodes(q)[i] == n;
    assert q[i].node == n && FoundOld(calls, k, q[i]);
  }

  lemma FreedOldStill(calls: seq<Args>, k: nat, n: Node)
    requires FreedOld(calls, k, n)
    ensures FreedOld(calls, k + 1, n)
  {
    var x: Item :| x.node == n && FoundOld(calls, k, x);
    LaterToo(calls, k, x);
    assert FoundOld(calls, k + 1, x);
  }

  lemma AgedStepOld(l: Lazy, calls: seq<Args>, l': Lazy, h: nat, k: nat)
    requires k < |calls| && AgedCallOk(l, calls[k], l', h)
    requires forall x :: x in l.rlist ==> RetiredBy(calls, k, x)
    requires forall x :: x in l.vlist ==> FoundOld(calls, k, x)
    requires forall n :: n in l.freed ==> FreedOld(calls, k, n)
    ensures forall x :: x in l'.rlist ==> RetiredBy(calls, k + 1, x)
    ensures forall x :: x in l'.vlist ==> FoundOld(calls, k + 1, x)
    ensures forall n :: n in l'.freed ==> FreedOld(calls, k + 1, n)
  {
    var c := calls[k];
    var q, l1 := [Item(c.n, c.clock(0))] + l.rlist, l.(marked := c.marked);
    var m := OldInCall(l1, c.slots, c.n, c.clock);
    hide RetireAged, RetiredBy, FoundOld, FreedOld, IsOldEnough;
    EachRetired(l, calls, k);
    PromotedOld(q, m, calls, k);
    forall x | x in q[m..] + l.vlist ensures FoundOld(calls, k + 1, x) {
      if x in l.vlist {
        LaterToo(calls, k, x);
      }
    }
    forall n | n in l'.freed ensures FreedOld(calls, k + 1, n) {
      if n in l.freed {
        FreedOldStill(calls, k, n);
      } else {
        FreedOldOne(calls, k + 1, q[m..] + l.vlist, n);
      }
    }
  }

  // ----- the three limbo lists of src/hybrid_lazy.c

  /** The oldest nodes of limbo list i, but those of limbo[i][..m], have moved to the head of vlist. */
  predicate MovedFrom(a: H.Lists, b: H.Lists, i: nat, m: nat) {
    && H.Shaped(a) && i < H.N_EPOCHS && m <= |a.limbo[i]|
    && b == a.(limbo := a.limbo[i := a.limbo[i][..m]], vlist := a.limbo[i][m..] + a.vlist, marked := b.marked)
  }

  /** The reading with which the loop over the next list begins: a loop stopped by a node too young has read once more. */
  function NextReading(q: seq<Item>, size: nat, h: nat, k: nat, m: nat): nat
    requires m <= |q|
  {
    k + (|q| - m) + if m > 0 && size + (|q| - m) <= h then 1 else 0
  }

  lemma MovedFromNone(a: H.Lists, i: nat)
    requires H.Shaped(a) && i < H.N_EPOCHS
    ensures MovedFrom(a, a, i, |a.limbo[i]|)
  {
    var q := a.limbo[i];
    assert q[..|q|] == q && q[|q|..] + a.vlist == a.vlist;
    assert a.limbo[i := q] == a.limbo;
  }

  lemma MovedFromOne(a: H.Lists, b: H.Lists, i: nat, m: nat)
    requires H.Shaped(a) && i < H.N_EPOCHS && a.limbo[i] != [] && MovedFrom(H.Promote(a, i), b, i, m)
    ensures MovedFrom(a, b, i, m) && m < |a.limbo[i]|
  {
    var q, p := a.limbo[i], H.Promote(a, i);
    assert p.limbo[i] == Front(q) && Front(q)[..m] == q[..m];
    assert p.limbo[i][m..] + p.vlist == q[m..] + a.vlist;
    assert p.limbo[i := q[..m]] == a.limbo[i := q[..m]];
  }

  lemma StopsHere(q: seq<Item>, size: nat, h: nat, clock: nat -> int, k: nat)
    requires q == [] || size > h || !IsOldEnough(LastOf(q).created, clock(k))
    ensures StopsAt(q, size, h, clock, k, |q|)
  {
    hide IsOldEnough;
  }

  lemma {:induction false} FillList(a: H.Lists, h: nat, i: nat, clock: nat -> int, k: nat) returns (m: nat, b: H.Lists)
    requires H.Shaped(a) && i < H.N_EPOCHS
    ensures StopsAt(a.limbo[i], |a.vlist|, h, clock, k, m) && MovedFrom(a, b, i, m)
    ensures H.Fill(a, h, i, clock, k) == H.Fill(b, h, i + 1, clock, NextReading(a.limbo[i], |a.vlist|, h, k, m))
    decreases |a.limbo[i]|
  {
    hide IsOldEnough, StopsAt, MovedFrom;
    var q := a.limbo[i];
    if |a.vlist| <= h && q != [] && IsOldEnough(LastOf(q).created, clock(k)) {
      var p := H.Promote(a, i);
      m, b := FillList(p, h, i, clock, k + 1);
      MovedFromOne(a, b, i, m);
      StopsMore(q, |a.vlist|, h, clock, k, m);
    } else {
      m, b := |q|, a;
      MovedFromNone(a, i);
      StopsHere(q, |a.vlist|, h, clock, k);
    }
  }

  /** Seen as a thread of src/smr_lazy.c. */
  function JustVlist(a: H.Lists): Lazy {
    Lazy([], a.vlist, a.cur, a.rcount, a.marked, a.freed)
  }

  /** The three loops, one after the other */
  ghost predicate StopInTurn(a: H.Lists, h: nat, clock: nat -> int, m0: nat, m1: nat, m2: nat)
    requires H.Shaped(a)
  {
    var l0, l1, l2 := a.limbo[0], a.limbo[1], a.limbo[2];
    && m0 <= |l0| && m1 <= |l1| && m2 <= |l2|
    && var s1 := |a.vlist| + (|l0| - m0);
       var s2, k1 := s1 + (|l1| - m1), NextReading(l0, |a.vlist|, h, 0, m0);
       && StopsAt(l0, |a.vlist|, h, clock, 0, m0) && StopsAt(l1, s1, h, clock, k1, m1)
       && StopsAt(l2, s2, h, clock, NextReading(l1, s1, h, k1, m1), m2)
  }

  lemma FillThree(a: H.Lists, h: nat, clock: nat -> int) returns (m0: nat, m1: nat, m2: nat, b: H.Lists)
    requires H.Shaped(a)
    ensures StopInTurn(a, h, clock, m0, m1, m2) && H.Fill(a, h, 0, clock, 0) == b
    ensures b.limbo == [a.limbo[0][..m0], a.limbo[1][..m1], a.limbo[2][..m2]] && b.cur == a.cur && b.freed == a.freed
    ensures b.vlist == (a.limbo[2][m2..] + a.limbo[1][m1..] + a.limbo[0][m0..]) + a.vlist
  {
    hide StopsAt, H.Fill, NextReading, MovedFrom, StopInTurn;
    var b0, b1;
    m0, b0 := FillList(a, h, 0, clock, 0);
    Counted(a, b0, 0, m0);
    var k1 := NextReading(a.limbo[0], |a.vlist|, h, 0, m0);
    m1, b1 := FillList(b0, h, 1, clock, k1);
    Counted(b0, b1, 1, m1);
    var k2 := NextReading(a.limbo[1], |b0.vlist|, h, k1, m1);
    m2, b := FillList(b1, h, 2, clock, k2);
    Counted(b1, b, 2, m2);
    NothingLeft(b, h, clock, NextReading(a.limbo[2], |b1.vlist|, h, k2, m2));
    InTurn(a, h, clock, m0, m1, m2, |b0.vlist|, |b1.vlist|);
    ThreeMoved(a, b0, b1, b, m0, m1, m2);
  }

  lemma Counted(a: H.Lists, b: H.Lists, i: nat, m: nat)
    requires MovedFrom(a, b, i, m)
    ensures H.Shaped(a) && H.Shaped(b) && i < H.N_EPOCHS && m <= |a.limbo[i]| && |b.vlist| == |a.vlist| + (|a.limbo[i]| - m)
    ensures forall j :: 0 <= j < H.N_EPOCHS && j != i ==> b.limbo[j] == a.limbo[j]
  {
  }

  lemma NothingLeft(a: H.Lists, h: nat, clock: nat -> int, k: nat)
    requires H.Shaped(a)
    ensures H.Fill(a, h, H.N_EPOCHS, clock, k) == a
  {
  }

  lemma InTurn(a: H.Lists, h: nat, clock: nat -> int, m0: nat, m1: nat, m2: nat, s1: nat, s2: nat)
    requires H.Shaped(a) && m0 <= |a.limbo[0]| && m1 <= |a.limbo[1]| && m2 <= |a.limbo[2]|
    requires s1 == |a.vlist| + (|a.limbo[0]| - m0) && s2 == s1 + (|a.limbo[1]| - m1)
    requires var k1 := NextReading(a.limbo[0], |a.vlist|, h, 0, m0);
             && StopsAt(a.limbo[0], |a.vlist|, h, clock, 0, m0) && StopsAt(a.limbo[1], s1, h, clock, k1, m1)
             && StopsAt(a.limbo[2], s2, h, clock, NextReading(a.limbo[1], s1, h, k1, m1), m2)
    ensures StopInTurn(a, h, clock, m0, m1, m2)
  {
    hide StopsAt, NextReading;
  }

  /** update_lists promotes from each limbo list in turn, the oldest nodes first, what is old enough at a reading of its
      own, until vlist has more than H nodes or the oldest node left in the list is too young at the last reading. */
  lemma UpdatePromotes(a: H.Lists, slots: Slots, clock: nat -> int) returns (m0: nat, m1: nat, m2: nat)
    requires H.Shaped(a) && a.cur < |slots|
    ensures var b, l0, l1, l2 := H.UpdateLists(a, slots, clock), a.limbo[0], a.limbo[1], a.limbo[2];
            && StopInTurn(a, |slots|, clock, m0, m1, m2) && b.limbo == [l0[..m0], l1[..m1], l2[..m2]]
            && From(JustVlist(a), JustVlist(b), l2[m2..] + l1[m1..] + l0[m0..])
  {
    var b;
    m0, m1, m2, b := FillThree(a, |slots|, clock);
    assert m0 <= |a.limbo[0]| && m1 <= |a.limbo[1]| && m2 <= |a.limbo[2]|;
    hide StopInTurn, H.Fill, From, H.Rotate;
    RotatedOrNot(a, b, slots, a.limbo[2][m2..] + a.limbo[1][m1..] + a.limbo[0][m0..]);
  }

  lemma ThreeMoved(a: H.Lists, b0: H.Lists, b1: H.Lists, b2: H.Lists, m0: nat, m1: nat, m2: nat)
    requires MovedFrom(a, b0, 0, m0) && MovedFrom(b0, b1, 1, m1) && MovedFrom(b1, b2, 2, m2)
    ensures b0.limbo[1] == a.limbo[1] && b1.limbo[2] == a.limbo[2] && m0 <= |a.limbo[0]| && m1 <= |a.limbo[1]| && m2 <= |a.limbo[2]|
    ensures |b0.vlist| == |a.vlist| + (|a.limbo[0]| - m0) && |b1.vlist| == |b0.vlist| + (|a.limbo[1]| - m1)
    ensures b2.limbo == [a.limbo[0][..m0], a.limbo[1][..m1], a.limbo[2][..m2]]
    ensures b2.vlist == (a.limbo[2][m2..] + a.limbo[1][m1..] + a.limbo[0][m0..]) + a.vlist
    ensures b2.cur == a.cur && b2.freed == a.freed
  {
  }

  lemma RotatedOrNot(a: H.Lists, b: H.Lists, slots: Slots, moved: seq<Item>)
    requires b.cur == a.cur < |slots| && b.freed == a.freed && b.vlist == moved + a.vlist
    ensures var c := if |b.vlist| > |slots| then H.Rotate(b, slots) else b;
            From(JustVlist(a), JustVlist(c), moved) && c.limbo == b.limbo
  {
    hide From;
    if |b.vlist| > |slots| {
      RotateSame(b, slots);
      RotatesFrom(JustVlist(a), JustVlist(b), slots, moved);
    } else {
      StaysFrom(JustVlist(a), JustVlist(b), moved);
    }
  }

  lemma RotateSame(a: H.Lists, slots: Slots)
    requires a.cur < |slots| && a.vlist != []
    ensures JustVlist(H.Rotate(a, slots)) == Rotation(JustVlist(a), slots) && H.Rotate(a, slots).limbo == a.limbo
  {
  }
}
