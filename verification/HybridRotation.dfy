/** Rotations and scans over the same vlist in src/hybrid_lazy.c. A scan keeps what is in a slot but does not mark it, and
    shortens vlist, so a node that has had its second chance can come to the tail before all slots were visited.
    Here is a sequence of calls in which a rotation frees a node that is in a slot, the condition on scans under which no
    run does, and the proof that it is exact.
 */
module HybridRotation {
  import opened Addresses
  import opened Options
  import opened DoubleLlist
  import opened ItemLists
  import opened Timing
  import opened Counting
  import LR = LazyRotation
  import opened LazyHybrid

  /** retired is what the thread has retired so far. */
  datatype State = State(a: Lists, slots: Slots, pos: LR.Position, retired: multiset<Node>)

  predicate Init(s: State) {
    && s.a == EMPTY.(marked := s.a.marked) && s.pos == LR.Outside && |s.slots| > 0 && s.retired == multiset{}
  }

  // ----- steps

  /** Any thread writes a hazard slot. A slot never newly takes a node that is already retired. */
  predicate SlotStep(s: State, s': State, i: nat, v: Option<Node>) {
    i < |s.slots| && (v.Some? ==> v.value !in s.retired) && s' == s.(slots := s.slots[i := v])
  }

  /** Other threads' rotations may set any mark; they unmark only what is in their own lists. */
  predicate MarkStep(s: State, s': State, marked: set<Node>) {
    (forall n :: n in Nodes(s.a.vlist) && n in s.a.marked ==> n in marked) && s' == s.(a := s.a.(marked := marked))
  }

  /** free_node_later in fallback mode begins. */
  predicate EnterStep(s: State, s': State, epoch: nat, x: Item) {
    && s.pos == LR.Outside && Shaped(s.a) && epoch < N_EPOCHS && x.node !in s.retired
    && s' == s.(a := Enqueue(s.a, epoch, x), pos := LR.Inside, retired := s.retired + multiset{x.node})
  }

  predicate PromoteStep(s: State, s': State, i: nat) {
    && s.pos == LR.Inside && Shaped(s.a) && i < N_EPOCHS && s.a.limbo[i] != [] && s' == s.(a := Promote(s.a, i))
  }

  predicate VisitStep(s: State, s': State) {
    && s.pos == LR.Inside && |s.a.vlist| > |s.slots| && s.a.cur < |s.slots|
    && s' == s.(a := Visited(s.a, s.slots), pos := LR.Visited)
  }

  predicate TurnStep(s: State, s': State) {
    s.pos == LR.Visited && s.a.vlist != [] && s' == s.(a := Turned(s.a), pos := LR.Outside)
  }

  predicate LeaveStep(s: State, s': State) {
    s.pos == LR.Inside && |s.a.vlist| <= |s.slots| && s' == s.(pos := LR.Outside)
  }

  predicate ProcessStep(s: State, s': State, l: nat) {
    s.pos == LR.Outside && Shaped(s.a) && l < N_EPOCHS && s' == s.(a := Process(s.a, l))
  }

  /** seen is what scan found in the slots: at least what they hold of vlist all the time. */
  predicate ScanStep(s: State, s': State, seen: Slots, clock: nat -> int) {
    && s.pos == LR.Outside && Shaped(s.a) && s' == s.(a := Scan(s.a, seen, clock))
    && forall i :: 0 <= i < |s.slots| && s.slots[i].Some? && s.slots[i].value in Nodes(s.a.vlist) ==> s.slots[i].value in Hazardous(seen)
  }

  predicate DrainStep(s: State, s': State) {
    s.pos == LR.Outside && Shaped(s.a) && s' == s.(a := Drain(s.a))
  }

  ghost predicate Next(s: State, s': State) {
    || (exists i, v :: SlotStep(s, s', i, v))
    || (exists marked :: MarkStep(s, s', marked))
    || (exists epoch, x :: EnterStep(s, s', epoch, x))
    || (exists i :: PromoteStep(s, s', i))
    || VisitStep(s, s') || TurnStep(s, s') || LeaveStep(s, s') || DrainStep(s, s')
    || (exists l :: ProcessStep(s, s', l))
    || (exists seen, clock :: ScanStep(s, s', seen, clock))
  }

  /** The number of visits before slot i is visited. */
  function Ahead(cur: nat, i: nat, h: nat): nat
    requires cur < h && i < h
  {
    if i >= cur then i - cur else i - cur + h
  }

  /** One of the next c slots to be visited holds n. */
  predicate Seen(slots: Slots, cur: nat, c: int, n: Node)
    requires cur < |slots|
  {
    exists i :: 0 <= i < |slots| && slots[i] == Some(n) && Ahead(cur, i, |slots|) < c
  }

  /** Every slot that holds n is one of the next c to be visited. */
  predicate OnlyAhead(slots: Slots, cur: nat, c: int, n: Node)
    requires cur < |slots|
  {
    forall i :: 0 <= i < |slots| && slots[i] == Some(n) ==> Ahead(cur, i, |slots|) < c
  }

  /** The condition on a scan: every slot that holds a node left unmarked in vlist, d places before the tail, is one of
      the next d + 1 to be visited. */
  predicate KeptSafe(a: Lists, slots: Slots) {
    && a.cur < |slots|
    && forall k :: 0 <= k < |a.vlist| && a.vlist[k].node !in a.marked ==> OnlyAhead(slots, a.cur, |a.vlist| - k, a.vlist[k].node)
  }

  ghost predicate StepOk(s: State, s': State) {
    forall seen, clock :: ScanStep(s, s', seen, clock) ==> KeptSafe(Scan(s.a, seen, clock), s.slots)
  }

  // ----- the invariant

  /** vlist as a thread of the lazy scheme has it, with nothing in rlist. */
  function AsLazy(s: State): LR.State {
    LR.State(LR.Lazy([], s.a.vlist, s.a.cur, |s.a.vlist|, s.a.marked, s.a.freed), s.slots, s.pos)
  }

  ghost predicate Inv(s: State) {
    && Accounted(s.a, s.retired) && (forall n :: s.retired[n] <= 1)
    && LR.Inv(AsLazy(s))
  }

  /** A node that was retired once stands in one place only. */
  lemma OnePlace(a: Lists, retired: multiset<Node>, n: Node)
    requires Accounted(a, retired) && retired[n] <= 1
    ensures multiset(Nodes(a.vlist))[n] <= 1 && (n in Nodes(a.vlist) ==> n in retired)
    ensures forall i :: 0 <= i < N_EPOCHS && n in Nodes(a.limbo[i]) ==> n !in Nodes(a.vlist)
  {
    assert Places(a, n) == retired[n];
    assert forall i :: 0 <= i < N_EPOCHS && n in Nodes(a.limbo[i]) ==> n in multiset(Nodes(a.limbo[i]));
    assert n in Nodes(a.vlist) ==> n in multiset(Nodes(a.vlist));
  }

  lemma {:induction false} CountsDistinct(q: seq<Node>)
    requires forall n :: multiset(q)[n] <= 1
    ensures Distinct(q)
  {
    if q != [] {
      var p, x := q[..|q| - 1], q[|q| - 1];
      assert q == p + [x];
      assert multiset(q) == multiset(p) + multiset{x};
      forall n ensures multiset(p)[n] <= 1 {
        assert multiset(q)[n] <= 1;
      }
      CountsDistinct(p);
      assert multiset(q)[x] <= 1;
      assert x !in multiset(p);
    }
  }

  lemma VlistDistinct(a: Lists, retired: multiset<Node>)
    requires Accounted(a, retired) && forall n :: retired[n] <= 1
    ensures Distinct(Nodes(a.vlist))
  {
    forall n ensures multiset(Nodes(a.vlist))[n] <= 1 {
      OnePlace(a, retired, n);
    }
    CountsDistinct(Nodes(a.vlist));
  }

  /** vlist without rlist, or with one node in it, for the lemmas about the lazy scheme. */
  lemma JustVlist(s: State)
    ensures s.a.vlist + [] == s.a.vlist
  {
  }

  /** Steps that leave vlist, its marks and the slots alone. */
  lemma SameVlist(s: State, s': State)
    requires LR.Inv(AsLazy(s)) && s'.slots == s.slots && s'.a == s'.a.(vlist := s.a.vlist, cur := s.a.cur, marked := s.a.marked)
    requires s.pos != LR.Visited && s'.pos != LR.Visited
    ensures LR.Inv(AsLazy(s'))
  {
    forall k | 0 <= k < |s'.a.vlist| ensures LR.UnmarkedOk(AsLazy(s'), k) {
      assert LR.UnmarkedOk(AsLazy(s), k);
    }
  }

  lemma SlotKeeps(s: State, s': State, i: nat, v: Option<Node>)
    requires Inv(s) && SlotStep(s, s', i, v)
    ensures Inv(s')
  {
    if v.Some? {
      OnePlace(s.a, s.retired, v.value);
    }
    hide Accounted;
    LR.SlotInv(AsLazy(s), AsLazy(s'), i, v);
  }

  lemma MarkKeeps(s: State, s': State, marked: set<Node>)
    requires Inv(s) && MarkStep(s, s', marked)
    ensures Inv(s')
  {
    LR.MarkInv(AsLazy(s), AsLazy(s'), marked);
  }

  lemma EnterKeeps(s: State, s': State, epoch: nat, x: Item)
    requires Inv(s) && EnterStep(s, s', epoch, x)
    ensures Inv(s')
  {
    EnqueueConserves(s.a, s.retired, epoch, x);
    hide Accounted;
    SameVlist(s, s');
  }

  /** For the lazy scheme, the node that is about to be promoted is in rlist. */
  function BeforePromotion(s: State, x: Item): LR.State {
    var l := AsLazy(s);
    l.(l := l.l.(rlist := [x], rcount := |s.a.vlist| + 1))
  }

  lemma BeforePromotionOk(s: State, x: Item)
    requires LR.Inv(AsLazy(s)) && x.node !in Nodes(s.a.vlist) && s.pos != LR.Visited && Distinct(Nodes(s.a.vlist))
    ensures LR.Inv(BeforePromotion(s, x))
  {
    assert Nodes(s.a.vlist + [x]) == Nodes(s.a.vlist) + [x.node];
    forall k | 0 <= k < |s.a.vlist| ensures LR.UnmarkedOk(BeforePromotion(s, x), k) {
      assert LR.UnmarkedOk(AsLazy(s), k);
    }
  }

  lemma PromoteKeeps(s: State, s': State, i: nat)
    requires Inv(s) && PromoteStep(s, s', i)
    ensures Inv(s')
  {
    PromoteConserves(s.a, s.retired, i);
    var x := LastOf(s.a.limbo[i]);
    assert x.node in Nodes(s.a.limbo[i]) by { assert Nodes(s.a.limbo[i])[|s.a.limbo[i]| - 1] == x.node; }
    OnePlace(s.a, s.retired, x.node);
    VlistDistinct(s.a, s.retired);
    hide Accounted, Nodes, Distinct, LR.Inv;
    BeforePromotionOk(s, x);
    assert Front([x]) == [] && LastOf([x]) == x;
    LR.PromoteInv(BeforePromotion(s, x), AsLazy(s'), true);
  }

  lemma VisitKeeps(s: State, s': State)
    requires Inv(s) && VisitStep(s, s')
    ensures Inv(s')
  {
    LR.VisitInv(AsLazy(s), AsLazy(s'));
  }

  lemma TurnKeeps(s: State, s': State)
    requires Inv(s) && TurnStep(s, s')
    ensures Inv(s')
  {
    hide *;
    TurnParts(s, s');
    TurnConserves(s.a, s.retired);
    LR.TurnInv(AsLazy(s), AsLazy(s'));
    InvFrom(s');
  }

  lemma TurnParts(s: State, s': State)
    requires Inv(s) && TurnStep(s, s')
    ensures Accounted(s.a, s.retired) && (forall n :: s.retired[n] <= 1) && s'.retired == s.retired
    ensures s.a.vlist != [] && s'.a == Turned(s.a)
    ensures LR.Inv(AsLazy(s)) && LR.TurnStep(AsLazy(s), AsLazy(s'))
  {
    hide Accounted, LR.Inv;
  }

  /** The slots ahead and those visited last are the same ones, counted from both ends. */
  lemma AheadClears(s: State, k: nat)
    requires s.a.cur < |s.slots| && k < |s.a.vlist| && s.pos == LR.Outside
    requires OnlyAhead(s.slots, s.a.cur, |s.a.vlist| - k, s.a.vlist[k].node)
    ensures LR.UnmarkedOk(AsLazy(s), k)
  {
    var l := AsLazy(s);
    var h, n := |s.slots|, s.a.vlist[k].node;
    forall j | 0 <= j < LR.Cleared(l, k) && j < h ensures s.slots[LR.Back(s.a.cur, j, h)] != Some(n) {
      assert Ahead(s.a.cur, LR.Back(s.a.cur, j, h), h) == h - 1 - j;
    }
  }

  lemma SafeInv(s: State)
    requires KeptSafe(s.a, s.slots) && Distinct(Nodes(s.a.vlist)) && s.pos == LR.Outside
    ensures LR.Inv(AsLazy(s))
  {
    JustVlist(s);
    hide Nodes, Distinct, LR.UnmarkedOk;
    forall k | 0 <= k < |s.a.vlist| ensures LR.UnmarkedOk(AsLazy(s), k) {
      if s.a.vlist[k].node !in s.a.marked {
        AheadClears(s, k);
      } else {
        MarkedOk(s, k);
      }
    }
  }

  lemma MarkedOk(s: State, k: nat)
    requires k < |s.a.vlist| && s.a.vlist[k].node in s.a.marked
    ensures LR.UnmarkedOk(AsLazy(s), k)
  {
  }

  lemma ScanKeeps(s: State, s': State, seen: Slots, clock: nat -> int)
    requires Inv(s) && ScanStep(s, s', seen, clock) && KeptSafe(s'.a, s'.slots)
    ensures Inv(s')
  {
    hide *;
    ScanParts(s, s', seen, clock);
    ScanConserves(s.a, s.retired, seen, clock);
    VlistDistinct(s'.a, s.retired);
    SafeInv(s');
    InvFrom(s');
  }

  lemma ScanParts(s: State, s': State, seen: Slots, clock: nat -> int)
    requires Inv(s) && ScanStep(s, s', seen, clock)
    ensures Accounted(s.a, s.retired) && (forall n :: s.retired[n] <= 1) && s'.retired == s.retired
    ensures s'.a == Scan(s.a, seen, clock) && s'.pos == LR.Outside
  {
    hide Accounted, Scan, LR.Inv;
  }

  lemma InvFrom(s: State)
    requires Accounted(s.a, s.retired) && (forall n :: s.retired[n] <= 1) && LR.Inv(AsLazy(s))
    ensures Inv(s)
  {
    hide Accounted, LR.Inv;
  }

  lemma DrainKeeps(s: State, s': State)
    requires Inv(s) && DrainStep(s, s')
    ensures Inv(s')
  {
    DrainConserves(s.a, s.retired);
    hide Accounted;
    SafeInv(s');
  }

  lemma ProcessKeeps(s: State, s': State, l: nat)
    requires Inv(s) && ProcessStep(s, s', l)
    ensures Inv(s')
  {
    ProcessConserves(s.a, s.retired, l);
    hide Accounted;
    SameVlist(s, s');
  }

  lemma NextKeeps(s: State, s': State)
    requires Inv(s) && Next(s, s') && StepOk(s, s')
    ensures Inv(s')
  {
    hide Inv, SlotStep, MarkStep, EnterStep, PromoteStep, ProcessStep, DrainStep, KeptSafe, Scan;
    if i: nat, v :| SlotStep(s, s', i, v) {
      SlotKeeps(s, s', i, v);
    } else if marked :| MarkStep(s, s', marked) {
      MarkKeeps(s, s', marked);
    } else if epoch: nat, x :| EnterStep(s, s', epoch, x) {
      EnterKeeps(s, s', epoch, x);
    } else if i: nat :| PromoteStep(s, s', i) {
      PromoteKeeps(s, s', i);
    } else if VisitStep(s, s') {
      VisitKeeps(s, s');
    } else if TurnStep(s, s') {
      TurnKeeps(s, s');
    } else if l: nat :| ProcessStep(s, s', l) {
      ProcessKeeps(s, s', l);
    } else if seen, clock :| ScanStep(s, s', seen, clock) {
      ScanKeeps(s, s', seen, clock);
    } else if DrainStep(s, s') {
      DrainKeeps(s, s');
    } else {
      LeaveKeeps(s, s');
    }
  }

  lemma LeaveKeeps(s: State, s': State)
    requires Inv(s) && LeaveStep(s, s')
    ensures Inv(s')
  {
    hide Accounted;
    SameVlist(s, s');
  }

  // ----- over whole runs

  ghost predicate Run(run: seq<State>) {
    run != [] && Init(run[0]) && forall i :: 0 <= i < |run| - 1 ==> Next(run[i], run[i + 1])
  }

  /** Every scan of the run meets the condition. */
  ghost predicate Tidy(run: seq<State>) {
    forall i :: 0 <= i < |run| - 1 ==> StepOk(run[i], run[i + 1])
  }

  lemma InitInv(s: State)
    requires Init(s)
    ensures Inv(s)
  {
    assert Nodes(s.a.vlist) == [];
  }

  lemma {:induction false} RunInv(run: seq<State>, i: nat)
    requires Run(run) && Tidy(run) && i < |run|
    ensures Inv(run[i])
  {
    if i == 0 {
      InitInv(run[0]);
    } else {
      RunInv(run, i - 1);
      assert Next(run[i - 1], run[i - 1 + 1]) && StepOk(run[i - 1], run[i - 1 + 1]);
      hide Inv, Next, StepOk;
      NextKeeps(run[i - 1], run[i]);
    }
  }

  /** In every run whose scans meet the condition, a node that a rotation frees is in no slot. */
  lemma FreedIsInNoSlot(run: seq<State>, k: nat, i: nat)
    requires Run(run) && Tidy(run) && k + 1 < |run| && TurnStep(run[k], run[k + 1]) && run[k + 1].a.freed != run[k].a.freed
    requires i < |run[k].slots|
    ensures |run[k + 1].a.freed| == |run[k].a.freed| + 1
    ensures run[k].slots[i] != Some(run[k + 1].a.freed[|run[k].a.freed|])
  {
    RunInv(run, k);
    hide Run, Tidy;
    LR.TailIsClear(AsLazy(run[k]), i);
  }

  // ----- exactly when, while the slots stand still

  predicate EndsWith(q: seq<Item>, end: seq<Item>) {
    |end| <= |q| && q[|q| - |end|..] == end
  }

  lemma EndsWithNodes(q: seq<Item>, end: seq<Item>, n: Node)
    requires EndsWith(q, end) && n in Nodes(end)
    ensures n in Nodes(q)
  {
    var i :| 0 <= i < |end| && Nodes(end)[i] == n;
    assert end[i] == q[|q| - |end| + i];
  }

  /** What may happen to a thread's lists between two of its rotations: promotions, and retiring and freeing of nodes
      that are not in vlist. */
  ghost predicate Filled(a: Lists, m: Lists) {
    && EndsWith(m.vlist, a.vlist) && Distinct(Nodes(m.vlist)) && m.cur == a.cur && a.freed <= m.freed
    && forall n :: n in Nodes(a.vlist) ==> (n in m.marked <==> n in a.marked) && (n in m.freed <==> n in a.freed)
  }

  /** Up to the end of the next rotation. */
  ghost predicate Round(a: Lists, b: Lists, slots: Slots) {
    exists m :: Filled(a, m) && m.cur < |slots| < |m.vlist| && b == Rotate(m, slots)
  }

  ghost predicate Rounds(s: seq<Lists>, slots: Slots) {
    s != [] && forall i :: 0 <= i < |s| - 1 ==> Round(s[i], s[i + 1], slots)
  }

  /** A call of free_node_later in fallback mode that rotates is such a round. */
  lemma RetireIsRound(a: Lists, retired: multiset<Node>, epoch: nat, x: Item, slots: Slots, clock: nat -> int)
    requires Accounted(a, retired) && retired[x.node] == 0 && (forall n :: retired[n] <= 1) && epoch < N_EPOCHS
    requires a.cur < |slots| && |Fill(Enqueue(a, epoch, x), |slots|, 0, clock, 0).vlist| > |slots|
    ensures Round(a, Retire(a, epoch, x, true, slots, clock), slots)
  {
    EnqueueConserves(a, retired, epoch, x);
    var e := Enqueue(a, epoch, x);
    FillFills(e, retired + multiset{x.node}, |slots|, 0, clock, 0);
    FillKeepsCur(e, |slots|, 0, clock, 0);
    assert Filled(a, Fill(e, |slots|, 0, clock, 0));
  }

  lemma {:induction false} FillFills(a: Lists, retired: multiset<Node>, h: nat, i: nat, clock: nat -> int, k: nat)
    requires Accounted(a, retired) && (forall n :: retired[n] <= 1) && i <= N_EPOCHS
    ensures Filled(a, Fill(a, h, i, clock, k))
    decreases N_EPOCHS - i, if i < N_EPOCHS then |a.limbo[i]| else 0
  {
    hide Accounted, Filled;
    assert Shaped(a) by { AccountedShaped(a, retired); }
    if i == N_EPOCHS {
      VlistDistinct(a, retired);
      NothingFilled(a);
    } else if |a.vlist| <= h && a.limbo[i] != [] {
      if IsOldEnough(LastOf(a.limbo[i]).created, clock(k)) {
        PromoteConserves(a, retired, i);
        FillFills(Promote(a, i), retired, h, i, clock, k + 1);
        PromoteFills(a, retired, i);
        FilledTwice(a, Promote(a, i), Fill(Promote(a, i), h, i, clock, k + 1));
      } else {
        FillFills(a, retired, h, i + 1, clock, k + 1);
      }
    } else {
      FillFills(a, retired, h, i + 1, clock, k);
    }
  }

  lemma NothingFilled(a: Lists)
    requires Distinct(Nodes(a.vlist))
    ensures Filled(a, a)
  {
  }

  lemma PromoteFills(a: Lists, retired: multiset<Node>, i: nat)
    requires Accounted(a, retired) && (forall n :: retired[n] <= 1) && i < N_EPOCHS && a.limbo[i] != []
    ensures Filled(a, Promote(a, i))
  {
    var x := LastOf(a.limbo[i]);
    assert Nodes(a.limbo[i])[|a.limbo[i]| - 1] == x.node;
    OnePlace(a, retired, x.node);
    PromoteConserves(a, retired, i);
    VlistDistinct(Promote(a, i), retired);
    assert Promote(a, i).vlist == [x] + a.vlist;
  }

  lemma FilledTwice(a: Lists, b: Lists, c: Lists)
    requires Filled(a, b) && Filled(b, c)
    ensures Filled(a, c)
  {
    forall n | n in Nodes(a.vlist) ensures n in Nodes(b.vlist) {
      EndsWithNodes(b.vlist, a.vlist, n);
    }
    hide Nodes;
    assert c.vlist[|c.vlist| - |a.vlist|..] == b.vlist[|b.vlist| - |a.vlist|..];
  }

  /** The slot after cur. */
  function Following(cur: nat, slots: Slots): nat
    requires cur < |slots|
  {
    (cur + 1) % |slots|
  }

  lemma SeenNext(slots: Slots, cur: nat, next: nat, c: int, n: Node)
    requires cur < |slots| && next == Following(cur, slots) && c > 0
    ensures next < |slots| && (Seen(slots, cur, c, n) <==> slots[cur] == Some(n) || Seen(slots, next, c - 1, n))
  {
    LR.NextSlot(cur, |slots|);
    var h := |slots|;
    assert forall i :: 0 <= i < h ==> Ahead(next, i, h) == if i == cur then h - 1 else Ahead(cur, i, h) - 1;
    if i :| 0 <= i < h && slots[i] == Some(n) && Ahead(cur, i, h) < c && i != cur {
      assert Ahead(next, i, h) < c - 1;
    }
    if i :| 0 <= i < h && slots[i] == Some(n) && Ahead(next, i, h) < c - 1 {
      assert Ahead(cur, i, h) < c;
    }
  }

  /** Item k is the last one of q with its node. */
  predicate LastAt(q: seq<Item>, k: nat) {
    k < |q| && q[k].node !in Nodes(q[k + 1..])
  }

  lemma LastInFront(q: seq<Item>, k: nat)
    requires LastAt(q, k) && k < |q| - 1
    ensures LastAt(Front(q), k) && LastOf(q).node != q[k].node
  {
    assert Nodes(q[k + 1..])[|q| - k - 2] == LastOf(q).node;
    assert Nodes(q[k + 1..]) == Nodes(Front(q)[k + 1..]) + [LastOf(q).node];
  }

  lemma LastBehind(q: seq<Item>, end: seq<Item>, k: nat)
    requires EndsWith(q, end) && LastAt(end, k)
    ensures var j := |q| - |end| + k; LastAt(q, j) && q[j] == end[k]
  {
    assert q[|q| - |end| + k + 1..] == end[k + 1..];
  }

  /** What one rotation does to a node that is not at the tail: it comes one place nearer. */
  lemma RotateNearer(m: Lists, slots: Slots, i: nat) returns (j: nat)
    requires m.cur < |slots| && LastAt(m.vlist, i) && i < |m.vlist| - 1
    ensures var b, n := Rotate(m, slots), m.vlist[i].node;
            && b.cur == Following(m.cur, slots)
            && LastAt(b.vlist, j) && b.vlist[j] == m.vlist[i] && |b.vlist| - j == |m.vlist| - i - 1
            && (n in b.marked <==> n in m.marked || slots[m.cur] == Some(n)) && (n in b.freed <==> n in m.freed)
  {
    LastInFront(m.vlist, i);
    RotateParts(m, slots);
    var b, x := Visited(m, slots), LastOf(m.vlist);
    hide Rotate, LastAt, Nodes;
    if x.node in b.marked {
      j := i + 1;
      LastBehind([x] + Front(m.vlist), Front(m.vlist), i);
    } else {
      j := i;
    }
  }

  lemma RoundNearer(a: Lists, b: Lists, slots: Slots, k: nat) returns (j: nat)
    requires Round(a, b, slots) && LastAt(a.vlist, k) && k < |a.vlist| - 1
    ensures a.cur < |slots| && b.cur == Following(a.cur, slots)
    ensures LastAt(b.vlist, j) && b.vlist[j] == a.vlist[k] && |b.vlist| - j == |a.vlist| - k - 1
    ensures var n := a.vlist[k].node; (n in b.marked <==> n in a.marked || slots[a.cur] == Some(n)) && (n in b.freed <==> n in a.freed)
  {
    hide *;
    var m := RoundParts(a, b, slots);
    FilledAt(a, m, k);
    j := RotateNearer(m, slots, |m.vlist| - |a.vlist| + k);
  }

  lemma RoundParts(a: Lists, b: Lists, slots: Slots) returns (m: Lists)
    requires Round(a, b, slots)
    ensures Filled(a, m) && m.cur < |slots| < |m.vlist| && b == Rotate(m, slots)
  {
    m :| Filled(a, m) && m.cur < |slots| < |m.vlist| && b == Rotate(m, slots);
  }

  lemma FilledAt(a: Lists, m: Lists, k: nat)
    requires Filled(a, m) && LastAt(a.vlist, k)
    ensures |m.vlist| >= |a.vlist| && m.cur == a.cur
    ensures var i, n := |m.vlist| - |a.vlist| + k, a.vlist[k].node;
            && LastAt(m.vlist, i) && m.vlist[i] == a.vlist[k]
            && (n in m.marked <==> n in a.marked) && (n in m.freed <==> n in a.freed)
  {
    assert Nodes(a.vlist)[k] == a.vlist[k].node;
    LastBehind(m.vlist, a.vlist, k);
    hide LastAt;
  }

  lemma DistinctFront(q: seq<Item>)
    requires q != [] && Distinct(Nodes(q))
    ensures LastOf(q).node !in Nodes(Front(q))
  {
    assert Nodes(q) == Nodes(Front(q)) + [LastOf(q).node];
  }

  /** And to one at the tail. */
  lemma RotateAtTail(m: Lists, slots: Slots)
    requires m.cur < |slots| < |m.vlist| && Distinct(Nodes(m.vlist))
    ensures var b, n := Rotate(m, slots), LastOf(m.vlist).node;
            && b.cur == Following(m.cur, slots)
            && if n in m.marked || slots[m.cur] == Some(n) then
                 |b.vlist| > |slots| && LastAt(b.vlist, 0) && b.vlist[0] == LastOf(m.vlist) && b.freed == m.freed
               else n in b.freed
  {
    RotateParts(m, slots);
    DistinctFront(m.vlist);
    hide Rotate, Nodes, Distinct;
    assert ([LastOf(m.vlist)] + Front(m.vlist))[1..] == Front(m.vlist);
  }

  lemma RoundAtTail(a: Lists, b: Lists, slots: Slots)
    requires Round(a, b, slots) && a.vlist != []
    ensures a.cur < |slots| && b.cur == Following(a.cur, slots)
    ensures var n := LastOf(a.vlist).node;
            if n in a.marked || slots[a.cur] == Some(n) then
              |b.vlist| > |slots| && LastAt(b.vlist, 0) && b.vlist[0] == LastOf(a.vlist) && (n in b.freed <==> n in a.freed)
            else n in b.freed
  {
    TailLastAt(a.vlist);
    LastIs(a.vlist);
    hide *;
    var m := RoundParts(a, b, slots);
    FilledAt(a, m, |a.vlist| - 1);
    FilledDistinct(a, m);
    LastIs(m.vlist);
    RotateAtTail(m, slots);
  }

  lemma TailLastAt(q: seq<Item>)
    requires q != []
    ensures LastAt(q, |q| - 1)
  {
  }

  lemma LastIs(q: seq<Item>)
    requires q != []
    ensures LastOf(q) == q[|q| - 1]
  {
  }

  lemma FilledDistinct(a: Lists, m: Lists)
    requires Filled(a, m)
    ensures Distinct(Nodes(m.vlist))
  {
  }

  /** Item k of vlist, d places before the tail, is unmarked, and in none of the next d + 1 slots to be visited. */
  predicate Doomed(a: Lists, slots: Slots, k: nat)
    requires a.cur < |slots| && k < |a.vlist|
  {
    a.vlist[k].node !in a.marked && !Seen(slots, a.cur, |a.vlist| - k, a.vlist[k].node)
  }

  /** Item k of vlist is the only one with its node from there on, which has not been freed. */
  predicate Waiting(a: Lists, slots: Slots, k: nat) {
    a.cur < |slots| && LastAt(a.vlist, k) && a.vlist[k].node !in a.freed
  }

  lemma NearerDoomed(a: Lists, b: Lists, slots: Slots, k: nat) returns (j: nat)
    requires Round(a, b, slots) && Waiting(a, slots, k) && k < |a.vlist| - 1
    ensures Waiting(b, slots, j) && b.vlist[j] == a.vlist[k] && |b.vlist| - j == |a.vlist| - k - 1
    ensures Doomed(a, slots, k) <==> Doomed(b, slots, j)
  {
    SeenNext(slots, a.cur, Following(a.cur, slots), |a.vlist| - k, a.vlist[k].node);
    hide Round, Seen, LastAt, Following;
    j := RoundNearer(a, b, slots, k);
  }

  lemma TailDoomed(a: Lists, b: Lists, slots: Slots)
    requires Round(a, b, slots) && a.vlist != [] && Waiting(a, slots, |a.vlist| - 1)
    ensures LastOf(a.vlist).node in b.freed <==> Doomed(a, slots, |a.vlist| - 1)
    ensures !Doomed(a, slots, |a.vlist| - 1) ==>
              |b.vlist| > |slots| && Waiting(b, slots, 0) && b.vlist[0].node == LastOf(a.vlist).node
  {
    SeenNext(slots, a.cur, Following(a.cur, slots), 1, LastOf(a.vlist).node);
    NoneSeen(slots, Following(a.cur, slots), LastOf(a.vlist).node);
    hide Round, Seen, LastAt, Following;
    RoundAtTail(a, b, slots);
  }

  lemma NoneSeen(slots: Slots, cur: nat, n: Node)
    requires cur < |slots|
    ensures !Seen(slots, cur, 0, n)
  {
  }

  lemma RoundAt(s: seq<Lists>, slots: Slots, i: nat)
    requires Rounds(s, slots) && i < |s| - 1
    ensures Round(s[i], s[i + 1], slots)
  {
  }

  /** While the slots stand still: a node d places before the tail of vlist is freed by the rotation that comes to it,
      the (d + 1)-st, exactly if it is unmarked and none of the slots visited up to then holds it. */
  lemma {:induction false} FreedIff(s: seq<Lists>, slots: Slots, i: nat, k: nat, end: nat)
    requires Rounds(s, slots) && i < |s| && Waiting(s[i], slots, k) && end == i + (|s[i].vlist| - k) < |s|
    ensures s[i].vlist[k].node in s[end].freed <==> Doomed(s[i], slots, k)
    decreases |s| - i
  {
    var a, b := s[i], s[i + 1];
    RoundAt(s, slots, i);
    assert k < |a.vlist| && a.cur < |slots|;
    hide Rounds, Round, Doomed, Waiting;
    if k == |a.vlist| - 1 {
      TailDoomed(a, b, slots);
    } else {
      var j := NearerDoomed(a, b, slots, k);
      FreedIff(s, slots, i + 1, j, end);
    }
  }

  /** No node that a slot holds is so. */
  predicate KeptSeen(a: Lists, slots: Slots) {
    a.cur < |slots| && forall k :: 0 <= k < |a.vlist| && a.vlist[k].node in Hazardous(slots) ==> !Doomed(a, slots, k)
  }

  /** Every slot is visited within one turn. */
  lemma AllSeen(slots: Slots, cur: nat, c: int, n: Node)
    requires cur < |slots| <= c && n in Hazardous(slots)
    ensures Seen(slots, cur, c, n)
  {
    var i :| 0 <= i < |slots| && slots[i] == Some(n);
    assert Ahead(cur, i, |slots|) < c;
  }

  /** A node that is marked or in a slot ahead, and stays in a slot, is never freed. */
  lemma {:induction false} SeenNotFreed(s: seq<Lists>, slots: Slots, i: nat, k: nat)
    requires Rounds(s, slots) && i < |s| && Waiting(s[i], slots, k)
    requires s[i].vlist[k].node in Hazardous(slots) && !Doomed(s[i], slots, k)
    ensures s[i].vlist[k].node !in s[|s| - 1].freed
    decreases |s| - i
  {
    if i < |s| - 1 {
      var a, b := s[i], s[i + 1];
      RoundAt(s, slots, i);
      assert k < |a.vlist|;
      hide Rounds, Round, Doomed, Hazardous, LastAt;
      if k == |a.vlist| - 1 {
        TailDoomed(a, b, slots);
        NotDoomedAtHead(b, slots);
        SeenNotFreed(s, slots, i + 1, 0);
      } else {
        var j := NearerDoomed(a, b, slots, k);
        SeenNotFreed(s, slots, i + 1, j);
      }
    }
  }

  lemma NotDoomedAtHead(a: Lists, slots: Slots)
    requires a.cur < |slots| < |a.vlist| && a.vlist[0].node in Hazardous(slots)
    ensures !Doomed(a, slots, 0)
  {
    AllSeen(slots, a.cur, |a.vlist|, a.vlist[0].node);
  }

  lemma {:induction false} FreedStays(s: seq<Lists>, slots: Slots, i: nat)
    requires Rounds(s, slots) && i < |s|
    ensures s[i].freed <= s[|s| - 1].freed
    decreases |s| - i
  {
    if i < |s| - 1 {
      FreedStays(s, slots, i + 1);
      assert Round(s[i], s[i + 1], slots);
    }
  }

  lemma DistinctLastAt(q: seq<Item>, k: nat)
    requires Distinct(Nodes(q)) && k < |q|
    ensures LastAt(q, k)
  {
    var end := Nodes(q[k + 1..]);
    forall i | 0 <= i < |end| ensures end[i] != q[k].node {
      assert Nodes(q)[k] == q[k].node && Nodes(q)[k + 1 + i] == end[i];
    }
  }

  lemma FreedByEndIff(s: seq<Lists>, slots: Slots, k: nat)
    requires Rounds(s, slots) && Waiting(s[0], slots, k) && |s| > |s[0].vlist| && s[0].vlist[k].node in Hazardous(slots)
    ensures s[0].vlist[k].node in s[|s| - 1].freed <==> Doomed(s[0], slots, k)
  {
    if Doomed(s[0], slots, k) {
      FreedIff(s, slots, 0, k, |s[0].vlist| - k);
      FreedStays(s, slots, |s[0].vlist| - k);
    } else {
      SeenNotFreed(s, slots, 0, k);
    }
  }

  /** While the slots stand still, and whenever enough rotations follow that all of vlist comes to the tail: no node of
      vlist is freed while a slot holds it, now or later, exactly if each that is unmarked is in a slot visited before. */
  lemma StillSafeIff(s: seq<Lists>, slots: Slots)
    requires Rounds(s, slots) && |s| > |s[0].vlist| && s[0].cur < |slots| && Distinct(Nodes(s[0].vlist))
    requires forall n :: n in Nodes(s[0].vlist) ==> n !in s[0].freed
    ensures (forall n :: n in Nodes(s[0].vlist) && n in Hazardous(slots) ==> n !in s[|s| - 1].freed) <==> KeptSeen(s[0], slots)
  {
    var a := s[0];
    hide Rounds, LastAt, Doomed, Hazardous, Distinct;
    forall k | 0 <= k < |a.vlist| && a.vlist[k].node in Hazardous(slots)
      ensures var n := a.vlist[k].node;
              n in Nodes(a.vlist) && (n in s[|s| - 1].freed <==> Doomed(a, slots, k))
    {
      assert Nodes(a.vlist)[k] == a.vlist[k].node;
      DistinctLastAt(a.vlist, k);
      FreedByEndIff(s, slots, k);
    }
    forall n | n in Nodes(a.vlist) ensures exists k :: 0 <= k < |a.vlist| && a.vlist[k].node == n {
      var k :| 0 <= k < |a.vlist| && Nodes(a.vlist)[k] == n;
      assert a.vlist[k].node == n;
    }
  }

  /** So it is after a scan. What it kept of vlist can be told from the slots and the marks before the call. */
  lemma ScanSafeIff(a: Lists, retired: multiset<Node>, slots: Slots, clock: nat -> int, s: seq<Lists>)
    requires Accounted(a, retired) && (forall n :: retired[n] <= 1) && a.cur < |slots|
    requires Rounds(s, slots) && s[0] == Scan(a, slots, clock) && |s| > |s[0].vlist|
    ensures (forall n :: n in Nodes(s[0].vlist) && n in Hazardous(slots) ==> n !in s[|s| - 1].freed)
       <==> KeptSeen(Scan(a, slots, clock), slots)
  {
    ScanConserves(a, retired, slots, clock);
    VlistDistinct(s[0], retired);
    forall n | n in Nodes(s[0].vlist) ensures n !in s[0].freed {
      hide Scan;
      NotFreedYet(s[0], retired, n);
    }
    hide *;
    assert Scan(a, slots, clock).cur == a.cur by { ScanCur(a, slots, clock); }
    StillSafeIff(s, slots);
  }

  lemma NotFreedYet(a: Lists, retired: multiset<Node>, n: Node)
    requires Accounted(a, retired) && retired[n] <= 1 && n in Nodes(a.vlist)
    ensures n !in a.freed
  {
    assert Places(a, n) == retired[n] && n in multiset(Nodes(a.vlist));
    assert n in a.freed <==> n in multiset(a.freed);
  }

  lemma ScanCur(a: Lists, slots: Slots, clock: nat -> int)
    requires Shaped(a)
    ensures Scan(a, slots, clock).cur == a.cur
  {
  }

  /** Some slots have been cleared. */
  predicate Released(slots: Slots, later: Slots) {
    |later| == |slots| && forall i :: 0 <= i < |slots| ==> later[i] == slots[i] || later[i] == None
  }

  /** The condition for whole runs, in which slots do not stand still, is that the one above holds whatever slots are
      cleared. */
  lemma SafeIffSeen(a: Lists, slots: Slots)
    requires a.cur < |slots|
    ensures KeptSafe(a, slots) <==> forall later :: Released(slots, later) ==> KeptSeen(a, later)
  {
    if KeptSafe(a, slots) {
      forall later | Released(slots, later) ensures KeptSeen(a, later) {
        SafeSeen(a, slots, later);
      }
    }
    if forall later :: Released(slots, later) ==> KeptSeen(a, later) {
      forall k | 0 <= k < |a.vlist| && a.vlist[k].node !in a.marked
        ensures OnlyAhead(slots, a.cur, |a.vlist| - k, a.vlist[k].node)
      {
        var n := a.vlist[k].node;
        forall i | 0 <= i < |slots| && slots[i] == Some(n) ensures Ahead(a.cur, i, |slots|) < |a.vlist| - k {
          var later := seq(|slots|, j requires 0 <= j < |slots| => if j == i then slots[j] else None);
          assert Released(slots, later) && later[i] == Some(n);
        }
      }
    }
  }

  lemma SafeSeen(a: Lists, slots: Slots, later: Slots)
    requires KeptSafe(a, slots) && Released(slots, later)
    ensures KeptSeen(a, later)
  {
    forall k | 0 <= k < |a.vlist| && a.vlist[k].node in Hazardous(later) ensures !Doomed(a, later, k) {
      var i :| 0 <= i < |later| && later[i] == Some(a.vlist[k].node);
      assert slots[i] == later[i];
    }
  }

  // ----- a sequence of calls that goes wrong

  const SLOTS: Slots := [Some(1), None]

  function Late(): nat -> int {
    (i: nat) => 1_000_000
  }

  /** A call of free_node_later in fallback mode, with everything old enough. */
  function RetireCall(n: Node): Op {
    RetireOp(0, Item(n, 0), true, SLOTS, Late())
  }

  function Bad(): seq<Op> {
    [RetireCall(1), RetireCall(2), RetireCall(3), ScanOp(SLOTS, Late()), RetireCall(4), RetireCall(5)]
  }

  function ThreadLists(vlist: seq<Item>, cur: nat, marked: set<Node>, freed: seq<Node>): Lists {
    Lists([[], [], []], vlist, cur, |vlist|, marked, freed)
  }

  function Old(n: Node): Item {
    Item(n, 0)
  }

  lemma FirstCall()
    ensures Apply(EMPTY, RetireCall(1)) == ThreadLists([Old(1)], 0, {1}, [])
  {
  }

  lemma SecondCall()
    ensures Apply(ThreadLists([Old(1)], 0, {1}, []), RetireCall(2)) == ThreadLists([Old(2), Old(1)], 0, {1, 2}, [])
  {
  }

  /** Node 1 gets its second chance: it is at the head and unmarked. */
  lemma ThirdCall()
    ensures Apply(ThreadLists([Old(2), Old(1)], 0, {1, 2}, []), RetireCall(3))
         == ThreadLists([Old(1), Old(3), Old(2)], 1, {2, 3}, [])
  {
  }

  /** What the loops of the scan do. */
  lemma SiftThree()
    ensures var q := [Old(1), Old(3), Old(2)]; Kept(q, {1}, false, Late(), 0) == [Old(1)] && Dropped(q, {1}, false, Late(), 0) == [2, 3]
  {
    var q := [Old(1), Old(3), Old(2)];
    assert Front(q) == [Old(1), Old(3)] && Front([Old(1), Old(3)]) == [Old(1)] && Front([Old(1)]) == [];
    assert Kept([], {1}, false, Late(), 3) == [] && Dropped([], {1}, false, Late(), 3) == [];
    hide Kept, Dropped, Late;
    SiftLast([Old(1)], 2);
    SiftLast([Old(1), Old(3)], 1);
    SiftLast(q, 0);
  }

  /** The limbo lists are empty. */
  lemma SiftNone(k: nat)
    ensures Kept([], {1}, true, Late(), k) == [] && Dropped([], {1}, true, Late(), k) == []
  {
  }

  /** It leaves node 1 there alone. */
  lemma ScanCall()
    ensures Apply(ThreadLists([Old(1), Old(3), Old(2)], 1, {2, 3}, []), ScanOp(SLOTS, Late()))
         == ThreadLists([Old(1)], 1, {2, 3}, [2, 3])
  {
    assert SLOTS[0] == Some(1);
    assert Hazardous(SLOTS) == {1};
    SiftThree();
    SiftNone(0);
    hide Kept, Dropped, Hazardous;
    var a := ThreadLists([Old(1), Old(3), Old(2)], 1, {2, 3}, []);
    assert Readings(a, 1) == 0 && Readings(a, 2) == 0 && Readings(a, 3) == 0;
  }

  /** One round of the scan's loop over vlist. */
  lemma SiftLast(q: seq<Item>, k: nat)
    requires q != []
    ensures var rest := Kept(Front(q), {1}, false, Late(), k + 1);
            Kept(q, {1}, false, Late(), k) == if LastOf(q).node == 1 then rest + [LastOf(q)] else rest
    ensures var rest := Dropped(Front(q), {1}, false, Late(), k + 1);
            Dropped(q, {1}, false, Late(), k) == if LastOf(q).node == 1 then rest else [LastOf(q).node] + rest
  {
  }

  lemma FourthCall()
    ensures Apply(ThreadLists([Old(1)], 1, {2, 3}, [2, 3]), RetireCall(4))
         == ThreadLists([Old(4), Old(1)], 1, {2, 3, 4}, [2, 3])
  {
  }

  /** Slot 1 is visited, node 1 is at the tail, and slot 0 still holds it. */
  lemma FifthCall()
    ensures Apply(ThreadLists([Old(4), Old(1)], 1, {2, 3, 4}, [2, 3]), RetireCall(5))
         == ThreadLists([Old(5), Old(4)], 0, {2, 3, 4, 5}, [2, 3, 1])
  {
  }

  lemma OneMore(ops: seq<Op>, a: Lists, op: Op)
    requires After(ops, 2, a) && Shaped(a) && a.cur < 2 && OpOk(op, 2)
    ensures After(ops + [op], 2, Apply(a, op))
  {
    assert (ops + [op])[..|ops|] == ops;
    assert After((ops + [op])[..|ops|], 2, a);
  }

  /** The six calls, with slot 0 holding node 1 from the beginning to the end, free it in the last one. */
  lemma RotationFreesHeld() returns (a: Lists)
    ensures After(Bad(), 2, a) && SLOTS[0] == Some(1) && 1 in a.freed
    ensures forall i :: 0 <= i < |Bad()| ==> (Bad()[i].RetireOp? && Bad()[i].slots == SLOTS) || (Bad()[i].ScanOp? && Bad()[i].scanned == SLOTS)
  {
    FirstCall();
    SecondCall();
    ThirdCall();
    ScanCall();
    FourthCall();
    FifthCall();
    hide After, Apply;
    assert After([], 2, EMPTY) by { Empty(); }
    OneMore([], EMPTY, RetireCall(1));
    OneMore([] + [RetireCall(1)], ThreadLists([Old(1)], 0, {1}, []), RetireCall(2));
    var two := [] + [RetireCall(1)] + [RetireCall(2)];
    OneMore(two, ThreadLists([Old(2), Old(1)], 0, {1, 2}, []), RetireCall(3));
    OneMore(two + [RetireCall(3)], ThreadLists([Old(1), Old(3), Old(2)], 1, {2, 3}, []), ScanOp(SLOTS, Late()));
    var four := two + [RetireCall(3)] + [ScanOp(SLOTS, Late())];
    OneMore(four, ThreadLists([Old(1)], 1, {2, 3}, [2, 3]), RetireCall(4));
    OneMore(four + [RetireCall(4)], ThreadLists([Old(4), Old(1)], 1, {2, 3, 4}, [2, 3]), RetireCall(5));
    assert four + [RetireCall(4)] + [RetireCall(5)] == Bad();
    a := ThreadLists([Old(5), Old(4)], 0, {2, 3, 4, 5}, [2, 3, 1]);
  }

  lemma Empty()
    ensures After([], 2, EMPTY)
  {
  }
}
