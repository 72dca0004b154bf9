/** Incremental hazard pointers (src/smr_membar_lazy.c, src/smr_lazy.c): each rotation looks at one
    hazard slot and at the oldest node of vlist, and frees that node if nothing has marked it.

    The functions say what one thread's operations do to its lists; the steps below interleave them
    with the other threads, which change slots and set marks.
 */
module LazyRotation {
  import opened Addresses
  import opened Options
  import opened DoubleLlist
  import opened ItemLists
  import opened Timing
  import opened Counting

  /** The slots HP[0..H). */
  type Slots = seq<Option<Node>>

  /** One thread's sd and HP_cur. Lists are head first; marked is the set of nodes whose marked field is 1;
      freed lists what was handed back, oldest first. */
  datatype Lazy = Lazy(rlist: seq<Item>, vlist: seq<Item>, cur: nat, rcount: int, marked: set<Node>, freed: seq<Node>)

  /** The oldest node of rlist becomes the newest of vlist. */
  function Promote(l: Lazy, mark: bool): Lazy
    requires l.rlist != []
  {
    var x := LastOf(l.rlist);
    l.(rlist := Front(l.rlist), vlist := [x] + l.vlist, marked := if mark then l.marked + {x.node} else l.marked)
  }

  /** The promotion loop of src/smr_membar_lazy.c. */
  function Fill(l: Lazy, h: nat): Lazy
    decreases |l.rlist|
  {
    if |l.vlist| <= h && l.rlist != [] then Fill(Promote(l, true), h) else l
  }

  /** First half of a rotation: look at one slot, mark what it holds, go on to the next. */
  function Visit(l: Lazy, slots: Slots): Lazy
    requires l.cur < |slots|
  {
    l.(marked := if slots[l.cur].Some? then l.marked + {slots[l.cur].value} else l.marked, cur := (l.cur + 1) % |slots|)
  }

  /** Second half: the tail of vlist gets a second chance if it is marked, and is freed otherwise. */
  function Turn(l: Lazy): Lazy
    requires l.vlist != []
  {
    var x := LastOf(l.vlist);
    if x.node in l.marked then l.(vlist := [x] + Front(l.vlist), marked := l.marked - {x.node})
    else l.(vlist := Front(l.vlist), freed := l.freed + [x.node], rcount := l.rcount - 1)
  }

  function Rotation(l: Lazy, slots: Slots): Lazy
    requires l.cur < |slots| && l.vlist != []
  {
    Turn(Visit(l, slots))
  }

  function Enqueue(l: Lazy, x: Item): Lazy {
    l.(rlist := [x] + l.rlist, rcount := l.rcount + 1)
  }

  /** free_node_later of src/smr_membar_lazy.c. */
  function Retire(l: Lazy, slots: Slots, x: Item): Lazy
    requires l.cur < |slots|
  {
    var l1 := Fill(Enqueue(l, x), |slots|);
    if |l1.vlist| > |slots| then FillCur(Enqueue(l, x), |slots|); Rotation(l1, slots) else l1
  }

  lemma FillCur(l: Lazy, h: nat)
    ensures var l1 := Fill(l, h);
            l1.cur == l.cur && l1.freed == l.freed && l1.rcount == l.rcount
            && |l1.rlist| + |l1.vlist| == |l.rlist| + |l.vlist| && |l1.vlist| <= if |l.vlist| <= h then h + 1 else |l.vlist|
    decreases |l.rlist|
  {
  }

  /** The first promotion of src/smr_lazy.c: if the oldest node is old enough, whatever the size of vlist is;
      only while vlist is short is the node marked. */
  function PromoteOne(l: Lazy, h: nat, now: int): Lazy {
    if l.rlist != [] && IsOldEnough(LastOf(l.rlist).created, now) then Promote(l, |l.vlist| + 1 <= h) else l
  }

  /** The loop of src/smr_lazy.c; clock(i) is what the i-th reading of the clock returns. */
  function FillAged(l: Lazy, h: nat, clock: nat -> int, i: nat): Lazy
    decreases |l.rlist|
  {
    if |l.vlist| <= h && l.rlist != [] && IsOldEnough(LastOf(l.rlist).created, clock(i)) then
      FillAged(Promote(l, true), h, clock, i + 1)
    else l
  }

  /** free_node_later of src/smr_lazy.c. */
  function RetireAged(l: Lazy, slots: Slots, n: Node, clock: nat -> int): Lazy
    requires l.cur < |slots|
  {
    var l1 := PromoteOne(Enqueue(l, Item(n, clock(0))), |slots|, clock(1));
    if |l1.vlist| > |slots| then Rotation(l1, slots) else FillAged(l1, |slots|, clock, 2)
  }

  // ----- one thread among others

  datatype Position = Outside | Inside | Visited

  /** Inside: in free_node_later. Visited: between the two halves of a rotation. */
  datatype State = State(l: Lazy, slots: Slots, pos: Position)

  /** Retired by this thread and not freed yet. */
  predicate Waits(l: Lazy, n: Node) {
    n in Nodes(l.rlist) || n in Nodes(l.vlist)
  }

  predicate Init(s: State) {
    && s.l == Lazy([], [], 0, 0, s.l.marked, []) && s.pos == Outside && |s.slots| > 0
  }

  /** Any thread writes a hazard slot. A slot never newly takes a node that is already retired. */
  predicate SlotStep(s: State, s': State, i: nat, v: Option<Node>) {
    i < |s.slots| && (v.Some? ==> !Waits(s.l, v.value)) && s' == s.(slots := s.slots[i := v])
  }

  /** Other threads' rotations may set any mark; they unmark only what is in their own lists. */
  predicate MarkStep(s: State, s': State, marked: set<Node>) {
    (forall n :: n in Nodes(s.l.vlist) && n in s.l.marked ==> n in marked) && s' == s.(l := s.l.(marked := marked))
  }

  predicate EnqueueStep(s: State, s': State, x: Item) {
    s.pos == Outside && !Waits(s.l, x.node) && s' == s.(l := Enqueue(s.l, x), pos := Inside)
  }

  /** A promotion of either file: marked, or unmarked if vlist has become longer than the number of slots. */
  predicate PromoteStep(s: State, s': State, mark: bool) {
    s.pos == Inside && s.l.rlist != [] && (!mark ==> |s.l.vlist| + 1 > |s.slots|) && s' == s.(l := Promote(s.l, mark))
  }

  predicate VisitStep(s: State, s': State) {
    s.pos == Inside && |s.l.vlist| > |s.slots| && s.l.cur < |s.slots|
        && s' == s.(l := Visit(s.l, s.slots), pos := Visited)
  }

  predicate TurnStep(s: State, s': State) {
    s.pos == Visited && s.l.vlist != [] && s' == s.(l := Turn(s.l), pos := Outside)
  }

  predicate LeaveStep(s: State, s': State) {
    s.pos == Inside && |s.l.vlist| <= |s.slots| && s' == s.(pos := Outside)
  }

  ghost predicate Next(s: State, s': State) {
    || (exists i, v :: SlotStep(s, s', i, v))
    || (exists marked :: MarkStep(s, s', marked))
    || (exists x :: EnqueueStep(s, s', x))
    || PromoteStep(s, s', true) || PromoteStep(s, s', false)
    || VisitStep(s, s') || TurnStep(s, s') || LeaveStep(s, s')
  }

  // ----- the invariant

  /** The slot visited j visits before the last one. */
  function Back(cur: nat, j: nat, h: nat): int {
    if j < cur then cur - 1 - j else cur - 1 - j + h
  }

  /** None of the last c visited slots holds n. */
  predicate Clear(s: State, n: Node, c: int) {
    forall j :: 0 <= j < c && j < |s.slots| && s.l.cur < |s.slots| ==> s.slots[Back(s.l.cur, j, |s.slots|)] != Some(n)
  }

  /** How many of the last visited slots are known not to hold the unmarked node at position i of vlist: between the two
      halves of a rotation they and its distance to the tail add up to the number of slots, otherwise to one less. */
  function Cleared(s: State, i: int): int {
    |s.slots| - (|s.l.vlist| - i) + (if s.pos == Visited then 1 else 0)
  }

  predicate UnmarkedOk(s: State, i: nat)
    requires i < |s.l.vlist|
  {
    s.l.vlist[i].node !in s.l.marked ==> Clear(s, s.l.vlist[i].node, Cleared(s, i))
  }

  predicate Inv(s: State) {
    && s.l.cur < |s.slots|
    && s.l.rcount == |s.l.rlist| + |s.l.vlist|
    && Distinct(Nodes(s.l.vlist + s.l.rlist))
    && (s.pos == Visited ==> |s.l.vlist| > |s.slots|)
    && forall i :: 0 <= i < |s.l.vlist| ==> UnmarkedOk(s, i)
  }

  lemma NodesIn(l: Lazy, n: Node)
    ensures Waits(l, n) <==> n in Nodes(l.vlist + l.rlist)
  {
    assert Nodes(l.vlist + l.rlist) == Nodes(l.vlist) + Nodes(l.rlist);
  }

  lemma SlotInv(s: State, s': State, i: nat, v: Option<Node>)
    requires Inv(s) && SlotStep(s, s', i, v)
    ensures Inv(s')
  {
    forall k | 0 <= k < |s.l.vlist| ensures UnmarkedOk(s', k) {
      assert UnmarkedOk(s, k);
      assert Nodes(s.l.vlist)[k] == s.l.vlist[k].node && s.l.vlist[k].node in Nodes(s.l.vlist);
    }
  }

  lemma MarkInv(s: State, s': State, marked: set<Node>)
    requires Inv(s) && MarkStep(s, s', marked)
    ensures Inv(s')
  {
    forall k | 0 <= k < |s.l.vlist| ensures UnmarkedOk(s', k) {
      assert UnmarkedOk(s, k);
      assert Nodes(s.l.vlist)[k] == s.l.vlist[k].node && s.l.vlist[k].node in Nodes(s.l.vlist);
    }
  }

  lemma EnqueueInv(s: State, s': State, x: Item)
    requires Inv(s) && EnqueueStep(s, s', x)
    ensures Inv(s')
  {
    NodesIn(s.l, x.node);
    forall k | 0 <= k < |s.l.vlist| ensures UnmarkedOk(s', k) {
      assert UnmarkedOk(s, k);
    }
    var a, b := Nodes(s.l.vlist + s.l.rlist), Nodes(s'.l.vlist + s'.l.rlist);
    var v := |s.l.vlist|;
    assert forall i :: 0 <= i < |a| ==> a[i] in a;
    forall i, j | 0 <= i < j < |b| ensures b[i] != b[j] {
      assert b[i] == if i < v then a[i] else if i == v then x.node else a[i - 1];
      assert b[j] == if j < v then a[j] else if j == v then x.node else a[j - 1];
    }
  }

  lemma PromoteInv(s: State, s': State, mark: bool)
    requires Inv(s) && PromoteStep(s, s', mark)
    ensures Inv(s')
  {
    forall k | 0 <= k < |s'.l.vlist| ensures UnmarkedOk(s', k) {
      assert k > 0 ==> s'.l.vlist[k] == s.l.vlist[k - 1] && UnmarkedOk(s, k - 1);
    }
    var a, b := Nodes(s.l.vlist + s.l.rlist), Nodes(s'.l.vlist + s'.l.rlist);
    assert forall i :: 0 <= i < |b| ==> b[i] == if i == 0 then a[|a| - 1] else a[i - 1];
  }

  /** A visit makes one more slot known, unless it marks. */
  lemma VisitInv(s: State, s': State)
    requires Inv(s) && VisitStep(s, s')
    ensures Inv(s')
  {
    var h := |s.slots|;
    assert s'.l.cur == if s.l.cur + 1 == h then 0 else s.l.cur + 1;
    forall k | 0 <= k < |s.l.vlist| ensures UnmarkedOk(s', k) {
      VisitClears(s, s', k);
    }
  }

  lemma NextSlot(cur: nat, h: nat)
    requires cur < h
    ensures (cur + 1) % h == if cur + 1 == h then 0 else cur + 1
  {
  }

  /** Going on to the next slot. */
  lemma BackNext(cur: nat, next: nat, j: nat, h: nat)
    requires cur < h && j < h && next == if cur + 1 == h then 0 else cur + 1
    ensures Back(next, j, h) == if j == 0 then cur else Back(cur, j - 1, h)
  {
  }

  lemma VisitClears(s: State, s': State, k: nat)
    requires Inv(s) && VisitStep(s, s') && k < |s.l.vlist|
    ensures UnmarkedOk(s', k)
  {
    var h, n := |s.slots|, s.l.vlist[k].node;
    assert UnmarkedOk(s, k);
    NextSlot(s.l.cur, h);
    forall j | 0 <= j < Cleared(s', k) && j < h && n !in s'.l.marked ensures s'.slots[Back(s'.l.cur, j, h)] != Some(n) {
      BackNext(s.l.cur, s'.l.cur, j, h);
      hide Back;
    }
  }

  /** At the tail every slot has been visited: nothing that a slot holds can be freed. */
  lemma TailIsClear(s: State, i: nat)
    requires Inv(s) && s.pos == Visited && i < |s.slots| && LastOf(s.l.vlist).node !in s.l.marked
    ensures s.slots[i] != Some(LastOf(s.l.vlist).node)
  {
    var h, cur := |s.slots|, s.l.cur;
    assert UnmarkedOk(s, |s.l.vlist| - 1);
    var j := if i < cur then cur - 1 - i else cur - 1 - i + h;
    assert Back(cur, j, h) == i;
  }

  lemma TurnInv(s: State, s': State)
    requires Inv(s) && TurnStep(s, s')
    ensures Inv(s')
  {
    var v := s.l.vlist;
    var moved := LastOf(v).node in s.l.marked;
    forall k | 0 <= k < |s'.l.vlist| ensures UnmarkedOk(s', k) {
      var i := if moved then k - 1 else k;
      if i >= 0 {
        assert s'.l.vlist[k] == v[i] && UnmarkedOk(s, i);
        assert Nodes(v + s.l.rlist)[i] == v[i].node && Nodes(v + s.l.rlist)[|v| - 1] == LastOf(v).node;
      }
    }
    var a, b := Nodes(v + s.l.rlist), Nodes(s'.l.vlist + s'.l.rlist);
    assert forall i :: 0 <= i < |b| ==> b[i] == a[if moved then (if i == 0 then |v| - 1 else if i < |v| then i - 1 else i)
                                                  else (if i < |v| - 1 then i else i + 1)];
  }

  lemma NextInv(s: State, s': State)
    requires Inv(s) && Next(s, s')
    ensures Inv(s')
  {
    if i, v :| SlotStep(s, s', i, v) {
      SlotInv(s, s', i, v);
    } else if marked :| MarkStep(s, s', marked) {
      MarkInv(s, s', marked);
    } else if x :| EnqueueStep(s, s', x) {
      EnqueueInv(s, s', x);
    } else if PromoteStep(s, s', true) {
      PromoteInv(s, s', true);
    } else if PromoteStep(s, s', false) {
      PromoteInv(s, s', false);
    } else if VisitStep(s, s') {
      VisitInv(s, s');
    } else if TurnStep(s, s') {
      TurnInv(s, s');
    } else {
      forall k | 0 <= k < |s.l.vlist| ensures UnmarkedOk(s', k) {
        assert UnmarkedOk(s, k);
      }
    }
  }

  ghost predicate Run(run: seq<State>) {
    run != [] && Init(run[0]) && forall i :: 0 <= i < |run| - 1 ==> Next(run[i], run[i + 1])
  }

  lemma {:induction false} RunInv(run: seq<State>, i: nat)
    requires Run(run) && i < |run|
    ensures Inv(run[i])
  {
    if i > 0 {
      RunInv(run, i - 1);
      assert Next(run[i - 1], run[i - 1 + 1]);
      NextInv(run[i - 1], run[i]);
    }
  }

  /** In every run, a node that a rotation frees is in no hazard slot at that moment. */
  lemma FreedIsInNoSlot(run: seq<State>, k: nat, i: nat)
    requires Run(run) && k + 1 < |run| && TurnStep(run[k], run[k + 1]) && run[k + 1].l.freed != run[k].l.freed
    requires i < |run[k].slots|
    ensures |run[k + 1].l.freed| == |run[k].l.freed| + 1
    ensures run[k].slots[i] != Some(run[k + 1].l.freed[|run[k].l.freed|])
  {
    RunInv(run, k);
    hide Run;
    TailIsClear(run[k], i);
  }

  // ----- the uninterrupted calls

  /** Filling is a sequence of promotion steps. */
  lemma {:induction false} FillInv(l: Lazy, slots: Slots)
    requires Inv(State(l, slots, Inside))
    ensures Inv(State(Fill(l, |slots|), slots, Inside))
    decreases |l.rlist|
  {
    if |l.vlist| <= |slots| && l.rlist != [] {
      PromoteInv(State(l, slots, Inside), State(Promote(l, true), slots, Inside), true);
      FillInv(Promote(l, true), slots);
    }
  }

  lemma {:induction false} FillAgedInv(l: Lazy, slots: Slots, clock: nat -> int, i: nat)
    requires Inv(State(l, slots, Inside))
    ensures Inv(State(FillAged(l, |slots|, clock, i), slots, Inside)) && FillAged(l, |slots|, clock, i).freed == l.freed
    decreases |l.rlist|
  {
    if |l.vlist| <= |slots| && l.rlist != [] && IsOldEnough(LastOf(l.rlist).created, clock(i)) {
      PromoteInv(State(l, slots, Inside), State(Promote(l, true), slots, Inside), true);
      FillAgedInv(Promote(l, true), slots, clock, i + 1);
    }
  }

  /** What a call frees was not in any slot. */
  predicate FreesOnly(l: Lazy, l': Lazy, slots: Slots) {
    l'.freed == l.freed || (|l'.freed| == |l.freed| + 1 && l'.freed[..|l.freed|] == l.freed
        && Some(l'.freed[|l.freed|]) !in slots)
  }

  lemma RotationInv(l: Lazy, slots: Slots)
    requires Inv(State(l, slots, Inside)) && |l.vlist| > |slots|
    ensures Inv(State(Rotation(l, slots), slots, Outside)) && FreesOnly(l, Rotation(l, slots), slots)
  {
    var s0, s1 := State(l, slots, Inside), State(Visit(l, slots), slots, Visited);
    VisitInv(s0, s1);
    TurnInv(s1, State(Turn(s1.l), slots, Outside));
    if LastOf(s1.l.vlist).node !in s1.l.marked {
      forall i | 0 <= i < |slots| ensures slots[i] != Some(LastOf(s1.l.vlist).node) {
        TailIsClear(s1, i);
      }
    }
  }

  /** A whole call of free_node_later in src/smr_membar_lazy.c. */
  lemma RetireInv(l: Lazy, slots: Slots, x: Item)
    requires Inv(State(l, slots, Outside)) && !Waits(l, x.node)
    ensures var l' := Retire(l, slots, x); Inv(State(l', slots, Outside)) && FreesOnly(l, l', slots)
  {
    var l0 := Enqueue(l, x);
    EnqueueInv(State(l, slots, Outside), State(l0, slots, Inside), x);
    FillInv(l0, slots);
    FillCur(l0, |slots|);
    var l1 := Fill(l0, |slots|);
    if |l1.vlist| > |slots| {
      RotationInv(l1, slots);
    } else {
      NextInv(State(l1, slots, Inside), State(l1, slots, Outside));
    }
  }

  /** A whole call of free_node_later in src/smr_lazy.c. */
  lemma RetireAgedInv(l: Lazy, slots: Slots, n: Node, clock: nat -> int)
    requires Inv(State(l, slots, Outside)) && !Waits(l, n)
    ensures var l' := RetireAged(l, slots, n, clock); Inv(State(l', slots, Outside)) && FreesOnly(l, l', slots)
  {
    var l0 := Enqueue(l, Item(n, clock(0)));
    EnqueueInv(State(l, slots, Outside), State(l0, slots, Inside), Item(n, clock(0)));
    var l1 := PromoteOne(l0, |slots|, clock(1));
    if l1 != l0 {
      PromoteInv(State(l0, slots, Inside), State(l1, slots, Inside), |l0.vlist| + 1 <= |slots|);
    }
    if |l1.vlist| > |slots| {
      RotationInv(l1, slots);
    } else {
      FillAgedInv(l1, slots, clock, 2);
      var l2 := FillAged(l1, |slots|, clock, 2);
      assert |l2.vlist| > |slots| ==> Inv(State(l2, slots, Outside)) by { StayInv(l2, slots); }
      StayInv(l2, slots);
    }
  }

  lemma StayInv(l: Lazy, slots: Slots)
    requires Inv(State(l, slots, Inside))
    ensures Inv(State(l, slots, Outside))
  {
    var s, s' := State(l, slots, Inside), State(l, slots, Outside);
    forall k | 0 <= k < |l.vlist| ensures UnmarkedOk(s', k) {
      assert UnmarkedOk(s, k);
    }
  }

  // ----- progress

  /** A call of free_node_later of src/smr_membar_lazy.c, after any changes of slots and marks by others. */
  ghost predicate Called(l: Lazy, l': Lazy, h: nat) {
    l.cur < h && exists slots, x, marked :: |slots| == h && l' == Retire(l.(marked := marked), slots, x)
  }

  /** What one thread's lists are after each of its calls, from the beginning. */
  ghost predicate CallRun(ls: seq<Lazy>, h: nat) {
    && ls != [] && h > 0 && ls[0] == Lazy([], [], 0, 0, ls[0].marked, [])
    && forall k :: 0 < k < |ls| ==> Called(ls[k - 1], ls[k], h)
  }

  lemma CallBounded(l: Lazy, slots: Slots, x: Item)
    requires l.cur < |slots| && |l.vlist| <= |slots| + 1
    ensures Retire(l, slots, x).cur < |slots| && |Retire(l, slots, x).vlist| <= |slots| + 1
  {
    FillCur(Enqueue(l, x), |slots|);
    NextSlot(l.cur, |slots|);
  }

  /** vlist of src/smr_membar_lazy.c never has more than H + 1 nodes. */
  lemma {:induction false} VlistBounded(ls: seq<Lazy>, h: nat, k: nat)
    requires CallRun(ls, h) && k < |ls|
    ensures ls[k].cur < h && |ls[k].vlist| <= h + 1
  {
    if k > 0 {
      VlistBounded(ls, h, k - 1);
      assert Called(ls[k - 1], ls[k], h);
      var slots, x, marked :| |slots| == h && ls[k] == Retire(ls[k - 1].(marked := marked), slots, x);
      hide Retire;
      CallBounded(ls[k - 1].(marked := marked), slots, x);
    }
  }

  predicate InSlot(slots: Slots, n: Node) {
    Some(n) in slots
  }

  /** While the slots stand still, other threads can mark only what the slots hold. */
  predicate Marked(l: Lazy, l1: Lazy, slots: Slots) {
    && l1 == l.(marked := l1.marked)
    && forall n :: n in Nodes(l.vlist) ==> (n in l.marked ==> n in l1.marked) && (n in l1.marked ==> n in l.marked || InSlot(slots, n))
  }

  /** A call that rotates, after some marking by others. */
  predicate Call(l: Lazy, l1: Lazy, l': Lazy, slots: Slots, x: Item) {
    && l.cur < |slots| && Marked(l, l1, slots) && !Waits(l, x.node)
    && |Fill(Enqueue(l1, x), |slots|).vlist| > |slots| && l' == Retire(l1, slots, x)
  }

  /** Where k rotations without a free have led: the k newest nodes of vlist are marked only if a slot holds
      them, and those that have gone round twice are held by slots. */
  predicate Round(l: Lazy, slots: Slots, k: nat) {
    && Inv(State(l, slots, Outside))
    && (if k == 0 then |l.vlist| <= |slots| + 1 else |l.vlist| == |slots| + 1)
    && forall i :: 0 <= i < |l.vlist| ==>
         && (i < k && l.vlist[i].node in l.marked ==> InSlot(slots, l.vlist[i].node))
         && (i + |slots| + 1 < k ==> InSlot(slots, l.vlist[i].node))
  }

  lemma CallInv(l: Lazy, l1: Lazy, l': Lazy, slots: Slots, x: Item)
    requires Inv(State(l, slots, Outside)) && Call(l, l1, l', slots, x)
    ensures Inv(State(l', slots, Outside)) && FreesOnly(l, l', slots)
  {
    MarkInv(State(l, slots, Outside), State(l1, slots, Outside), l1.marked);
    RetireInv(l1, slots, x);
  }

  /** A rotation without a free moves the tail to the head, unmarks it, and marks only what the visited slot holds. */
  lemma CallTurns(l: Lazy, l1: Lazy, l': Lazy, slots: Slots, x: Item, k: nat)
    requires Round(l, slots, k) && Call(l, l1, l', slots, x) && l'.freed == l.freed
    ensures |l'.vlist| == |slots| + 1
    ensures k > 0 ==> l'.vlist == [LastOf(l.vlist)] + Front(l.vlist)
    ensures l'.vlist[0].node !in l'.marked
    ensures forall n :: n in l'.marked ==> n in (if k > 0 then l1 else Fill(Enqueue(l1, x), |slots|)).marked || InSlot(slots, n)
  {
    hide Inv;
    var l2 := Fill(Enqueue(l1, x), |slots|);
    FillCur(Enqueue(l1, x), |slots|);
    assert l'.vlist == [LastOf(l2.vlist)] + Front(l2.vlist);
  }

  lemma RoundStep(l: Lazy, l1: Lazy, l': Lazy, slots: Slots, x: Item, k: nat)
    requires Round(l, slots, k) && Call(l, l1, l', slots, x) && l'.freed == l.freed
    ensures Round(l', slots, k + 1)
  {
    CallInv(l, l1, l', slots, x);
    CallTurns(l, l1, l', slots, x, k);
    hide Inv, Retire, Fill;
    forall i | 0 <= i < |l'.vlist|
      ensures i < k + 1 && l'.vlist[i].node in l'.marked ==> InSlot(slots, l'.vlist[i].node)
      ensures i + |slots| + 1 < k + 1 ==> InSlot(slots, l'.vlist[i].node)
    {
      if k > 0 {
        var j := if i == 0 then |slots| else i - 1;
        assert l'.vlist[i] == l.vlist[j] && Nodes(l.vlist)[j] == l.vlist[j].node;
      }
    }
  }

  /** After 2(H + 1) such rotations H + 1 different nodes would be in H slots. */
  lemma RoundLimit(l: Lazy, slots: Slots, k: nat)
    requires Round(l, slots, k)
    ensures k < 2 * (|slots| + 1)
  {
    if k >= 2 * (|slots| + 1) {
      var all := Nodes(l.vlist + l.rlist);
      var q := seq(|l.vlist|, i requires 0 <= i < |l.vlist| => Some(l.vlist[i].node));
      forall i, j | 0 <= i < j < |q| ensures q[i] != q[j] {
        assert all[i] == l.vlist[i].node && all[j] == l.vlist[j].node;
      }
      Pigeonhole(q, slots);
    }
  }

  ghost predicate Rotates(l: Lazy, l': Lazy, slots: Slots) {
    exists l1, x :: Call(l, l1, l', slots, x)
  }

  /** A history of calls that rotate, with the slots standing still. */
  ghost predicate Calls(ls: seq<Lazy>, slots: Slots) {
    && ls != [] && Inv(State(ls[0], slots, Outside)) && |ls[0].vlist| <= |slots| + 1
    && forall k :: 0 < k < |ls| ==> Rotates(ls[k - 1], ls[k], slots)
  }

  lemma {:induction false} Rounds(ls: seq<Lazy>, slots: Slots, k: nat)
    requires Calls(ls, slots) && k < |ls|
    requires forall i :: 0 <= i <= k ==> ls[i].freed == ls[0].freed
    ensures Round(ls[k], slots, k)
  {
    if k > 0 {
      Rounds(ls, slots, k - 1);
      assert Rotates(ls[k - 1], ls[k], slots);
      var l1, x :| Call(ls[k - 1], l1, ls[k], slots, x);
      hide Call, Calls, Round;
      RoundStep(ls[k - 1], l1, ls[k], slots, x, k - 1);
    }
  }

  /** Among any 2(H + 1) consecutive calls that rotate while the slots stand still, one frees a node. */
  lemma SomeCallFrees(ls: seq<Lazy>, slots: Slots)
    requires Calls(ls, slots) && |ls| == 2 * (|slots| + 1) + 1
    ensures exists k :: 0 < k < |ls| && ls[k].freed != ls[0].freed
  {
    var n := |ls| - 1;
    hide Calls, Round;
    if forall k :: 0 < k < |ls| ==> ls[k].freed == ls[0].freed {
      Rounds(ls, slots, n);
      RoundLimit(ls[n], slots, n);
    }
  }

  /** The bound on vlist is one of src/smr_membar_lazy.c only. In src/smr_lazy.c the first promotion does not
      look at the size of vlist: from a vlist of H + 1 nodes one more aged node and a tail that gets its second
      chance lead past the bound, and nothing else does. */
  lemma AgedVlistBound(l: Lazy, slots: Slots, n: Node, clock: nat -> int)
    requires l.cur < |slots| && |l.vlist| <= |slots| + 1
    ensures |RetireAged(l, slots, n, clock).vlist| > |slots| + 1 <==>
              && |l.vlist| == |slots| + 1
              && IsOldEnough(if l.rlist != [] then LastOf(l.rlist).created else clock(0), clock(1))
              && (LastOf(l.vlist).node in l.marked || slots[l.cur] == Some(LastOf(l.vlist).node))
  {
    var l0 := Enqueue(l, Item(n, clock(0)));
    assert LastOf(l0.rlist) == if l.rlist != [] then LastOf(l.rlist) else Item(n, clock(0));
    var l1 := PromoteOne(l0, |slots|, clock(1));
    assert l.vlist != [] ==> LastOf(l1.vlist) == LastOf(l.vlist);
    if |l1.vlist| <= |slots| {
      FillAgedBound(l1, |slots|, clock, 2);
    }
  }

  lemma {:induction false} FillAgedBound(l: Lazy, h: nat, clock: nat -> int, i: nat)
    requires |l.vlist| <= h + 1
    ensures |FillAged(l, h, clock, i).vlist| <= h + 1
    decreases |l.rlist|
  {
    if |l.vlist| <= h && l.rlist != [] && IsOldEnough(LastOf(l.rlist).created, clock(i)) {
      FillAgedBound(Promote(l, true), h, clock, i + 1);
    }
  }
}
