/** Fence-free timed reclamation (src/smr_no_membar.c) under store buffering: any number of threads retire
    nodes and scan, and no scan frees a node that some thread still relies on.
 */
module FenceFree {
  import opened Addresses
  import opened Options
  import opened DoubleLlist
  import opened Timing
  import opened ItemLists
  import opened Ledger
  import opened StoreBuffers
  import opened ScanReads

  /** Where a thread is in scan. */
  datatype Position =
    | Outside
    | Reading(r: SlotScan)
    | Walking(r: SlotScan, todo: seq<Item>, kept: seq<Item>)

  datatype Thread = Thread(rlist: seq<Item>, pos: Position)

  /** retired is what free_node_later was called with, freed what was handed back, oldest first. */
  datatype State = State(w: World, threads: seq<Thread>, freed: seq<Node>, retired: multiset<Node>)

  predicate Init(s: State) {
    && StoreBuffers.Init(s.w) && s.freed == [] && s.retired == multiset{}
    && forall t :: 0 <= t < |s.threads| ==> s.threads[t] == Thread([], Outside)
  }

  function SetThread(s: State, t: nat, th: Thread): State
    requires t < |s.threads|
  {
    s.(threads := s.threads[t := th])
  }

  /** free_node_later: a node that is no longer linked, with the present time. */
  predicate RetireStep(s: State, s': State, t: nat, n: Node) {
    && t < |s.threads| && s.threads[t].pos == Outside && n in s.w.gone && n !in s.freed
    && s' == SetThread(s, t, s.threads[t].(rlist := [Item(n, s.w.now)] + s.threads[t].rlist)).(retired := s.retired + multiset{n})
  }

  predicate BeginStep(s: State, s': State, t: nat) {
    && t < |s.threads| && s.threads[t].pos == Outside
    && s' == SetThread(s, t, s.threads[t].(pos := Reading(SlotScan(s.w.now, 0, []))))
  }

  /** One slot is read; after the last one the whole list is taken. */
  predicate ReadStep(s: State, s': State, t: nat) {
    && t < |s.threads| && s.threads[t].pos.Reading? && Shaped(s.w)
    && var th := s.threads[t];
       s' == SetThread(s, t,
               if th.pos.r.next < Slots(s.w) then th.(pos := Reading(ReadSlot(s.w, th.pos.r, t)))
               else Thread([], Walking(th.pos.r, th.rlist, [])))
  }

  /** One node is judged: is_old_enough, then ssearch. d bounds the time since the scan began to read the slots. */
  predicate JudgeStep(s: State, s': State, t: nat, d: int) {
    && t < |s.threads| && s.threads[t].pos.Walking? && s.threads[t].pos.todo != []
    && var p := s.threads[t].pos;
       && s.w.now <= p.r.start + d && InRange(p.todo[0].created, s.w.now)
       && s' == if !IsOldEnough(p.todo[0].created, s.w.now) || p.todo[0].node in p.r.plist then
                  SetThread(s, t, s.threads[t].(pos := p.(todo := p.todo[1..], kept := [p.todo[0]] + p.kept)))
                else
                  SetThread(s, t, s.threads[t].(pos := p.(todo := p.todo[1..]))).(freed := s.freed + [p.todo[0].node])
  }

  predicate EndStep(s: State, s': State, t: nat) {
    && t < |s.threads| && s.threads[t].pos.Walking? && s.threads[t].pos.todo == []
    && s' == SetThread(s, t, Thread(s.threads[t].pos.kept, Outside))
  }

  ghost predicate Next(s: State, s': State, v: int, d: int) {
    || (WorldStep(s.w, s'.w, v) && s' == s.(w := s'.w))
    || (exists t, n :: RetireStep(s, s', t, n))
    || (exists t :: BeginStep(s, s', t) || ReadStep(s, s', t) || JudgeStep(s, s', t, d) || EndStep(s, s', t))
  }

  // ----- the invariant

  /** A retired node was unlinked before it was given its time. */
  predicate ItemOk(w: World, x: Item) {
    x.node in w.gone && w.gone[x.node] <= x.created <= w.now
  }

  predicate ItemsOk(w: World, q: seq<Item>) {
    forall i :: 0 <= i < |q| ==> ItemOk(w, q[i])
  }

  predicate ThreadOk(s: State, v: int, t: nat)
    requires t < |s.threads|
  {
    var th := s.threads[t];
    && ItemsOk(s.w, th.rlist)
    && match th.pos
       case Outside => true
       case Reading(r) => ReadingOk(s.w, v, r)
       case Walking(r, todo, kept) => ReadingOk(s.w, v, r) && r.next == Slots(s.w) && ItemsOk(s.w, todo) && ItemsOk(s.w, kept)
  }

  /** A freed node is unlinked, and no slot's thread relies on it. */
  predicate FreedOk(s: State, n: Node) {
    n in s.w.gone && forall i :: 0 <= i < |s.w.holds| ==> s.w.holds[i] != Some(n)
  }

  ghost predicate Inv(s: State, v: int) {
    && WorldInv(s.w, v)
    && (forall t :: 0 <= t < |s.threads| ==> ThreadOk(s, v, t))
    && (forall n :: n in s.freed ==> FreedOk(s, n))
  }

  lemma WorldKeeps(s: State, s': State, v: int)
    requires Inv(s, v) && WorldStep(s.w, s'.w, v) && s' == s.(w := s'.w)
    ensures Inv(s', v)
  {
    WorldStepInv(s.w, s'.w, v);
    forall t | 0 <= t < |s.threads| ensures ThreadOk(s', v, t) {
      assert ThreadOk(s, v, t);
      var th := s.threads[t];
      ItemsKept(s.w, s'.w, v, th.rlist);
      if !th.pos.Outside? {
        ReadingKept(s.w, s'.w, v, th.pos.r);
        if th.pos.Walking? {
          ItemsKept(s.w, s'.w, v, th.pos.todo);
          ItemsKept(s.w, s'.w, v, th.pos.kept);
        }
      }
    }
    forall n | n in s'.freed ensures FreedOk(s', n) {
      assert FreedOk(s, n);
    }
  }

  lemma ItemsKept(w: World, w': World, v: int, q: seq<Item>)
    requires WorldInv(w, v) && WorldStep(w, w', v) && ItemsOk(w, q)
    ensures ItemsOk(w', q)
  {
    forall i | 0 <= i < |q| ensures ItemOk(w', q[i]) {
      assert ItemOk(w, q[i]);
    }
  }

  /** Steps that change one thread only. */
  lemma ThreadKeeps(s: State, s': State, v: int, t: nat)
    requires Inv(s, v) && t < |s.threads| == |s'.threads|
             && s' == SetThread(s, t, s'.threads[t]).(freed := s'.freed, retired := s'.retired) && ThreadOk(s', v, t)
    requires forall n :: n in s'.freed ==> FreedOk(s', n)
    ensures Inv(s', v)
  {
    forall u | 0 <= u < |s.threads| ensures ThreadOk(s', v, u) {
      assert u != t ==> ThreadOk(s, v, u);
    }
  }

  /** The heart of the matter: a node that is freed is held nowhere. */
  lemma JudgeKeeps(s: State, s': State, v: int, d: int, t: nat)
    requires Inv(s, v) && Timely(v, d) && JudgeStep(s, s', t, d)
    ensures Inv(s', v)
  {
    assert ThreadOk(s, v, t);
    var p := s.threads[t].pos;
    var x := p.todo[0];
    assert ItemOk(s.w, x);
    if x.node in s'.freed && x.node !in s.freed {
      forall i | 0 <= i < |s.w.holds| ensures s.w.holds[i] != Some(x.node) {
        FreeableIsFree(s.w, v, d, p.r, x.node, x.created, i);
      }
    }
    forall n | n in s'.freed ensures FreedOk(s', n) {
      assert n in s.freed ==> FreedOk(s, n);
    }
    ThreadKeeps(s, s', v, t);
  }

  lemma RetireKeeps(s: State, s': State, v: int, t: nat, n: Node)
    requires Inv(s, v) && RetireStep(s, s', t, n)
    ensures Inv(s', v)
  {
    assert ThreadOk(s, v, t);
    assert forall m :: m in s.freed ==> FreedOk(s, m);
    ThreadKeeps(s, s', v, t);
  }

  lemma ScanKeeps(s: State, s': State, v: int, t: nat)
    requires Inv(s, v) && (BeginStep(s, s', t) || ReadStep(s, s', t) || EndStep(s, s', t))
    ensures Inv(s', v)
  {
    assert ThreadOk(s, v, t);
    assert forall n :: n in s.freed ==> FreedOk(s, n);
    if ReadStep(s, s', t) && s.threads[t].pos.r.next < Slots(s.w) {
      ReadSlotOk(s.w, v, s.threads[t].pos.r, t);
    }
    ThreadKeeps(s, s', v, t);
  }

  lemma NextInv(s: State, s': State, v: int, d: int)
    requires Inv(s, v) && Timely(v, d) && Next(s, s', v, d)
    ensures Inv(s', v)
  {
    hide Inv, WorldStep, RetireStep, BeginStep, ReadStep, JudgeStep, EndStep;
    if WorldStep(s.w, s'.w, v) && s' == s.(w := s'.w) {
      WorldKeeps(s, s', v);
    } else {
      if t: nat, n :| RetireStep(s, s', t, n) {
        RetireKeeps(s, s', v, t, n);
      } else {
        var t: nat :| BeginStep(s, s', t) || ReadStep(s, s', t) || JudgeStep(s, s', t, d) || EndStep(s, s', t);
        if JudgeStep(s, s', t, d) {
          JudgeKeeps(s, s', v, d, t);
        } else {
          ScanKeeps(s, s', v, t);
        }
      }
    }
  }

  // ----- none is lost, and none is freed twice

  /** What a thread has retired and not freed. */
  function Mine(th: Thread): multiset<Node> {
    multiset(Nodes(th.rlist)) + if th.pos.Walking? then multiset(Nodes(th.pos.todo)) + multiset(Nodes(th.pos.kept)) else multiset{}
  }

  function Lists(s: State): seq<multiset<Node>> {
    seq(|s.threads|, t requires 0 <= t < |s.threads| => Mine(s.threads[t]))
  }

  predicate WalksAlone(s: State) {
    forall t :: 0 <= t < |s.threads| && s.threads[t].pos.Walking? ==> s.threads[t].rlist == []
  }

  /** What was retired is exactly what waits or was freed. */
  predicate Accounted(s: State) {
    WalksAlone(s) && Total(Lists(s)) + multiset(s.freed) == s.retired
  }

  lemma InitAccounted(s: State)
    requires Init(s)
    ensures Accounted(s)
  {
    TotalEmpty(Lists(s));
  }

  lemma StepBalances(s: State, s': State, t: nat, lost: multiset<Node>, won: multiset<Node>)
    requires Accounted(s) && t < |s.threads| == |s'.threads| && s'.threads == s.threads[t := s'.threads[t]]
    requires s'.threads[t].pos.Walking? ==> s'.threads[t].rlist == []
    requires Mine(s'.threads[t]) + lost == Mine(s.threads[t]) + won
    requires multiset(s'.freed) == multiset(s.freed) + lost && s'.retired == s.retired + won
    ensures Accounted(s')
  {
    assert Lists(s') == Lists(s)[t := Mine(s'.threads[t])];
    Balanced(Lists(s), t, Mine(s'.threads[t]), multiset(s.freed), s.retired, lost, won);
  }

  lemma RetireBalances(s: State, s': State, t: nat, n: Node)
    requires Accounted(s) && RetireStep(s, s', t, n)
    ensures Accounted(s')
  {
    NodesCons(Item(n, s.w.now), s.threads[t].rlist);
    StepBalances(s, s', t, multiset{}, multiset{n});
  }

  lemma JudgedMine(th: Thread, keep: bool, th': Thread)
    requires th.pos.Walking? && th.pos.todo != []
    requires var p := th.pos;
             th' == th.(pos := p.(todo := p.todo[1..], kept := if keep then [p.todo[0]] + p.kept else p.kept))
    ensures if keep then Mine(th') == Mine(th) else Mine(th') + multiset{th.pos.todo[0].node} == Mine(th)
  {
    var x, rest := th.pos.todo[0], th.pos.todo[1..];
    assert th.pos.todo == [x] + rest;
    NodesCons(x, rest);
    NodesCons(x, th.pos.kept);
    hide Nodes;
  }

  lemma JudgeBalances(s: State, s': State, t: nat, d: int)
    requires Accounted(s) && JudgeStep(s, s', t, d)
    ensures Accounted(s')
  {
    var x := s.threads[t].pos.todo[0];
    assert s.threads[t].rlist == [];
    hide Mine, Lists, Total, IsOldEnough, InRange;
    if s'.freed == s.freed {
      JudgedMine(s.threads[t], true, s'.threads[t]);
      StepBalances(s, s', t, multiset{}, multiset{});
    } else {
      JudgedMine(s.threads[t], false, s'.threads[t]);
      assert multiset(s.freed + [x.node]) == multiset(s.freed) + multiset{x.node};
      StepBalances(s, s', t, multiset{x.node}, multiset{});
    }
  }

  lemma ScanBalances(s: State, s': State, t: nat)
    requires Accounted(s) && (BeginStep(s, s', t) || ReadStep(s, s', t) || EndStep(s, s', t))
    ensures Accounted(s')
  {
    assert Nodes([]) == [];
    StepBalances(s, s', t, multiset{}, multiset{});
  }

  lemma WorldBalances(s: State, s': State)
    requires Accounted(s) && s' == s.(w := s'.w)
    ensures Accounted(s')
  {
    assert Lists(s') == Lists(s);
  }

  lemma NextAccounted(s: State, s': State, v: int, d: int)
    requires Accounted(s) && Next(s, s', v, d)
    ensures Accounted(s')
  {
    hide Accounted, RetireStep, BeginStep, ReadStep, JudgeStep, EndStep, WorldStep;
    if WorldStep(s.w, s'.w, v) && s' == s.(w := s'.w) {
      WorldBalances(s, s');
    } else if t: nat, n :| RetireStep(s, s', t, n) {
      RetireBalances(s, s', t, n);
    } else {
      var t: nat :| BeginStep(s, s', t) || ReadStep(s, s', t) || JudgeStep(s, s', t, d) || EndStep(s, s', t);
      if JudgeStep(s, s', t, d) {
        JudgeBalances(s, s', t, d);
      } else {
        ScanBalances(s, s', t);
      }
    }
  }

  // ----- over whole runs

  ghost predicate Run(run: seq<State>, v: int, d: int) {
    run != [] && Init(run[0]) && forall i :: 0 <= i < |run| - 1 ==> Next(run[i], run[i + 1], v, d)
  }

  lemma {:induction false} RunInv(run: seq<State>, v: int, d: int, i: nat)
    requires Run(run, v, d) && Timely(v, d) && i < |run|
    ensures Inv(run[i], v)
  {
    if i > 0 {
      RunInv(run, v, d, i - 1);
      assert Next(run[i - 1], run[i - 1 + 1], v, d);
      hide Inv, Next;
      NextInv(run[i - 1], run[i], v, d);
    }
  }

  /** If writes become visible within v, judging a node starts at most d after its scan began to read the slots,
      and v + d + 1 ms <= SLEEP_AMOUNT + MARGIN, then no run frees a node that a thread still holds. */
  lemma NoFreedNodeHeld(run: seq<State>, v: int, d: int, k: nat, i: nat, n: Node)
    requires Run(run, v, d) && Timely(v, d) && k < |run| && i < |run[k].w.holds| && n in run[k].freed
    ensures run[k].w.holds[i] != Some(n)
  {
    RunInv(run, v, d, k);
    hide Run;
    assert FreedOk(run[k], n);
  }

  /** In every run, timely or not, each node has been freed, or waits in some thread's lists, as often as it was retired:
      none is lost, and none that was retired once is freed twice. */
  lemma {:induction false} Conservation(run: seq<State>, v: int, d: int, k: nat)
    requires Run(run, v, d) && k < |run|
    ensures Accounted(run[k])
    ensures forall n :: multiset(run[k].freed)[n] <= run[k].retired[n]
  {
    if k == 0 {
      InitAccounted(run[0]);
    } else {
      Conservation(run, v, d, k - 1);
      assert Next(run[k - 1], run[k - 1 + 1], v, d);
      hide Next, Lists;
      NextAccounted(run[k - 1], run[k], v, d);
    }
    FreedFromRetired(run[k]);
  }

  lemma FreedFromRetired(s: State)
    requires Accounted(s)
    ensures forall n :: multiset(s.freed)[n] <= s.retired[n]
  {
    forall n ensures multiset(s.freed)[n] <= s.retired[n] {
      assert (Total(Lists(s)) + multiset(s.freed))[n] == s.retired[n];
    }
  }

  // ----- what a scan frees

  function ScanOf(th: Thread): Option<SlotScan> {
    if th.pos.Outside? then None else Some(th.pos.r)
  }

  /** What the run shows of thread t's scans */
  function TraceOf(run: seq<State>, t: nat): (tr: Trace)
    requires forall i :: 0 <= i < |run| ==> t < |run[i].threads|
    ensures |tr| == |run| && forall i :: 0 <= i < |run| ==> tr[i] == Moment(run[i].w, ScanOf(run[i].threads[t]))
  {
    seq(|run|, i requires 0 <= i < |run| => Moment(run[i].w, ScanOf(run[i].threads[t])))
  }

  lemma StepGoes(s: State, s': State, v: int, d: int, t: nat)
    requires Next(s, s', v, d) && t < |s.threads|
    ensures |s'.threads| == |s.threads|
    ensures Goes(Moment(s.w, ScanOf(s.threads[t])), Moment(s'.w, ScanOf(s'.threads[t])), t)
  {
    hide WorldStep, InRange, IsOldEnough;
  }

  lemma {:induction false} ThreadsStay(run: seq<State>, v: int, d: int, i: nat)
    requires Run(run, v, d) && i < |run|
    ensures |run[i].threads| == |run[0].threads|
  {
    if i > 0 {
      ThreadsStay(run, v, d, i - 1);
      assert Next(run[i - 1], run[i - 1 + 1], v, d);
      hide WorldStep, InRange, IsOldEnough;
    }
  }

  lemma RunGoes(run: seq<State>, v: int, d: int, t: nat)
    requires Run(run, v, d) && t < |run[0].threads|
    ensures forall i :: 0 <= i < |run| ==> t < |run[i].threads|
    ensures Follows(TraceOf(run, t), t)
  {
    forall i | 0 <= i < |run| ensures t < |run[i].threads| {
      ThreadsStay(run, v, d, i);
    }
    var tr := TraceOf(run, t);
    forall i | 0 < i < |tr| ensures Goes(tr[i - 1], tr[i], t) {
      assert Next(run[i - 1], run[i - 1 + 1], v, d);
      hide Run, Next;
      StepGoes(run[i - 1], run[i], v, d, t);
    }
  }

  /** The step of a thread that has a node to judge takes the newest one. */
  lemma JudgesNewest(s: State, s': State, v: int, d: int, t: nat)
    requires Next(s, s', v, d) && t < |s.threads| && s.threads[t].pos.Walking? && s.threads[t].pos.todo != []
    requires t < |s'.threads| && s'.threads[t] != s.threads[t]
    ensures JudgeStep(s, s', t, d)
  {
    hide WorldStep, InRange, IsOldEnough;
  }

  /** In every timely run: by the time a scan judges it has read every slot, and it frees a node exactly if the node is old
      enough at that moment and none of the scan's own reads has shown it; otherwise it keeps it. */
  lemma FreedIffOldAndUnseen(run: seq<State>, v: int, d: int, e: nat, t: nat, x: Item)
    requires Run(run, v, d) && Timely(v, d) && e + 1 < |run|
    requires t < |run[0].threads| && t < |run[e].threads| && t < |run[e + 1].threads|
    requires run[e].threads[t].pos.Walking? && run[e + 1].threads[t] != run[e].threads[t]
    requires run[e].threads[t].pos.todo != [] && run[e].threads[t].pos.todo[0] == x
    ensures forall i :: 0 <= i < |run| ==> t < |run[i].threads|
    ensures run[e].threads[t].pos.r.next == Slots(run[e].w) && InRange(x.created, run[e].w.now)
    ensures var p := run[e].threads[t].pos;
            if IsOldEnough(x.created, run[e].w.now) && !Saw(TraceOf(run, t), t, e, x.node)
            then run[e + 1].freed == run[e].freed + [x.node] && run[e + 1].threads[t].pos == Walking(p.r, p.todo[1..], p.kept)
            else run[e + 1].freed == run[e].freed && run[e + 1].threads[t].pos == Walking(p.r, p.todo[1..], [x] + p.kept)
  {
    RunInv(run, v, d, e);
    assert ThreadOk(run[e], v, t) && Next(run[e], run[e + 1], v, d);
    RunGoes(run, v, d, t);
    hide Run, Inv, Next, InRange, IsOldEnough;
    JudgesNewest(run[e], run[e + 1], v, d, t);
    PlistIff(TraceOf(run, t), t, e, x.node);
  }
}
