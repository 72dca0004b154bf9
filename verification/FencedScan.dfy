/** Hazard pointers with a fence after each publication (src/smr.c with src/linkedlist-smr-harris_opt): any number of
    threads retire nodes and scan, a scan reads one slot at a time, and no scan frees a node that some thread
    still relies on. No clock is involved.
 */
module FencedScan {
  import opened Addresses
  import opened Options
  import opened Ledger
  import opened StoreBuffers
  import opened ScanReads

  /** Where a thread is in scan. */
  datatype Position =
    | Outside
    | Reading(r: SlotScan)
    | Walking(r: SlotScan, todo: seq<Node>, kept: seq<Node>)

  datatype Thread = Thread(rlist: seq<Node>, pos: Position)

  /** retired is what free_node_later was called with, freed what was handed back, oldest first. */
  datatype State = State(w: World, threads: seq<Thread>, freed: seq<Node>, retired: multiset<Node>)

  predicate Init(s: State) {
    && StoreBuffers.Init(s.w) && s.freed == [] && s.retired == multiset{}
    && forall t :: 0 <= t < |s.threads| ==> s.threads[t] == Thread([], Outside)
  }

  /** The barrier between publishing and validating has emptied the slot's part of the store buffer. */
  predicate FencedHoldStep(w: World, w': World, i: nat, n: Node) {
    HoldStep(w, w', i, n) && w.buffer[i] == []
  }

  /** How long a write stays in its buffer does not matter. */
  ghost predicate SlotStep(w: World, w': World) {
    || (exists i, value :: PublishStep(w, w', i, value))
    || (exists i :: FlushStep(w, w', i))
    || w' == w.(now := w'.now)
    || (exists i, n :: FencedHoldStep(w, w', i, n))
    || (exists i :: DropStep(w, w', i))
    || (exists n :: UnlinkStep(w, w', n))
  }

  function SetThread(s: State, t: nat, th: Thread): State
    requires t < |s.threads|
  {
    s.(threads := s.threads[t := th])
  }

  /** free_node_later: a node that is no longer linked. */
  predicate RetireStep(s: State, s': State, t: nat, n: Node) {
    && t < |s.threads| && s.threads[t].pos == Outside && n in s.w.gone && n !in s.freed
    && s' == SetThread(s, t, s.threads[t].(rlist := [n] + s.threads[t].rlist)).(retired := s.retired + multiset{n})
  }

  predicate BeginStep(s: State, s': State, t: nat) {
    && t < |s.threads| && s.threads[t].pos == Outside
    && s' == SetThread(s, t, s.threads[t].(pos := Reading(SlotScan(s.w.now, 0, []))))
  }

  /** One slot is read; after the last one the whole list is taken. */
  predicate ReadStep(s: State, s': State, t: nat) {
    && t < |s.threads| && s.threads[t].pos.Reading? && Shaped(s.w)
    && var th := s.threads[t];
       s' == SetThread(s, t,
               if th.pos.r.next < Slots(s.w) then th.(pos := Reading(ReadSlot(s.w, th.pos.r, t)))
               else Thread([], Walking(th.pos.r, th.rlist, [])))
  }

  /** The oldest node that is left is looked up in plist, and kept or freed. */
  predicate JudgeStep(s: State, s': State, t: nat) {
    && t < |s.threads| && s.threads[t].pos.Walking? && s.threads[t].pos.todo != []
    && var p := s.threads[t].pos;
       var x, rest := p.todo[|p.todo| - 1], p.todo[..|p.todo| - 1];
       s' == if x in p.r.plist then SetThread(s, t, s.threads[t].(pos := p.(todo := rest, kept := [x] + p.kept)))
             else SetThread(s, t, s.threads[t].(pos := p.(todo := rest))).(freed := s.freed + [x])
  }

  predicate EndStep(s: State, s': State, t: nat) {
    && t < |s.threads| && s.threads[t].pos.Walking? && s.threads[t].pos.todo == []
    && s' == SetThread(s, t, Thread(s.threads[t].pos.kept, Outside))
  }

  ghost predicate Next(s: State, s': State) {
    || (SlotStep(s.w, s'.w) && s' == s.(w := s'.w))
    || (exists t, n :: RetireStep(s, s', t, n))
    || (exists t :: BeginStep(s, s', t) || ReadStep(s, s', t) || JudgeStep(s, s', t) || EndStep(s, s', t))
  }

  // ----- the invariant

  /** Everybody sees what a slot protects. */
  predicate SlotsOk(w: World) {
    Shaped(w) && forall i :: 0 <= i < Slots(w) && w.holds[i].Some? ==> w.buffer[i] == [] && w.visible[i] == w.holds[i]
  }

  predicate Unlinked(w: World, q: seq<Node>) {
    forall x :: x in q ==> x in w.gone
  }

  /** Whatever of q a slot already read protects was found there. */
  predicate Found(w: World, r: SlotScan, q: seq<Node>) {
    && Shaped(w) && r.next <= Slots(w)
    && forall i :: 0 <= i < r.next && w.holds[i].Some? && w.holds[i].value in q ==> w.holds[i].value in r.plist
  }

  predicate ThreadOk(s: State, t: nat)
    requires t < |s.threads|
  {
    var th := s.threads[t];
    && Unlinked(s.w, th.rlist)
    && match th.pos
       case Outside => true
       case Reading(r) => Found(s.w, r, th.rlist)
       case Walking(r, todo, kept) => Found(s.w, r, todo) && r.next == Slots(s.w) && Unlinked(s.w, todo) && Unlinked(s.w, kept)
  }

  /** A freed node is unlinked, and no slot's thread relies on it. */
  predicate FreedOk(s: State, n: Node) {
    n in s.w.gone && forall i :: 0 <= i < |s.w.holds| ==> s.w.holds[i] != Some(n)
  }

  ghost predicate Inv(s: State) {
    && SlotsOk(s.w)
    && (forall t :: 0 <= t < |s.threads| ==> ThreadOk(s, t))
    && (forall n :: n in s.freed ==> FreedOk(s, n))
  }

  lemma SlotsKept(w: World, w': World)
    requires SlotsOk(w) && SlotStep(w, w')
    ensures SlotsOk(w')
  {
  }

  /** Nobody can begin to hold an unlinked node. */
  lemma FoundKept(w: World, w': World, r: SlotScan, q: seq<Node>)
    requires SlotsOk(w) && SlotStep(w, w') && Unlinked(w, q)
    ensures Unlinked(w', q) && (Found(w, r, q) ==> Found(w', r, q))
  {
  }

  lemma SlotsStepKeeps(s: State, s': State)
    requires Inv(s) && SlotStep(s.w, s'.w) && s' == s.(w := s'.w)
    ensures Inv(s')
  {
    SlotsKept(s.w, s'.w);
    forall t | 0 <= t < |s.threads| ensures ThreadOk(s', t) {
      assert ThreadOk(s, t);
      var th := s.threads[t];
      var r := if th.pos.Outside? then SlotScan(0, 0, []) else th.pos.r;
      FoundKept(s.w, s'.w, r, th.rlist);
      if th.pos.Walking? {
        FoundKept(s.w, s'.w, r, th.pos.todo);
        FoundKept(s.w, s'.w, r, th.pos.kept);
      }
    }
    forall n | n in s'.freed ensures FreedOk(s', n) {
      assert FreedOk(s, n);
    }
  }

  /** A slot that protects a retired node when it is read goes into plist. */
  lemma ReadFinds(w: World, r: SlotScan, q: seq<Node>, t: nat)
    requires SlotsOk(w) && Found(w, r, q) && r.next < Slots(w)
    ensures Found(w, ReadSlot(w, r, t), q)
  {
    var r' := ReadSlot(w, r, t);
    forall i | 0 <= i < r'.next && w.holds[i].Some? && w.holds[i].value in q ensures w.holds[i].value in r'.plist {
      if i == r.next {
        assert Latest(w, i) == w.holds[i];
      }
    }
  }

  /** The heart of the matter: a node that is freed is held nowhere. */
  lemma JudgeKeeps(s: State, s': State, t: nat)
    requires Inv(s) && JudgeStep(s, s', t)
    ensures ThreadOk(s', t) && forall n :: n in s'.freed ==> FreedOk(s', n)
  {
    assert ThreadOk(s, t);
    var p := s.threads[t].pos;
    var x := p.todo[|p.todo| - 1];
    assert x in p.todo;
    forall n | n in s'.freed ensures FreedOk(s', n) {
      assert n in s.freed ==> FreedOk(s, n);
    }
  }

  /** Steps that change one thread only. */
  lemma ThreadKeeps(s: State, s': State, t: nat)
    requires Inv(s) && t < |s.threads| == |s'.threads|
             && s' == SetThread(s, t, s'.threads[t]).(freed := s'.freed, retired := s'.retired) && ThreadOk(s', t)
    requires forall n :: n in s'.freed ==> FreedOk(s', n)
    ensures Inv(s')
  {
    forall u | 0 <= u < |s.threads| ensures ThreadOk(s', u) {
      assert u != t ==> ThreadOk(s, u);
    }
  }

  lemma ScanStepKeeps(s: State, s': State, t: nat)
    requires Inv(s) && (BeginStep(s, s', t) || ReadStep(s, s', t) || EndStep(s, s', t))
    ensures ThreadOk(s', t)
  {
    assert ThreadOk(s, t);
    if ReadStep(s, s', t) && s.threads[t].pos.r.next < Slots(s.w) {
      ReadFinds(s.w, s.threads[t].pos.r, s.threads[t].rlist, t);
    }
  }

  lemma NextInv(s: State, s': State)
    requires Inv(s) && Next(s, s')
    ensures Inv(s')
  {
    if SlotStep(s.w, s'.w) && s' == s.(w := s'.w) {
      SlotsStepKeeps(s, s');
    } else {
      assert forall n :: n in s.freed ==> FreedOk(s, n);
      if t: nat, n :| RetireStep(s, s', t, n) {
        assert ThreadOk(s, t);
        ThreadKeeps(s, s', t);
      } else {
        var t: nat :| BeginStep(s, s', t) || ReadStep(s, s', t) || JudgeStep(s, s', t) || EndStep(s, s', t);
        if JudgeStep(s, s', t) {
          JudgeKeeps(s, s', t);
        } else {
          ScanStepKeeps(s, s', t);
        }
        hide ThreadOk, SlotsOk, FreedOk, ReadSlot;
        ThreadKeeps(s, s', t);
      }
    }
  }

  // ----- none is lost, and none is freed twice

  /** What a thread has retired and not freed. */
  function Mine(th: Thread): multiset<Node> {
    multiset(th.rlist) + if th.pos.Walking? then multiset(th.pos.todo) + multiset(th.pos.kept) else multiset{}
  }

  function Lists(s: State): seq<multiset<Node>> {
    seq(|s.threads|, t requires 0 <= t < |s.threads| => Mine(s.threads[t]))
  }

  predicate WalksAlone(s: State) {
    forall t :: 0 <= t < |s.threads| && s.threads[t].pos.Walking? ==> s.threads[t].rlist == []
  }

  /** What was retired is exactly what waits or was freed. */
  predicate Accounted(s: State) {
    WalksAlone(s) && Total(Lists(s)) + multiset(s.freed) == s.retired
  }

  lemma InitAccounted(s: State)
    requires Init(s)
    ensures Accounted(s)
  {
    TotalEmpty(Lists(s));
  }

  lemma StepBalances(s: State, s': State, t: nat, lost: multiset<Node>, won: multiset<Node>)
    requires Accounted(s) && t < |s.threads| == |s'.threads| && s'.threads == s.threads[t := s'.threads[t]]
    requires s'.threads[t].pos.Walking? ==> s'.threads[t].rlist == []
    requires Mine(s'.threads[t]) + lost == Mine(s.threads[t]) + won
    requires multiset(s'.freed) == multiset(s.freed) + lost && s'.retired == s.retired + won
    ensures Accounted(s')
  {
    assert Lists(s') == Lists(s)[t := Mine(s'.threads[t])];
    Balanced(Lists(s), t, Mine(s'.threads[t]), multiset(s.freed), s.retired, lost, won);
  }

  lemma RetireBalances(s: State, s': State, t: nat, n: Node)
    requires Accounted(s) && RetireStep(s, s', t, n)
    ensures Accounted(s')
  {
    assert multiset([n] + s.threads[t].rlist) == multiset{n} + multiset(s.threads[t].rlist);
    StepBalances(s, s', t, multiset{}, multiset{n});
  }

  lemma JudgedMine(th: Thread, keep: bool, th': Thread)
    requires th.pos.Walking? && th.pos.todo != []
    requires var p := th.pos;
             var x, rest := p.todo[|p.todo| - 1], p.todo[..|p.todo| - 1];
             th' == th.(pos := p.(todo := rest, kept := if keep then [x] + p.kept else p.kept))
    ensures var x := th.pos.todo[|th.pos.todo| - 1];
            if keep then Mine(th') == Mine(th) else Mine(th') + multiset{x} == Mine(th)
  {
    var x, rest := th.pos.todo[|th.pos.todo| - 1], th.pos.todo[..|th.pos.todo| - 1];
    assert th.pos.todo == rest + [x];
    assert multiset(th.pos.todo) == multiset(rest) + multiset{x};
    assert multiset([x] + th.pos.kept) == multiset{x} + multiset(th.pos.kept);
  }

  lemma JudgeBalances(s: State, s': State, t: nat)
    requires Accounted(s) && JudgeStep(s, s', t)
    ensures Accounted(s')
  {
    var x := s.threads[t].pos.todo[|s.threads[t].pos.todo| - 1];
    assert s.threads[t].rlist == [];
    hide Mine, Lists, Total;
    if s'.freed == s.freed {
      JudgedMine(s.threads[t], true, s'.threads[t]);
      StepBalances(s, s', t, multiset{}, multiset{});
    } else {
      JudgedMine(s.threads[t], false, s'.threads[t]);
      assert multiset(s.freed + [x]) == multiset(s.freed) + multiset{x};
      StepBalances(s, s', t, multiset{x}, multiset{});
    }
  }

  lemma ScanBalances(s: State, s': State, t: nat)
    requires Accounted(s) && (BeginStep(s, s', t) || ReadStep(s, s', t) || EndStep(s, s', t))
    ensures Accounted(s')
  {
    StepBalances(s, s', t, multiset{}, multiset{});
  }

  lemma NextAccounted(s: State, s': State)
    requires Accounted(s) && Next(s, s')
    ensures Accounted(s')
  {
    hide Accounted, RetireStep, BeginStep, ReadStep, JudgeStep, EndStep, SlotStep;
    if SlotStep(s.w, s'.w) && s' == s.(w := s'.w) {
      SlotsBalance(s, s');
    } else if t: nat, n :| RetireStep(s, s', t, n) {
      RetireBalances(s, s', t, n);
    } else {
      var t: nat :| BeginStep(s, s', t) || ReadStep(s, s', t) || JudgeStep(s, s', t) || EndStep(s, s', t);
      if JudgeStep(s, s', t) {
        JudgeBalances(s, s', t);
      } else {
        ScanBalances(s, s', t);
      }
    }
  }

  lemma SlotsBalance(s: State, s': State)
    requires Accounted(s) && s' == s.(w := s'.w)
    ensures Accounted(s')
  {
    assert Lists(s') == Lists(s);
  }

  // ----- over whole runs

  ghost predicate Run(run: seq<State>) {
    run != [] && Init(run[0]) && forall i :: 0 <= i < |run| - 1 ==> Next(run[i], run[i + 1])
  }

  lemma {:induction false} RunInv(run: seq<State>, i: nat)
    requires Run(run) && i < |run|
    ensures Inv(run[i])
  {
    if i > 0 {
      RunInv(run, i - 1);
      assert Next(run[i - 1], run[i - 1 + 1]);
      hide Inv, Next;
      NextInv(run[i - 1], run[i]);
    }
  }

  /** No run frees a node that a thread still holds. */
  lemma NoFreedNodeHeld(run: seq<State>, k: nat, i: nat, n: Node)
    requires Run(run) && k < |run| && i < |run[k].w.holds| && n in run[k].freed
    ensures run[k].w.holds[i] != Some(n)
  {
    RunInv(run, k);
    hide Run;
    assert FreedOk(run[k], n);
  }

  /** In every run each node has been freed, or waits in some thread's lists, as often as it was retired: none is lost, and
      none that was retired once is freed twice. */
  lemma {:induction false} Conservation(run: seq<State>, k: nat)
    requires Run(run) && k < |run|
    ensures Accounted(run[k])
    ensures forall n :: multiset(run[k].freed)[n] <= run[k].retired[n]
  {
    if k == 0 {
      InitAccounted(run[0]);
    } else {
      Conservation(run, k - 1);
      assert Next(run[k - 1], run[k - 1 + 1]);
      hide Next, Lists;
      NextAccounted(run[k - 1], run[k]);
    }
    FreedFromRetired(run[k]);
  }

  lemma FreedFromRetired(s: State)
    requires Accounted(s)
    ensures forall n :: multiset(s.freed)[n] <= s.retired[n]
  {
    forall n ensures multiset(s.freed)[n] <= s.retired[n] {
      assert (Total(Lists(s)) + multiset(s.freed))[n] == s.retired[n];
    }
  }

  // ----- what a scan frees

  function ScanOf(th: Thread): Option<SlotScan> {
    if th.pos.Outside? then None else Some(th.pos.r)
  }

  /** What the run shows of thread t's scans */
  function TraceOf(run: seq<State>, t: nat): (tr: Trace)
    requires forall i :: 0 <= i < |run| ==> t < |run[i].threads|
    ensures |tr| == |run| && forall i :: 0 <= i < |run| ==> tr[i] == Moment(run[i].w, ScanOf(run[i].threads[t]))
  {
    seq(|run|, i requires 0 <= i < |run| => Moment(run[i].w, ScanOf(run[i].threads[t])))
  }

  lemma StepGoes(s: State, s': State, t: nat)
    requires Next(s, s') && t < |s.threads|
    ensures t < |s'.threads| && Goes(Moment(s.w, ScanOf(s.threads[t])), Moment(s'.w, ScanOf(s'.threads[t])), t)
  {
    hide SlotStep;
  }

  lemma {:induction false} ThreadsStay(run: seq<State>, i: nat)
    requires Run(run) && i < |run|
    ensures |run[i].threads| == |run[0].threads|
  {
    if i > 0 {
      ThreadsStay(run, i - 1);
      assert Next(run[i - 1], run[i - 1 + 1]);
      hide SlotStep;
    }
  }

  lemma RunGoes(run: seq<State>, t: nat)
    requires Run(run) && t < |run[0].threads|
    ensures forall i :: 0 <= i < |run| ==> t < |run[i].threads|
    ensures Follows(TraceOf(run, t), t)
  {
    forall i | 0 <= i < |run| ensures t < |run[i].threads| {
      ThreadsStay(run, i);
    }
    var tr := TraceOf(run, t);
    forall i | 0 < i < |tr| ensures Goes(tr[i - 1], tr[i], t) {
      assert Next(run[i - 1], run[i - 1 + 1]);
      hide Run, Next;
      StepGoes(run[i - 1], run[i], t);
    }
  }

  /** The step of a thread that has a node to judge takes the oldest one. */
  lemma JudgesOldest(s: State, s': State, t: nat)
    requires Next(s, s') && t < |s.threads| && s.threads[t].pos.Walking? && s.threads[t].pos.todo != []
    requires t < |s'.threads| && s'.threads[t] != s.threads[t]
    ensures JudgeStep(s, s', t)
  {
    hide SlotStep;
  }

  /** In every run: by the time a scan judges it has read every slot, it takes its nodes oldest first, and it keeps a
      node exactly if one of its own reads has shown it that node; otherwise it frees it. */
  lemma KeptIffSeen(run: seq<State>, e: nat, t: nat, x: Node)
    requires Run(run) && e + 1 < |run| && t < |run[0].threads| && t < |run[e].threads| && t < |run[e + 1].threads|
    requires run[e].threads[t].pos.Walking? && run[e + 1].threads[t] != run[e].threads[t]
    requires var todo := run[e].threads[t].pos.todo; todo != [] && todo[|todo| - 1] == x
    ensures forall i :: 0 <= i < |run| ==> t < |run[i].threads|
    ensures run[e].threads[t].pos.r.next == Slots(run[e].w)
    ensures var p := run[e].threads[t].pos;
            var rest := p.todo[..|p.todo| - 1];
            if Saw(TraceOf(run, t), t, e, x)
            then run[e + 1].freed == run[e].freed && run[e + 1].threads[t].pos == Walking(p.r, rest, [x] + p.kept)
            else run[e + 1].freed == run[e].freed + [x] && run[e + 1].threads[t].pos == Walking(p.r, rest, p.kept)
  {
    RunInv(run, e);
    assert ThreadOk(run[e], t) && Next(run[e], run[e + 1]);
    RunGoes(run, t);
    hide Run, Inv, Next;
    JudgesOldest(run[e], run[e + 1], t);
    PlistIff(TraceOf(run, t), t, e, x);
  }
}
