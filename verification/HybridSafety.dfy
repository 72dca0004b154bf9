/** The hybrid scheme (src/qsbr_smr_hybrid.c): epochs while all threads are there, hazard scans over the same
    limbo lists while some are not, with a flag that any thread may flip at any time.

    The state has the epoch scheme of QsbrWindow and the hazard slots of StoreBuffers side by side. A thread's
    steps are those of the epoch scheme, those of a hazard scan, and the decisions between the two.
 */
module HybridSafety {
  import opened Addresses
  import opened Options
  import opened Timing
  import opened Qsbr
  import Q = QsbrSafety
  import W = QsbrWindow
  import opened StoreBuffers
  import opened ScanReads

  const SWITCH_THRESHOLD := 10

  /** R for h slots (include/qsbr_smr_hybrid.h). */
  function Threshold(h: nat): nat {
    100 + 2 * h
  }

  /** What a thread is doing for reclamation; last is what last_flag becomes when it is done. Judging: limbo list l
      is being walked from its tail, and kept nodes of it have been passed. */
  datatype Act =
    | Free
    | Quiescing(left: nat, last: bool)
    | SlotReading(r: SlotScan, last: bool)
    | Judging(r: SlotScan, l: nat, kept: nat, last: bool)

  datatype Ctl = Ctl(lastFlag: bool, act: Act)

  /** created holds the time stamps of the retired nodes; present is is_present_vect. */
  datatype State = State(q: W.State, w: World, created: map<Node, int>, flag: bool, present: seq<bool>, ctl: seq<Ctl>)

  ghost predicate Init(s: State, nthreads: nat) {
    && W.Init(s.q, nthreads) && StoreBuffers.Init(s.w) && Slots(s.w) == K * nthreads
    && s.created == map[] && !s.flag
    && s.present == seq(nthreads, _ => true) && s.ctl == seq(nthreads, _ => Ctl(false, Free))
  }

  function SetCtl(s: State, t: nat, act: Act): State
    requires t < |s.ctl|
  {
    s.(ctl := s.ctl[t := s.ctl[t].(act := act)])
  }

  predicate Idle(s: State, t: nat) {
    t < |s.ctl| && s.ctl[t].act.Free?
  }

  // ----- using nodes

  predicate LinkStep(s: State, s': State, n: Node) {
    Q.LinkStep(s.q.q, s'.q.q, n) && s' == s.(q := s.q.(q := s'.q.q))
  }

  predicate SlotStep(s: State, s': State, v: int, i: nat, value: Option<Node>) {
    && (PublishStep(s.w, s'.w, i, value) || FlushStep(s.w, s'.w, i) || TickStep(s.w, s'.w, v))
    && s' == s.(w := s'.w)
  }

  /** The validated acquire, in both views of the state. */
  predicate HoldNodeStep(s: State, s': State, i: nat, n: Node) {
    && Idle(s, i / K) && HoldStep(s.w, s'.w, i, n) && Q.AcquireStep(s.q.q, s'.q.q, i / K, n)
    && s' == s.(w := s'.w, q := s.q.(q := s'.q.q))
  }

  /** No other slot of the thread protects n. */
  predicate OnlySlot(w: World, i: nat, n: Node) {
    forall j :: 0 <= j < |w.holds| && j != i && j / K == i / K ==> w.holds[j] != Some(n)
  }

  predicate DropNodeStep(s: State, s': State, i: nat) {
    && Idle(s, i / K) && DropStep(s.w, s'.w, i)
    && (if s.w.holds[i].Some? && OnlySlot(s.w, i, s.w.holds[i].value) then Q.ReleaseStep(s.q.q, s'.q.q, i / K, s.w.holds[i].value)
        else s'.q.q == s.q.q)
    && s' == s.(w := s'.w, q := s.q.(q := s'.q.q))
  }

  predicate UnlinkNodeStep(s: State, s': State, t: nat, n: Node) {
    && Idle(s, t) && Q.UnlinkStep(s.q.q, s'.q.q, t, n) && StoreBuffers.UnlinkStep(s.w, s'.w, n)
    && s' == s.(w := s'.w, q := s.q.(q := s'.q.q))
  }

  /** free_node_later: in fallback mode it scans when too much is waiting. */
  predicate RetireNodeStep(s: State, s': State, t: nat, n: Node) {
    && Idle(s, t) && Q.RetireStep(s.q.q, s'.q.q, t, n)
    && var s1 := s.(q := s.q.(q := s'.q.q), created := s.created[n := s.w.now]);
       s' == if s.flag && t < |s'.q.q.d.locals| && s'.q.q.d.locals[t].rcount >= Threshold(Slots(s.w))
             then SetCtl(s1, t, SlotReading(SlotScan(s.w.now, 0, []), s.ctl[t].lastFlag)) else s1
  }

  // ----- deciding what to do

  /** allocate_fail */
  function AllocateFail(s: State, t: nat, trials: int): State
    requires t < |s.ctl|
  {
    var scan := SlotReading(SlotScan(s.w.now, 0, []), true);
    if s.ctl[t].lastFlag && !s.flag then SetCtl(s, t, Quiescing(100, false))
    else if s.flag then SetCtl(s, t, scan)
    else if trials >= SWITCH_THRESHOLD then s.(flag := true, ctl := s.ctl[t := Ctl(true, scan)])
    else SetCtl(s, t, Quiescing(1, false))
  }

  /** manage_hybrid_state. Leaving fallback mode sets last_flag to 0, quiesces ten times, and sets it to 1 again. */
  function ManageHybridState(s: State, t: nat): State
    requires t < |s.ctl| && t < |s.present|
  {
    var s1 := s.(present := s.present[t := true]);
    if s.ctl[t].lastFlag && !s.flag then SetCtl(s1, t, Quiescing(100, false))
    else if !s.flag then SetCtl(s1, t, Quiescing(1, false))
    else if forall i :: 0 <= i < |s1.present| ==> s1.present[i] then
      s1.(flag := false, ctl := s.ctl[t := Ctl(false, Quiescing(10, true))])
    else s1.(ctl := s.ctl[t := Ctl(true, Free)])
  }

  predicate DecideStep(s: State, s': State, t: nat, trials: int) {
    && Idle(s, t) && t < |s.present|
    && (s' == AllocateFail(s, t, trials) || s' == ManageHybridState(s, t))
  }

  /** mr_thread_exit and its scans. */
  predicate ExitScanStep(s: State, s': State, t: nat) {
    Idle(s, t) && s' == SetCtl(s, t, SlotReading(SlotScan(s.w.now, 0, []), s.ctl[t].lastFlag))
  }

  /** The flag as other threads may set it between any two steps, and reset_presence. */
  predicate FlagStep(s: State, s': State, f: bool) {
    s' == s.(flag := f) || s' == s.(present := seq(|s.present|, _ => false))
  }

  // ----- the epoch scheme

  /** One step of a call of quiescent_state; when it is the last one, the call is counted. */
  predicate QuiesceStep(s: State, s': State, t: nat) {
    && t < |s.ctl| && s.ctl[t].act.Quiescing? && s.ctl[t].act.left > 0
    && W.CallStep(s.q, s'.q, t) && t < |s'.q.calls|
    && s' == if s'.q.calls[t].NoCall? then SetCtl(s.(q := s'.q), t, Quiescing(s.ctl[t].act.left - 1, s.ctl[t].act.last))
             else s.(q := s'.q)
  }

  predicate QuiescedStep(s: State, s': State, t: nat) {
    && t < |s.ctl| && s.ctl[t].act.Quiescing? && s.ctl[t].act.left == 0
    && s' == s.(ctl := s.ctl[t := Ctl(s.ctl[t].act.last, Free)])
  }

  // ----- the hazard scan

  predicate ReadSlotStep(s: State, s': State, t: nat) {
    && t < |s.ctl| && s.ctl[t].act.SlotReading? && Shaped(s.w)
    && var a := s.ctl[t].act;
       s' == SetCtl(s, t, if a.r.next < Slots(s.w) then SlotReading(ReadSlot(s.w, a.r, t), a.last) else Judging(a.r, 0, 0, a.last))
  }

  /** Taking one node out of a limbo list, at position k from the head. */
  function FreeOne(q: Q.State, t: nat, l: nat, k: nat): Q.State
    requires Q.Shaped(q) && t < |q.d.locals| && l < N_EPOCHS && k < |q.d.locals[t].limbo[l]|
  {
    var x := q.d.locals[t];
    var n := x.limbo[l][k];
    q.(d := q.d.(freed := q.d.freed + [n],
                 locals := q.d.locals[t := x.(limbo := x.limbo[l := x.limbo[l][..k] + x.limbo[l][k + 1..]],
                                                rcount := x.rcount - 1)]),
       nodes := q.nodes[n := Q.Scanned])
  }

  /** One node is judged, at most d after the scan began; then the next list, and after the third the scan ends. */
  predicate JudgeStep(s: State, s': State, t: nat, d: int) {
    && t < |s.ctl| && s.ctl[t].act.Judging? && Q.Shaped(s.q.q) && t < |s.q.q.d.locals|
    && var a := s.ctl[t].act;
       if a.l >= N_EPOCHS then s' == s.(ctl := s.ctl[t := Ctl(a.last, Free)])
       else
         var list := s.q.q.d.locals[t].limbo[a.l];
         if a.kept >= |list| then s' == SetCtl(s, t, Judging(a.r, a.l + 1, 0, a.last))
         else
           var k := |list| - 1 - a.kept;
           && list[k] in s.created && s.w.now <= a.r.start + d && InRange(s.created[list[k]], s.w.now)
           && s' == if !IsOldEnough(s.created[list[k]], s.w.now) || list[k] in a.r.plist
                    then SetCtl(s, t, Judging(a.r, a.l, a.kept + 1, a.last))
                    else s.(q := s.q.(q := FreeOne(s.q.q, t, a.l, k)))
  }

  ghost predicate Next(s: State, s': State, v: int, d: int) {
    || (exists n :: LinkStep(s, s', n))
    || (exists i, value :: SlotStep(s, s', v, i, value))
    || (exists i, n :: HoldNodeStep(s, s', i, n))
    || (exists i :: DropNodeStep(s, s', i))
    || (exists t, n :: UnlinkNodeStep(s, s', t, n) || RetireNodeStep(s, s', t, n))
    || (exists t, trials :: DecideStep(s, s', t, trials))
    || (exists t :: ExitScanStep(s, s', t) || QuiesceStep(s, s', t) || QuiescedStep(s, s', t) || ReadSlotStep(s, s', t)
                    || JudgeStep(s, s', t, d))
    || (exists f :: FlagStep(s, s', f))
  }

  // ----- the invariant

  predicate Aligned(s: State) {
    W.Shaped(s.q) && Shaped(s.w) && |s.ctl| == |s.q.calls| && Slots(s.w) == K * |s.ctl| && |s.present| == |s.ctl|
  }

  /** Both views agree on which nodes are unlinked, and on the time stamps of the retired ones. */
  predicate NodeOk(s: State, n: Node) {
    && (n in s.w.gone <==> n in s.q.q.nodes && !s.q.q.nodes[n].Linked?)
    && (n in s.q.q.nodes && s.q.q.nodes[n].Limbo? ==>
          n in s.created && n in s.w.gone && s.w.gone[n] <= s.created[n] <= s.w.now)
  }

  /** Both views agree on who holds n: a thread holds exactly what its slots protect. */
  ghost predicate HeldSame(s: State, t: nat, n: Node)
    requires t < |s.q.q.shadows|
  {
    n in s.q.q.shadows[t].held <==> exists i :: Protects(s.w, t, i, n)
  }

  predicate Protects(w: World, t: nat, i: int, n: Node) {
    0 <= i < |w.holds| && i / K == t && w.holds[i] == Some(n)
  }

  predicate CtlOk(s: State, v: int, t: nat)
    requires Aligned(s) && t < |s.ctl|
  {
    && (!s.q.calls[t].NoCall? ==> s.ctl[t].act.Quiescing? && s.ctl[t].act.left > 0)
    && (s.ctl[t].act.SlotReading? ==> ReadingOk(s.w, v, s.ctl[t].act.r))
    && (s.ctl[t].act.Judging? ==> ReadingOk(s.w, v, s.ctl[t].act.r) && s.ctl[t].act.r.next == Slots(s.w))
  }

  ghost predicate Inv(s: State, v: int) {
    && Aligned(s) && W.Inv(s.q) && WorldInv(s.w, v)
    && (forall n :: NodeOk(s, n))
    && (forall t, n :: 0 <= t < |s.ctl| ==> HeldSame(s, t, n))
    && (forall t :: 0 <= t < |s.ctl| ==> CtlOk(s, v, t))
  }

  lemma InitInv(s: State, nthreads: nat, v: int)
    requires Init(s, nthreads) && v >= 0
    ensures Inv(s, v)
  {
    W.InitInv(s.q, nthreads);
    assert forall i :: 0 <= i < Slots(s.w) ==> SlotOk(s.w, v, i);
  }

  // ----- using nodes keeps the invariant

  lemma CtlKept(s: State, s': State, v: int)
    requires Inv(s, v) && Aligned(s') && (s'.w == s.w || WorldStep(s.w, s'.w, v)) && s'.ctl == s.ctl
    requires s'.q.calls == s.q.calls
    ensures forall t :: 0 <= t < |s'.ctl| ==> CtlOk(s', v, t)
  {
    forall t | 0 <= t < |s'.ctl| ensures CtlOk(s', v, t) {
      assert CtlOk(s, v, t);
      var a := s.ctl[t].act;
      if s'.w != s.w && (a.SlotReading? || a.Judging?) {
        ReadingKept(s.w, s'.w, v, a.r);
      }
    }
  }

  lemma LinkInv(s: State, s': State, v: int, n: Node)
    requires Inv(s, v) && LinkStep(s, s', n)
    ensures Inv(s', v)
  {
    W.LinkKeeps(s.q, s'.q, n);
    hide W.Inv, WorldInv;
    forall m ensures NodeOk(s', m) {
      assert NodeOk(s, m);
    }
    forall t, m | 0 <= t < |s.ctl| ensures HeldSame(s', t, m) {
      assert HeldSame(s, t, m);
    }
    CtlKept(s, s', v);
  }

  lemma SlotInv(s: State, s': State, v: int, i: nat, value: Option<Node>)
    requires Inv(s, v) && SlotStep(s, s', v, i, value)
    ensures Inv(s', v)
  {
    assert WorldStep(s.w, s'.w, v);
    WorldStepInv(s.w, s'.w, v);
    hide W.Inv, WorldInv;
    forall m ensures NodeOk(s', m) {
      assert NodeOk(s, m);
    }
    forall t, m | 0 <= t < |s.ctl| ensures HeldSame(s', t, m) {
      assert HeldSame(s, t, m);
      assert forall j :: Protects(s'.w, t, j, m) == Protects(s.w, t, j, m);
    }
    CtlKept(s, s', v);
  }

  /** A slot that is validated again already protects the same node. */
  lemma HoldInv(s: State, s': State, v: int, i: nat, n: Node)
    requires Inv(s, v) && HoldNodeStep(s, s', i, n)
    ensures Inv(s', v)
  {
    assert SlotOk(s.w, v, i);
    assert s.w.holds[i] == None || s.w.holds[i] == Some(n);
    assert WorldStep(s.w, s'.w, v);
    WorldStepInv(s.w, s'.w, v);
    assert CtlOk(s, v, i / K);
    W.NodeKeeps(s.q, s'.q, i / K, n);
    hide W.Inv, WorldInv;
    forall m ensures NodeOk(s', m) {
      assert NodeOk(s, m);
    }
    forall t, m | 0 <= t < |s.ctl| ensures HeldSame(s', t, m) {
      assert HeldSame(s, t, m);
      assert Protects(s'.w, i / K, i, n);
      assert forall j :: Protects(s.w, t, j, m) ==> Protects(s'.w, t, j, m);
      assert forall j :: Protects(s'.w, t, j, m) && !Protects(s.w, t, j, m) ==> j == i && m == n;
    }
    CtlKept(s, s', v);
  }

  lemma DropInv(s: State, s': State, v: int, i: nat)
    requires Inv(s, v) && DropNodeStep(s, s', i)
    ensures Inv(s', v)
  {
    assert WorldStep(s.w, s'.w, v);
    WorldStepInv(s.w, s'.w, v);
    if s'.q != s.q {
      assert CtlOk(s, v, i / K);
      W.NodeKeeps(s.q, s'.q, i / K, s.w.holds[i].value);
    }
    hide W.Inv, WorldInv;
    forall m ensures NodeOk(s', m) {
      assert NodeOk(s, m);
    }
    forall t, m | 0 <= t < |s.ctl| ensures HeldSame(s', t, m) {
      DropHeld(s, s', i, t, m);
    }
    CtlKept(s, s', v);
  }

  lemma DropHeld(s: State, s': State, i: nat, t: nat, m: Node)
    requires Aligned(s) && t < |s.ctl| && HeldSame(s, t, m) && DropNodeStep(s, s', i) && Aligned(s')
             && |s'.ctl| == |s.ctl|
    ensures HeldSame(s', t, m)
  {
    assert forall j :: Protects(s'.w, t, j, m) <==> Protects(s.w, t, j, m) && j != i;
    if s.w.holds[i] == Some(m) && t == i / K {
      assert Protects(s.w, t, i, m);
      if !OnlySlot(s.w, i, m) {
        var j :| 0 <= j < |s.w.holds| && j != i && j / K == i / K && s.w.holds[j] == Some(m);
        assert Protects(s'.w, t, j, m);
      } else {
        assert forall j :: Protects(s.w, t, j, m) ==> j == i;
      }
    } else {
      assert forall j :: Protects(s'.w, t, j, m) <==> Protects(s.w, t, j, m);
    }
  }

  lemma UnlinkInv(s: State, s': State, v: int, t: nat, n: Node)
    requires Inv(s, v) && UnlinkNodeStep(s, s', t, n)
    ensures Inv(s', v)
  {
    assert WorldStep(s.w, s'.w, v);
    WorldStepInv(s.w, s'.w, v);
    assert CtlOk(s, v, t);
    W.NodeKeeps(s.q, s'.q, t, n);
    hide W.Inv, WorldInv;
    forall m ensures NodeOk(s', m) {
      assert NodeOk(s, m);
    }
    forall u, m | 0 <= u < |s.ctl| ensures HeldSame(s', u, m) {
      assert HeldSame(s, u, m);
      assert forall j :: Protects(s'.w, u, j, m) == Protects(s.w, u, j, m);
    }
    CtlKept(s, s', v);
  }

  /** A step that changes neither world: only the threads' positions, the flag, time stamps of new nodes. */
  lemma SameWorlds(s: State, s': State, v: int)
    requires Inv(s, v) && Aligned(s') && s'.w == s.w && W.Inv(s'.q)
    requires forall u :: 0 <= u < |s.ctl| ==> s'.q.q.shadows[u].held == s.q.q.shadows[u].held
    requires |s'.ctl| == |s.ctl| && forall n :: NodeOk(s', n)
    requires forall t :: 0 <= t < |s'.ctl| ==> CtlOk(s', v, t)
    ensures Inv(s', v)
  {
    hide W.Inv, WorldInv, NodeOk, CtlOk;
    forall u, m | 0 <= u < |s.ctl| ensures HeldSame(s', u, m) {
      assert HeldSame(s, u, m);
    }
  }

  lemma RetireInv(s: State, s': State, v: int, t: nat, n: Node)
    requires Inv(s, v) && RetireNodeStep(s, s', t, n)
    ensures Inv(s', v)
  {
    assert CtlOk(s, v, t);
    W.RetireKeeps(s.q, s'.q, t, n);
    hide W.Inv;
    forall m ensures NodeOk(s', m) {
      assert NodeOk(s, m);
    }
    forall u | 0 <= u < |s'.ctl| ensures CtlOk(s', v, u) {
      assert CtlOk(s, v, u);
    }
    SameWorlds(s, s', v);
  }

  /** Decisions, exits, flag flips and the ends of calls change only what a thread does next. */
  lemma ControlInv(s: State, s': State, v: int)
    requires Inv(s, v) && s' == s.(ctl := s'.ctl, flag := s'.flag, present := s'.present) && |s'.ctl| == |s.ctl|
             && |s'.present| == |s.present|
    requires forall u :: 0 <= u < |s.ctl| ==>
               || s'.ctl[u].act == s.ctl[u].act
               || ((s.ctl[u].act.Free? || (s.ctl[u].act.Quiescing? && s.ctl[u].act.left == 0)
                  || s.ctl[u].act.SlotReading? || s.ctl[u].act.Judging?)
                   && CtlFresh(s, v, s'.ctl[u].act))
    ensures Inv(s', v)
  {
    forall m ensures NodeOk(s', m) {
      assert NodeOk(s, m);
    }
    forall u | 0 <= u < |s'.ctl| ensures CtlOk(s', v, u) {
      assert CtlOk(s, v, u);
    }
    hide W.Inv;
    SameWorlds(s, s', v);
  }

  /** A new position that says nothing wrong about the slots. */
  predicate CtlFresh(s: State, v: int, a: Act) {
    && (a.SlotReading? ==> ReadingOk(s.w, v, a.r))
    && (a.Judging? ==> ReadingOk(s.w, v, a.r) && Shaped(s.w) && a.r.next == Slots(s.w))
  }

  lemma ReadSlotInv(s: State, s': State, v: int, t: nat)
    requires Inv(s, v) && ReadSlotStep(s, s', t)
    ensures Inv(s', v)
  {
    assert CtlOk(s, v, t);
    if s.ctl[t].act.r.next < Slots(s.w) {
      ReadSlotOk(s.w, v, s.ctl[t].act.r, t);
    }
    ControlInv(s, s', v);
  }

  // ----- the epoch scheme keeps the invariant

  lemma QuiesceInv(s: State, s': State, v: int, t: nat)
    requires Inv(s, v) && QuiesceStep(s, s', t) && W.StepOk(s.q, s'.q)
    ensures Inv(s', v)
  {
    hide W.CallStep, W.CloseStep, W.CloseOk;
    W.CallKeeps(s.q, s'.q, t);
    W.CallShape(s.q, s'.q, t);
    hide W.Inv;
    forall m ensures NodeOk(s', m) {
      assert NodeOk(s, m);
    }
    forall u | 0 <= u < |s'.ctl| ensures CtlOk(s', v, u) {
      assert CtlOk(s, v, u);
    }
    SameWorlds(s, s', v);
  }

  // ----- a hazard scan frees only what nobody holds

  lemma RemovedMembers(q: seq<Node>, k: nat, n: Node)
    requires k < |q| && Q.NoDuplicates(q)
    ensures Q.NoDuplicates(q[..k] + q[k + 1..])
    ensures n in q[..k] + q[k + 1..] <==> n in q && n != q[k]
  {
    var p := q[..k] + q[k + 1..];
    assert forall i :: 0 <= i < |p| ==> p[i] == q[if i < k then i else i + 1];
    if n in q && n != q[k] {
      var i :| 0 <= i < |q| && q[i] == n;
      assert p[if i < k then i else i - 1] == n;
    }
  }

  lemma FreeOneLists(q: Q.State, t: nat, l: nat, k: nat)
    requires Q.Inv(q) && t < |q.d.locals| && l < N_EPOCHS && k < |q.d.locals[t].limbo[l]|
    ensures Q.Shaped(FreeOne(q, t, l, k)) && Q.ListsOk(FreeOne(q, t, l, k))
  {
    var q' := FreeOne(q, t, l, k);
    var list := q.d.locals[t].limbo[l];
    var n := list[k];
    assert Q.ListOk(q, t, l) && n in list;
    assert n !in q.d.freed;
    forall u, m | 0 <= u < |q.shadows| && 0 <= m < N_EPOCHS ensures Q.ListOk(q', u, m) {
      assert Q.ListOk(q, u, m);
      if u == t && m == l {
        forall x ensures x in q'.d.locals[u].limbo[m] <==> x in list && x != n {
          RemovedMembers(list, k, x);
        }
        RemovedMembers(list, k, n);
      } else {
        Q.ListSame(q, q', u, m);
      }
    }
  }

  lemma FreeOneInv(q: Q.State, t: nat, l: nat, k: nat)
    requires Q.Inv(q) && t < |q.d.locals| && l < N_EPOCHS && k < |q.d.locals[t].limbo[l]|
    requires forall u :: 0 <= u < |q.shadows| ==> q.d.locals[t].limbo[l][k] !in q.shadows[u].held
    ensures Q.Inv(FreeOne(q, t, l, k))
  {
    var q' := FreeOne(q, t, l, k);
    FreeOneLists(q, t, l, k);
    hide Q.ListsOk;
    forall u | 0 <= u < |q.shadows| ensures Q.EpochOk(q'.now, q'.d.locals[u], q'.shadows[u]) && Q.ScanOk(q', u) {
      assert Q.EpochOk(q.now, q.d.locals[u], q.shadows[u]) && Q.ScanOk(q, u);
    }
    forall n | n in q'.nodes ensures Q.PlaceOk(q', q'.nodes[n]) {
      assert n in q.nodes ==> Q.PlaceOk(q, q.nodes[n]);
    }
    forall u, n | 0 <= u < |q.shadows| ensures Q.HolderOk(q', u, n) {
      assert Q.HolderOk(q, u, n);
    }
  }

  /** The same in the state with its calls. */
  lemma FreeOneKeeps(q: W.State, t: nat, l: nat, k: nat)
    requires W.Inv(q) && t < |q.calls| && q.calls[t].NoCall? && l < N_EPOCHS && k < |q.q.d.locals[t].limbo[l]|
    requires forall u :: 0 <= u < |q.calls| ==> q.q.d.locals[t].limbo[l][k] !in q.q.shadows[u].held
    ensures W.Inv(q.(q := FreeOne(q.q, t, l, k)))
  {
    var q' := q.(q := FreeOne(q.q, t, l, k));
    W.CalmAt(q, t);
    FreeOneInv(W.Calm(q), t, l, k);
    assert W.Calm(q').d.locals == FreeOne(W.Calm(q), t, l, k).d.locals;
    hide Q.Inv;
    forall u | 0 <= u < |q.calls| ensures W.CallOk(q', u) {
      assert W.CallOk(q, u);
    }
  }

  /** The age test and the slots together: nobody holds the node that is about to be freed. */
  lemma JudgedIsFree(s: State, v: int, d: int, t: nat, n: Node, u: nat)
    requires Inv(s, v) && Timely(v, d) && t < |s.ctl| && s.ctl[t].act.Judging? && u < |s.ctl|
    requires n in s.q.q.nodes && s.q.q.nodes[n].Limbo? && n in s.created && InRange(s.created[n], s.w.now)
    requires var a := s.ctl[t].act; s.w.now <= a.r.start + d && IsOldEnough(s.created[n], s.w.now) && n !in a.r.plist
    ensures n !in s.q.q.shadows[u].held
  {
    assert NodeOk(s, n) && CtlOk(s, v, t) && HeldSame(s, u, n);
    forall i ensures !Protects(s.w, u, i, n) {
      if 0 <= i < |s.w.holds| {
        FreeableIsFree(s.w, v, d, s.ctl[t].act.r, n, s.created[n], i);
      }
    }
  }

  /** The node that a scan takes out of the list is held by nobody. */
  lemma JudgeFrees(s: State, s': State, v: int, d: int, t: nat)
    requires Inv(s, v) && Timely(v, d) && JudgeStep(s, s', t, d) && s'.q != s.q
    ensures var a := s.ctl[t].act;
            && a.l < N_EPOCHS && a.kept < |s.q.q.d.locals[t].limbo[a.l]|
            && var k := |s.q.q.d.locals[t].limbo[a.l]| - 1 - a.kept;
               && s' == s.(q := s.q.(q := FreeOne(s.q.q, t, a.l, k))) && W.Inv(s'.q)
               && s.q.q.d.locals[t].limbo[a.l][k] in s.q.q.nodes
               && s.q.q.nodes[s.q.q.d.locals[t].limbo[a.l][k]].Limbo?
  {
    hide W.Inv, WorldInv, IsOldEnough, NodeOk, HeldSame;
    assert CtlOk(s, v, t);
    var a := s.ctl[t].act;
    var list := s.q.q.d.locals[t].limbo[a.l];
    var k := |list| - 1 - a.kept;
    var n := list[k];
    assert n in list && n in s.q.q.nodes && s.q.q.nodes[n].Limbo? by { W.Listed(s.q, t, a.l, n); }
    forall u | 0 <= u < |s.q.calls| ensures n !in s.q.q.shadows[u].held {
      JudgedIsFree(s, v, d, t, n, u);
    }
    hide Inv, CtlOk;
    FreeOneKeeps(s.q, t, a.l, k);
  }

  lemma JudgeInv(s: State, s': State, v: int, d: int, t: nat)
    requires Inv(s, v) && Timely(v, d) && JudgeStep(s, s', t, d)
    ensures Inv(s', v)
  {
    hide W.Inv, WorldInv, IsOldEnough;
    assert CtlOk(s, v, t);
    if s'.q == s.q {
      ControlInv(s, s', v);
    } else {
      JudgeFrees(s, s', v, d, t);
      hide W.Inv, JudgeStep;
      forall m ensures NodeOk(s', m) {
        assert NodeOk(s, m);
      }
      forall u | 0 <= u < |s'.ctl| ensures CtlOk(s', v, u) {
        assert CtlOk(s, v, u);
      }
      SameWorlds(s, s', v);
    }
  }

  lemma DecideInv(s: State, s': State, v: int, t: nat, trials: int)
    requires Inv(s, v) && DecideStep(s, s', t, trials)
    ensures Inv(s', v)
  {
    hide W.Inv, NodeOk, HeldSame, CtlOk, WorldInv;
    ControlInv(s, s', v);
  }

  lemma EndInv(s: State, s': State, v: int, t: nat)
    requires Inv(s, v) && (ExitScanStep(s, s', t) || QuiescedStep(s, s', t))
    ensures Inv(s', v)
  {
    hide W.Inv, NodeOk, HeldSame, CtlOk, WorldInv;
    ControlInv(s, s', v);
  }

  lemma FlagInv(s: State, s': State, v: int, f: bool)
    requires Inv(s, v) && FlagStep(s, s', f)
    ensures Inv(s', v)
  {
    hide W.Inv, NodeOk, HeldSame, CtlOk, WorldInv;
    ControlInv(s, s', v);
  }

  lemma NextInv(s: State, s': State, v: int, d: int)
    requires Inv(s, v) && Timely(v, d) && Next(s, s', v, d) && W.StepOk(s.q, s'.q)
    ensures Inv(s', v)
  {
    hide Inv, LinkStep, SlotStep, HoldNodeStep, DropNodeStep, UnlinkNodeStep, RetireNodeStep, QuiesceStep,
         ReadSlotStep, JudgeStep, DecideStep, FlagStep, ExitScanStep, QuiescedStep, W.StepOk;
    if n :| LinkStep(s, s', n) {
      LinkInv(s, s', v, n);
    } else if i: nat, value :| SlotStep(s, s', v, i, value) {
      SlotInv(s, s', v, i, value);
    } else if i: nat, n :| HoldNodeStep(s, s', i, n) {
      HoldInv(s, s', v, i, n);
    } else if i: nat :| DropNodeStep(s, s', i) {
      DropInv(s, s', v, i);
    } else if t: nat, n :| UnlinkNodeStep(s, s', t, n) || RetireNodeStep(s, s', t, n) {
      if UnlinkNodeStep(s, s', t, n) {
        UnlinkInv(s, s', v, t, n);
      } else {
        RetireInv(s, s', v, t, n);
      }
    } else if t: nat, trials :| DecideStep(s, s', t, trials) {
      DecideInv(s, s', v, t, trials);
    } else if f :| FlagStep(s, s', f) {
      FlagInv(s, s', v, f);
    } else {
      var t: nat :| ExitScanStep(s, s', t) || QuiesceStep(s, s', t) || QuiescedStep(s, s', t) || ReadSlotStep(s, s', t) || JudgeStep(s, s', t, d);
      if QuiesceStep(s, s', t) {
        QuiesceInv(s, s', v, t);
      } else if ReadSlotStep(s, s', t) {
        ReadSlotInv(s, s', v, t);
      } else if JudgeStep(s, s', t, d) {
        JudgeInv(s, s', v, d, t);
      } else {
        EndInv(s, s', v, t);
      }
    }
  }

  // ----- over whole runs

  ghost predicate Run(run: seq<State>, nthreads: nat, v: int, d: int) {
    run != [] && Init(run[0], nthreads) && forall i :: 0 <= i < |run| - 1 ==> Next(run[i], run[i + 1], v, d)
  }

  /** Every failed call of quiescent_state in the run meets the condition of QsbrWindow at its end. */
  ghost predicate Tidy(run: seq<State>) {
    forall i :: 0 <= i < |run| - 1 ==> W.StepOk(run[i].q, run[i + 1].q)
  }

  lemma {:induction false} RunInv(run: seq<State>, nthreads: nat, v: int, d: int, i: nat)
    requires Run(run, nthreads, v, d) && Tidy(run) && Timely(v, d) && i < |run|
    ensures Inv(run[i], v)
  {
    if i == 0 {
      InitInv(run[0], nthreads, v);
    } else {
      RunInv(run, nthreads, v, d, i - 1);
      assert Next(run[i - 1], run[i - 1 + 1], v, d) && W.StepOk(run[i - 1].q, run[i - 1 + 1].q);
      hide Inv, Next, Init, W.StepOk;
      NextInv(run[i - 1], run[i], v, d);
    }
  }

  /** Whatever sequence of flag flips, epoch frees and scan frees a run goes through, under that condition: a node that was
      handed back is in no slot that a thread relies on, and no node is handed back twice. */
  lemma NoFreedNodeHeld(run: seq<State>, nthreads: nat, v: int, d: int, k: nat, i: nat, n: Node)
    requires Run(run, nthreads, v, d) && Tidy(run) && Timely(v, d)
    requires k < |run| && i < |run[k].w.holds| && n in run[k].q.q.d.freed
    ensures run[k].w.holds[i] != Some(n)
    ensures Q.NoDuplicates(run[k].q.q.d.freed)
  {
    RunInv(run, nthreads, v, d, k);
    hide Run;
    var s := run[k];
    var t := i / K;
    assert HeldSame(s, t, n) && Q.HolderOk(W.Calm(s.q), t, n);
    assert Protects(s.w, t, i, n) <==> s.w.holds[i] == Some(n);
  }

  // ----- what a scan frees

  function ScanOf(c: Ctl): Option<SlotScan> {
    if c.act.SlotReading? || c.act.Judging? then Some(c.act.r) else None
  }

  /** What the run shows of thread t's scans */
  function TraceOf(run: seq<State>, t: nat): (tr: Trace)
    requires forall i :: 0 <= i < |run| ==> t < |run[i].ctl|
    ensures |tr| == |run| && forall i :: 0 <= i < |run| ==> tr[i] == Moment(run[i].w, ScanOf(run[i].ctl[t]))
  {
    seq(|run|, i requires 0 <= i < |run| => Moment(run[i].w, ScanOf(run[i].ctl[t])))
  }

  predicate SameCtl(s: State, s': State, t: nat) {
    |s'.ctl| == |s.ctl| && (t < |s.ctl| ==> s'.ctl[t] == s.ctl[t])
  }

  predicate CtlGoes(s: State, s': State, t: nat) {
    |s'.ctl| == |s.ctl| && (t < |s.ctl| ==> Goes(Moment(s.w, ScanOf(s.ctl[t])), Moment(s'.w, ScanOf(s'.ctl[t])), t))
  }

  lemma DecideGoes(s: State, s': State, u: nat, trials: int, t: nat)
    requires DecideStep(s, s', u, trials)
    ensures CtlGoes(s, s', t)
  {
  }

  lemma RetireGoes(s: State, s': State, u: nat, n: Node, t: nat)
    requires RetireNodeStep(s, s', u, n)
    ensures CtlGoes(s, s', t)
  {
  }

  lemma QuiesceGoes(s: State, s': State, u: nat, t: nat)
    requires QuiesceStep(s, s', u)
    ensures CtlGoes(s, s', t)
  {
    hide W.CallStep;
  }

  lemma ScanGoes(s: State, s': State, u: nat, d: int, t: nat)
    requires ExitScanStep(s, s', u) || QuiescedStep(s, s', u) || ReadSlotStep(s, s', u) || JudgeStep(s, s', u, d)
    ensures CtlGoes(s, s', t)
  {
    hide FreeOne, InRange, IsOldEnough;
  }

  lemma StepGoes(s: State, s': State, v: int, d: int, t: nat)
    requires Next(s, s', v, d)
    ensures CtlGoes(s, s', t)
  {
    hide DecideStep, RetireNodeStep, QuiesceStep, ExitScanStep, QuiescedStep, ReadSlotStep, JudgeStep, CtlGoes;
    if u, trials :| DecideStep(s, s', u, trials) {
      DecideGoes(s, s', u, trials, t);
    } else if u, n :| RetireNodeStep(s, s', u, n) {
      RetireGoes(s, s', u, n, t);
    } else if u :| QuiesceStep(s, s', u) {
      QuiesceGoes(s, s', u, t);
    } else if u :| ExitScanStep(s, s', u) || QuiescedStep(s, s', u) || ReadSlotStep(s, s', u) || JudgeStep(s, s', u, d) {
      ScanGoes(s, s', u, d, t);
    } else {
      UsingGoes(s, s', v, d, t);
    }
  }

  lemma UsingGoes(s: State, s': State, v: int, d: int, t: nat)
    requires
      || (exists n :: LinkStep(s, s', n))
      || (exists i, value :: SlotStep(s, s', v, i, value))
      || (exists i, n :: HoldNodeStep(s, s', i, n))
      || (exists i :: DropNodeStep(s, s', i))
      || (exists u, n :: UnlinkNodeStep(s, s', u, n))
      || (exists f :: FlagStep(s, s', f))
    ensures CtlGoes(s, s', t)
  {
    assert s'.ctl == s.ctl;
  }

  lemma {:induction false} CtlStays(run: seq<State>, nthreads: nat, v: int, d: int, i: nat)
    requires Run(run, nthreads, v, d) && i < |run|
    ensures |run[i].ctl| == |run[0].ctl|
  {
    if i > 0 {
      CtlStays(run, nthreads, v, d, i - 1);
      assert Next(run[i - 1], run[i - 1 + 1], v, d);
      hide Init, Next, Goes;
      StepGoes(run[i - 1], run[i], v, d, 0);
    }
  }

  lemma RunGoes(run: seq<State>, nthreads: nat, v: int, d: int, t: nat)
    requires Run(run, nthreads, v, d) && t < |run[0].ctl|
    ensures forall i :: 0 <= i < |run| ==> t < |run[i].ctl|
    ensures Follows(TraceOf(run, t), t)
  {
    forall i | 0 <= i < |run| ensures t < |run[i].ctl| {
      CtlStays(run, nthreads, v, d, i);
    }
    var tr := TraceOf(run, t);
    forall i | 0 < i < |tr| ensures Goes(tr[i - 1], tr[i], t) {
      assert Next(run[i - 1], run[i - 1 + 1], v, d);
      hide Run, Next, Goes;
      StepGoes(run[i - 1], run[i], v, d, t);
    }
  }

  function LimboOf(s: State, t: nat): seq<seq<Node>> {
    if t < |s.q.q.d.locals| then s.q.q.d.locals[t].limbo else []
  }

  /** The thread's scan has not moved, and its lists are as they were. */
  predicate Stays(s: State, s': State, t: nat) {
    SameCtl(s, s', t) && LimboOf(s', t) == LimboOf(s, t)
  }

  predicate JudgingNow(s: State, t: nat) {
    t < |s.ctl| && s.ctl[t].act.Judging?
  }

  lemma QuiesceStays(s: State, s': State, u: nat, t: nat)
    requires QuiesceStep(s, s', u) && JudgingNow(s, t)
    ensures Stays(s, s', t)
  {
    hide W.CallStep;
    CallStays(s.q, s'.q, u, t);
  }

  lemma CallStays(q: W.State, q': W.State, u: nat, t: nat)
    requires W.CallStep(q, q', u) && t != u
    ensures |q'.q.d.locals| == |q.q.d.locals|
    ensures t < |q.q.d.locals| ==> q'.q.d.locals[t].limbo == q.q.d.locals[t].limbo
  {
    if W.StartStep(q, q', u) || W.TryStep(q, q', u) || W.LookStep(q, q', u) {
      hide W.AdvanceStep, W.CloseStep, W.AdoptStep;
    } else {
      hide W.StartStep, W.TryStep, W.LookStep;
    }
  }

  lemma RetireStays(s: State, s': State, u: nat, n: Node, t: nat)
    requires RetireNodeStep(s, s', u, n) && JudgingNow(s, t)
    ensures Stays(s, s', t)
  {
  }

  lemma DecideStays(s: State, s': State, u: nat, trials: int, t: nat)
    requires DecideStep(s, s', u, trials) && JudgingNow(s, t)
    ensures Stays(s, s', t)
  {
  }

  lemma ScanStays(s: State, s': State, u: nat, d: int, t: nat)
    requires ExitScanStep(s, s', u) || QuiescedStep(s, s', u) || ReadSlotStep(s, s', u) || JudgeStep(s, s', u, d)
    requires JudgingNow(s, t)
    ensures Stays(s, s', t) || JudgeStep(s, s', t, d)
  {
    hide InRange, IsOldEnough;
  }

  lemma UsingStays(s: State, s': State, v: int, d: int, t: nat)
    requires JudgingNow(s, t)
    requires
      || (exists n :: LinkStep(s, s', n))
      || (exists i, value :: SlotStep(s, s', v, i, value))
      || (exists i, n :: HoldNodeStep(s, s', i, n))
      || (exists i :: DropNodeStep(s, s', i))
      || (exists u, n :: UnlinkNodeStep(s, s', u, n))
      || (exists f :: FlagStep(s, s', f))
    ensures Stays(s, s', t)
  {
    assert s'.ctl == s.ctl;
  }

  /** While a thread judges, nobody else touches its lists. */
  lemma OnlyJudges(s: State, s': State, v: int, d: int, t: nat)
    requires Next(s, s', v, d) && JudgingNow(s, t)
    ensures Stays(s, s', t) || JudgeStep(s, s', t, d)
  {
    hide DecideStep, RetireNodeStep, QuiesceStep, ExitScanStep, QuiescedStep, ReadSlotStep, JudgeStep, Stays, JudgingNow;
    if u, trials :| DecideStep(s, s', u, trials) {
      DecideStays(s, s', u, trials, t);
    } else if u, n :| RetireNodeStep(s, s', u, n) {
      RetireStays(s, s', u, n, t);
    } else if u :| QuiesceStep(s, s', u) {
      QuiesceStays(s, s', u, t);
    } else if u :| ExitScanStep(s, s', u) || QuiescedStep(s, s', u) || ReadSlotStep(s, s', u) || JudgeStep(s, s', u, d) {
      ScanStays(s, s', u, d, t);
    } else {
      UsingStays(s, s', v, d, t);
    }
  }

  /** What becomes of node x, at position k of list l, which it is the turn of */
  ghost predicate Judged(s: State, s': State, t: nat, l: nat, k: nat, free: bool)
    requires JudgingNow(s, t) && t < |s.q.q.d.locals| && l < |s.q.q.d.locals[t].limbo| && k < |s.q.q.d.locals[t].limbo[l]|
  {
    var a, lists := s.ctl[t].act, s.q.q.d.locals[t].limbo;
    if free then
      && s'.q.q.d.freed == s.q.q.d.freed + [lists[l][k]] && SameCtl(s, s', t)
      && LimboOf(s', t) == lists[l := lists[l][..k] + lists[l][k + 1..]]
    else
      && s'.q.q.d.freed == s.q.q.d.freed && JudgingNow(s', t) && s'.ctl[t].act == Judging(a.r, l, a.kept + 1, a.last)
      && LimboOf(s', t) == lists
  }

  /** Whether there is a node that it is the turn of */
  predicate HasTurn(s: State, t: nat) {
    && JudgingNow(s, t) && s.ctl[t].act.l < N_EPOCHS && t < |s.q.q.d.locals| && s.ctl[t].act.l < |s.q.q.d.locals[t].limbo|
    && s.ctl[t].act.kept < |s.q.q.d.locals[t].limbo[s.ctl[t].act.l]|
  }

  /** That node is freed exactly if it is old enough and the scan has not seen it. */
  ghost predicate Verdict(s: State, s': State, t: nat, tr: Trace, e: nat)
    requires HasTurn(s, t)
  {
    var a := s.ctl[t].act;
    var list := s.q.q.d.locals[t].limbo[a.l];
    var k := |list| - 1 - a.kept;
    && list[k] in s.created && InRange(s.created[list[k]], s.w.now)
    && Judged(s, s', t, a.l, k, IsOldEnough(s.created[list[k]], s.w.now) && !Saw(tr, t, e, list[k]))
  }

  lemma JudgeVerdict(s: State, s': State, d: int, t: nat, tr: Trace, e: nat)
    requires JudgeStep(s, s', t, d) && HasTurn(s, t)
    requires forall n :: n in s.ctl[t].act.r.plist <==> Saw(tr, t, e, n)
    ensures Verdict(s, s', t, tr, e)
  {
    hide InRange, IsOldEnough, Saw;
  }

  /** In every run: a scan of the limbo lists takes the nodes of each list oldest first, and frees a node exactly if the
      node is old enough at that moment and none of the scan's own reads of the slots has shown it. */
  lemma FreedIffOldAndUnseen(run: seq<State>, nthreads: nat, v: int, d: int, e: nat, t: nat)
    requires Run(run, nthreads, v, d) && e + 1 < |run| && t < |run[0].ctl|
    requires HasTurn(run[e], t) && !Stays(run[e], run[e + 1], t)
    ensures forall i :: 0 <= i < |run| ==> t < |run[i].ctl|
    ensures Verdict(run[e], run[e + 1], t, TraceOf(run, t), e)
  {
    assert Next(run[e], run[e + 1], v, d) && JudgingNow(run[e], t);
    RunGoes(run, nthreads, v, d, t);
    hide Run, Next, Stays, HasTurn, Verdict, Follows, Saw;
    OnlyJudges(run[e], run[e + 1], v, d, t);
    var tr := TraceOf(run, t);
    forall n ensures n in run[e].ctl[t].act.r.plist <==> Saw(tr, t, e, n) {
      PlistIff(tr, t, e, n);
    }
    hide JudgeStep;
    JudgeVerdict(run[e], run[e + 1], d, t, tr, e);
  }
}
