/** How a thread of the hybrid scheme (src/qsbr_smr_hybrid.c) gets out of fallback mode: over every run, what it has
    done since it decided to.
 */
module HybridModes {
  import opened Addresses
  import opened Options
  import opened StoreBuffers
  import opened HybridSafety

  /** Thread t is in the middle of one or more calls of quiescent_state. */
  predicate Quiescent(s: State, t: nat) {
    t < |s.ctl| && s.ctl[t].act.Quiescing?
  }

  /** The end of one call of quiescent_state of t. */
  ghost predicate CallEnds(s: State, s': State, t: nat) {
    && Quiescent(s, t) && Quiescent(s', t) && QuiesceStep(s, s', t)
    && s'.ctl[t].act.left == s.ctl[t].act.left - 1
  }

  /** A scan that starts in fallback mode ends in fallback mode. */
  predicate ScanKeepsFlag(s: State, t: nat)
    requires t < |s.ctl|
  {
    var c := s.ctl[t];
    (c.act.SlotReading? || c.act.Judging?) && c.lastFlag ==> c.act.last
  }

  /** What thread t's part of the state does in one step. */
  ghost predicate CtlStep(s: State, s': State, t: nat) {
    && t < |s.ctl| == |s'.ctl|
    && var c, c' := s.ctl[t], s'.ctl[t];
       || c' == c
       || (CallEnds(s, s', t) && c.act.Quiescing? && c'.act.Quiescing? && c'.lastFlag == c.lastFlag && c'.act.last == c.act.last)
       || (c.act.Quiescing? && c.act.left == 0 && c' == Ctl(c.act.last, Free))
       || (c.act == Free && !s.flag && c' == c.(act := Quiescing(if c.lastFlag then 100 else 1, false)))
       || (c.act == Free && s.flag && !s'.flag && c' == Ctl(false, Quiescing(10, true)))
       || (c.act == Free && c' == Ctl(true, Free))
       || (c.act == Free && c'.act.SlotReading? && (c.lastFlag ==> c'.lastFlag) && (c'.lastFlag ==> c'.act.last))
       || ((c.act.SlotReading? || c.act.Judging?) && c'.lastFlag == c.lastFlag && c'.act.Judging? && c'.act.last == c.act.last)
       || (c.act.SlotReading? && c'.lastFlag == c.lastFlag && c'.act.SlotReading? && c'.act.last == c.act.last)
       || (c.act.Judging? && c' == Ctl(c.act.last, Free))
  }

  lemma DecideCtl(s: State, s': State, u: nat, trials: int, t: nat)
    requires DecideStep(s, s', u, trials) && t < |s.ctl|
    ensures CtlStep(s, s', t)
  {
  }

  lemma ScanCtl(s: State, s': State, u: nat, d: int, t: nat)
    requires ReadSlotStep(s, s', u) || JudgeStep(s, s', u, d) || ExitScanStep(s, s', u)
    requires t < |s.ctl|
    ensures CtlStep(s, s', t)
  {
  }

  lemma QuiesceCtl(s: State, s': State, u: nat, t: nat)
    requires (QuiesceStep(s, s', u) || QuiescedStep(s, s', u)) && t < |s.ctl|
    ensures CtlStep(s, s', t)
  {
  }

  lemma UseCtl(s: State, s': State, v: int, u: nat, n: Node, i: nat, value: Option<Node>, f: bool, t: nat)
    requires || LinkStep(s, s', n) || SlotStep(s, s', v, i, value) || HoldNodeStep(s, s', i, n) || DropNodeStep(s, s', i)
             || UnlinkNodeStep(s, s', u, n) || RetireNodeStep(s, s', u, n) || FlagStep(s, s', f)
    requires t < |s.ctl|
    ensures CtlStep(s, s', t)
  {
  }

  lemma NextCtl(s: State, s': State, v: int, d: int, t: nat)
    requires Next(s, s', v, d) && t < |s.ctl|
    ensures CtlStep(s, s', t)
  {
    hide LinkStep, SlotStep, HoldNodeStep, DropNodeStep, UnlinkNodeStep, RetireNodeStep, DecideStep, ExitScanStep,
         QuiesceStep, QuiescedStep, ReadSlotStep, JudgeStep, FlagStep, CtlStep;
    if u: nat, trials :| DecideStep(s, s', u, trials) {
      DecideCtl(s, s', u, trials, t);
    } else if u: nat :| ReadSlotStep(s, s', u) || JudgeStep(s, s', u, d) || ExitScanStep(s, s', u) {
      ScanCtl(s, s', u, d, t);
    } else if u: nat :| QuiesceStep(s, s', u) || QuiescedStep(s, s', u) {
      QuiesceCtl(s, s', u, t);
    } else if n :| LinkStep(s, s', n) {
      UseCtl(s, s', v, 0, n, 0, None, false, t);
    } else if i: nat, value :| SlotStep(s, s', v, i, value) {
      UseCtl(s, s', v, 0, 0, i, value, false, t);
    } else if i: nat, n :| HoldNodeStep(s, s', i, n) {
      UseCtl(s, s', v, 0, n, i, None, false, t);
    } else if i: nat :| DropNodeStep(s, s', i) {
      UseCtl(s, s', v, 0, 0, i, None, false, t);
    } else if u: nat, n :| UnlinkNodeStep(s, s', u, n) || RetireNodeStep(s, s', u, n) {
      UseCtl(s, s', v, u, n, 0, None, false, t);
    } else {
      var f :| FlagStep(s, s', f);
      UseCtl(s, s', v, 0, 0, 0, None, f, t);
    }
  }

  /** After a failed allocation the thread scans exactly if the fallback mode is on then, and otherwise it quiesces: a
      hundred times if the mode has ended since it last looked, else once. Only a thread that has last seen the mode off
      turns it on, after SWITCH_THRESHOLD trials, and nobody turns it off here. */
  lemma FailureSwitches(s: State, t: nat, trials: int)
    requires t < |s.ctl| && Idle(s, t)
    ensures var s' := AllocateFail(s, t, trials);
            var c, c' := s.ctl[t], s'.ctl[t];
            && s' == s.(flag := s'.flag, ctl := s.ctl[t := c'])
            && (s'.flag <==> s.flag || (!c.lastFlag && trials >= SWITCH_THRESHOLD))
            && (if s'.flag then c'.act == SlotReading(SlotScan(s.w.now, 0, []), true)
                else c'.act == Quiescing(if c.lastFlag then 100 else 1, false))
            && c'.lastFlag == (c.lastFlag || (s'.flag && !s.flag))
  {
  }

  /** At the end of a call a thread reports its presence. The mode goes off exactly if it is on and every other thread
      has reported, and the thread that turns it off quiesces ten times; while it stays on the thread goes on at once,
      and while it is off it quiesces, a hundred times if the mode has ended since it last looked. */
  lemma PresenceSwitches(s: State, t: nat)
    requires t < |s.ctl| && t < |s.present| && Idle(s, t)
    ensures var s' := ManageHybridState(s, t);
            var c, c' := s.ctl[t], s'.ctl[t];
            && s' == s.(flag := s'.flag, present := s.present[t := true], ctl := s.ctl[t := c'])
            && (s'.flag <==> s.flag && exists i :: 0 <= i < |s.present| && i != t && !s.present[i])
            && (if s'.flag then c' == Ctl(true, Free)
                else if s.flag then c' == Ctl(false, Quiescing(10, true))
                else c' == Ctl(c.lastFlag, Quiescing(if c.lastFlag then 100 else 1, false)))
  {
    var q := s.present[t := true];
    assert forall i :: 0 <= i < |s.present| && i != t ==> q[i] == s.present[i];
  }

  // ----- over whole runs

  lemma {:induction false} RunCtl(run: seq<State>, nthreads: nat, v: int, d: int, i: nat, t: nat)
    requires Run(run, nthreads, v, d) && i < |run| && t < nthreads
    ensures |run[i].ctl| == nthreads && ScanKeepsFlag(run[i], t) && (i == 0 ==> !Quiescent(run[i], t))
    ensures i > 0 ==> CtlStep(run[i - 1], run[i], t)
  {
    if i > 0 {
      RunCtl(run, nthreads, v, d, i - 1, t);
      assert Next(run[i - 1], run[i - 1 + 1], v, d);
      hide Run, Next;
      NextCtl(run[i - 1], run[i], v, d, t);
    }
  }

  /** In the states from b to e thread t does nothing but quiesce: it neither retires a node, nor scans, nor decides. */
  predicate InRow(run: seq<State>, b: nat, e: nat, t: nat) {
    b <= e < |run| && forall k :: b <= k <= e ==> Quiescent(run[k], t)
  }

  /** How many calls of quiescent_state t has ended between states b and e. */
  ghost function CallsEnded(run: seq<State>, b: nat, e: nat, t: nat): nat
    requires b <= e < |run|
    decreases e
  {
    if b == e then 0 else CallsEnded(run, b, e - 1, t) + if CallEnds(run[e - 1], run[e], t) then 1 else 0
  }

  lemma RowStep(s: State, s': State, t: nat)
    requires Quiescent(s, t) && Quiescent(s', t) && CtlStep(s, s', t)
    ensures s'.ctl[t].lastFlag == s.ctl[t].lastFlag && s'.ctl[t].act.last == s.ctl[t].act.last
    ensures s'.ctl[t].act.left + (if CallEnds(s, s', t) then 1 else 0) == s.ctl[t].act.left
  {
  }

  /** In a row of quiescent states, the flags stay and every call that ends is counted. */
  lemma {:induction false} RowCounts(run: seq<State>, nthreads: nat, v: int, d: int, b: nat, e: nat, t: nat)
    requires Run(run, nthreads, v, d) && t < nthreads && InRow(run, b, e, t)
    ensures var c, c' := run[b].ctl[t], run[e].ctl[t];
            && c'.lastFlag == c.lastFlag && c'.act.last == c.act.last
            && c'.act.left + CallsEnded(run, b, e, t) == c.act.left
    decreases e
  {
    hide Run, CallEnds, CtlStep;
    assert Quiescent(run[e], t);
    if b < e {
      RowCounts(run, nthreads, v, d, b, e - 1, t);
      RunCtl(run, nthreads, v, d, e, t);
      assert Quiescent(run[e - 1], t);
      RowStep(run[e - 1], run[e], t);
    }
  }

  /** A row of quiescent states has a beginning. */
  lemma {:induction false} RowBegins(run: seq<State>, nthreads: nat, v: int, d: int, e: nat, t: nat) returns (b: nat)
    requires Run(run, nthreads, v, d) && e < |run| && t < nthreads && Quiescent(run[e], t)
    ensures 0 < b && InRow(run, b, e, t) && !Quiescent(run[b - 1], t)
    decreases e
  {
    hide Run, CtlStep;
    RunCtl(run, nthreads, v, d, e, t);
    b := e;
    if e == 0 {
      assert false;
    } else if Quiescent(run[e - 1], t) {
      b := RowBegins(run, nthreads, v, d, e - 1, t);
    }
  }

  /** Thread t ends the fallback mode for all: it finds the flag set, clears it and begins ten quiescent states. */
  predicate EndsMode(s: State, s': State, t: nat) {
    && t < |s.ctl| && t < |s'.ctl| && s.ctl[t].act.Free? && s.flag && !s'.flag
    && s'.ctl[t] == Ctl(false, Quiescing(10, true))
  }

  /** Before state e thread t, in fallback mode and with the flag cleared by another, began at state b to quiesce,
      and did nothing else until 100 calls of quiescent_state had ended. */
  ghost predicate QuiescedHundred(run: seq<State>, b: nat, e: nat, t: nat) {
    && 0 < b && InRow(run, b, e, t) && t < |run[b - 1].ctl|
    && run[b - 1].ctl[t] == Ctl(true, Free) && !run[b - 1].flag
    && CallsEnded(run, b, e, t) == 100
  }

  /** A thread's last_flag goes from 1 to 0 in two ways only: at the end of 100 quiescent states in a row, or by ending
      the fallback mode itself. */
  lemma LeavesFallback(run: seq<State>, nthreads: nat, v: int, d: int, e: nat, t: nat)
    requires Run(run, nthreads, v, d) && e + 1 < |run| && t < nthreads
    ensures |run[e].ctl| == |run[e + 1].ctl| == nthreads
    ensures run[e].ctl[t].lastFlag && !run[e + 1].ctl[t].lastFlag ==>
              EndsMode(run[e], run[e + 1], t) || exists b :: QuiescedHundred(run, b, e, t)
  {
    RunCtl(run, nthreads, v, d, e + 1, t);
    RunCtl(run, nthreads, v, d, e, t);
    hide Run;
    if run[e].ctl[t].lastFlag && !run[e + 1].ctl[t].lastFlag && !EndsMode(run[e], run[e + 1], t) {
      assert Quiescent(run[e], t) && run[e].ctl[t].act.left == 0;
      var b := RowBegins(run, nthreads, v, d, e, t);
      RowCounts(run, nthreads, v, d, b, e, t);
      RunCtl(run, nthreads, v, d, b, t);
      assert QuiescedHundred(run, b, e, t);
    }
  }

  /** And a thread that ended the fallback mode does nothing else until ten quiescent states have ended; then its
      last_flag is 1 again. */
  lemma FallbackAgain(run: seq<State>, nthreads: nat, v: int, d: int, b: nat, e: nat, t: nat)
    requires Run(run, nthreads, v, d) && t < nthreads && 0 < b <= e && e + 1 < |run| && EndsMode(run[b - 1], run[b], t)
    requires InRow(run, b, e, t) && !Quiescent(run[e + 1], t)
    ensures CallsEnded(run, b, e, t) == 10 && t < |run[e + 1].ctl| && run[e + 1].ctl[t] == Ctl(true, Free)
  {
    hide Run, CallsEnded;
    RowCounts(run, nthreads, v, d, b, e, t);
    RunCtl(run, nthreads, v, d, e + 1, t);
    hide CallEnds;
    assert Quiescent(run[e], t) && Quiescent(run[b], t);
  }
}
