/** Two threads of src/qsbr.c, and a node that is freed while one of them holds it: thread 0 is passed over in the window of
    src/qsbr.c:209-228 while the epoch advances twice, fails to get the update lock, and goes on with the label of
    an epoch long past.
 */
module QsbrStale {
  import opened Addresses
  import opened Qsbr
  import Q = QsbrSafety
  import opened QsbrWindow

  ghost predicate Path(p: seq<State>) {
    forall i :: 0 <= i < |p| - 1 ==> Next(p[i], p[i + 1])
  }

  lemma Join(p: seq<State>, q: seq<State>)
    requires p != [] && q != [] && Path(p) && Path(q) && p[|p| - 1] == q[0]
    ensures Path(p + q[1..])
  {
    var r := p + q[1..];
    hide Next;
    forall i | 0 <= i < |r| - 1 ensures Next(r[i], r[i + 1]) {
      if i < |p| - 1 {
        assert r[i] == p[i] && r[i + 1] == p[i + 1];
      } else {
        var j := i - (|p| - 1);
        assert r[i] == q[j] && r[i + 1] == q[j + 1];
      }
    }
  }

  /** All that one thread contributes to a state. */
  datatype Part = Part(l: Local, x: Q.Shadow, c: Call)

  function Two(now: nat, lock: bool, nodes: map<Node, Q.Place>, freed: seq<Node>, a: Part, b: Part): State {
    State(Q.State(Domain(now % N_EPOCHS, [a.l, b.l], freed), lock, now, [a.x, b.x], nodes), [a.c, b.c])
  }

  /** A thread with true epoch e. */
  function At(e: nat, flag: bool, act: Q.Activity, c: Call): Part {
    Part(Local([[], [], []], e % N_EPOCHS, flag, 0), Q.Shadow(e, {}, act), c)
  }

  function Resting(e: nat): Part {
    At(e, true, Q.Running, NoCall)
  }

  /** Thread 0 is in its window with epoch 1, and thread 1 advances the true epoch from now to now + 1. */
  function Pass(now: nat): seq<State> {
    var a, l := At(1, false, Q.Running, Opened(true)), now % N_EPOCHS;
    [Two(now, false, map[], [], a, Resting(now)),
     Two(now, false, map[], [], a, At(now, false, Q.Running, Opened(true))),
     Two(now, true, map[], [], a, At(now, false, Q.Scanning(0, l), Opened(true))),
     Two(now, true, map[], [], a, At(now, false, Q.Scanning(1, l), Opened(true))),
     Two(now, true, map[], [], a, At(now, false, Q.Scanning(2, l), Opened(true))),
     Two(now + 1, false, map[], [], a, At(now, false, Q.Running, Won(true))),
     Two(now + 1, false, map[], [], a, At(now, true, Q.Running, Adopting)),
     Two(now + 1, false, map[], [], a, Resting(now + 1))]
  }

  /** With nothing waiting, taking over changes the epoch only. */
  lemma TakesEpoch(s: State, t: nat)
    requires Shaped(s) && t < |s.calls| && s.q.d.locals[t].epoch != s.q.d.global && s.q.d.locals[t].limbo[s.q.d.global] == []
    ensures Q.TakeOver(s.q, t) ==
              s.q.(d := s.q.d.(locals := s.q.d.locals[t := s.q.d.locals[t].(epoch := s.q.d.global)]),
                   shadows := s.q.shadows[t := s.q.shadows[t].(e := s.q.now)])
  {
    var l, x := s.q.d.global, s.q.d.locals[t];
    assert x.limbo[l := []] == x.limbo && s.q.d.freed + x.limbo[l] == s.q.d.freed;
    assert Q.FreeAll(s.q.nodes, [], s.q.now) == s.q.nodes;
  }

  lemma PassAdopts(now: nat)
    ensures AdoptStep(Pass(now)[6], Pass(now)[7], 1)
  {
    var s, s' := Pass(now)[6], Pass(now)[7];
    TakesEpoch(s, 1);
    var q := Q.TakeOver(s.q, 1);
    hide Q.TakeOver;
    assert Return(q, 1, true).d.locals == s'.q.d.locals;
    assert Return(q, 1, true).shadows == s'.q.shadows;
  }

  lemma PassLooks(now: nat)
    ensures var p := Pass(now);
            && StartStep(p[0], p[1], 1) && TryStep(p[1], p[2], 1)
            && LookStep(p[2], p[3], 1) && LookStep(p[3], p[4], 1)
  {
  }

  lemma PassAdvances(now: nat)
    ensures var p := Pass(now); AdvanceStep(p[4], p[5], 1) && CloseStep(p[5], p[6], 1)
  {
  }

  lemma PassPath(now: nat)
    ensures Path(Pass(now))
  {
    PassLooks(now);
    PassAdvances(now);
    PassAdopts(now);
    hide StartStep, TryStep, LookStep, AdvanceStep, CloseStep, AdoptStep;
    var p := Pass(now);
    assert forall i :: 0 <= i < 7 ==> CallStep(p[i], p[i + 1], 1);
  }

  /** Both threads reach epoch 1, and thread 0 begins a call. */
  function Opening(): seq<State> {
    [Two(1, false, map[], [], Resting(0), Resting(0)),
     Two(1, false, map[], [], Resting(1), Resting(0)),
     Two(1, false, map[], [], Resting(1), Resting(1)),
     Pass(1)[0]]
  }

  lemma OpeningStarts()
    ensures var p := Opening(); Init(p[0], 2) && StartStep(p[0], p[1], 0) && StartStep(p[1], p[2], 1)
  {
    var p := Opening();
    TakesEpoch(p[0], 0);
    TakesEpoch(p[1], 1);
    hide Q.TakeOver;
    assert p[0].q.d.locals == seq(2, _ => Local([[], [], []], 0, true, 0));
  }

  lemma OpeningPath()
    ensures Path(Opening()) && Init(Opening()[0], 2)
  {
    var p := Opening();
    OpeningStarts();
    assert StartStep(p[2], p[3], 0);
    hide Init, StartStep, TryStep, LookStep, AdvanceStep, CloseStep, AdoptStep;
    assert CallStep(p[0], p[1], 0) && CallStep(p[1], p[2], 1) && CallStep(p[2], p[3], 0);
  }

  /** Thread 0 does not get the lock, and is back with epoch 1 when the true one is 3. */
  function Stale(): seq<State> {
    var a, b := At(1, false, Q.Running, Opened(true)), At(3, false, Q.Scanning(0, 0), Opened(true));
    [Pass(2)[7],
     Two(3, false, map[], [], a, At(3, false, Q.Running, Opened(true))),
     Two(3, true, map[], [], a, b),
     Two(3, true, map[], [], At(1, false, Q.Running, Failed(true)), b),
     Two(3, true, map[], [], Resting(1), b),
     Two(3, false, map[], [], Resting(1), At(3, false, Q.Running, Failed(true))),
     Two(3, false, map[], [], Resting(1), Resting(3))]
  }

  lemma StaleFails()
    ensures var p := Stale(); StartStep(p[0], p[1], 1) && TryStep(p[1], p[2], 1) && TryStep(p[2], p[3], 0)
  {
  }

  lemma StaleCloses()
    ensures var p := Stale(); CloseStep(p[3], p[4], 0) && LookStep(p[4], p[5], 1) && CloseStep(p[5], p[6], 1)
    ensures !CloseOk(Stale()[3], 0)
  {
  }

  lemma StalePath()
    ensures Path(Stale())
  {
    StaleFails();
    StaleCloses();
    hide StartStep, TryStep, LookStep, AdvanceStep, CloseStep, AdoptStep;
    var p := Stale();
    assert forall i :: 0 <= i < 6 ==> CallStep(p[i], p[i + 1], if i == 2 || i == 3 then 0 else 1);
  }

  /** Thread 0 while node 7 waits in its list for label 1. */
  function Owner(e: nat, flag: bool, act: Q.Activity, c: Call): Part {
    Part(Local([[], [7], []], e % N_EPOCHS, flag, 1), Q.Shadow(e, {}, act), c)
  }

  /** Thread 1 holds node 7. */
  function Holder(): Part {
    Part(Resting(3).l, Q.Shadow(3, {7}, Q.Running), NoCall)
  }

  /** Thread 1 takes a node, thread 0 unlinks and retires it, and takes over epoch 3. */
  function Use(): seq<State> {
    [Stale()[6],
     Two(3, false, map[7 := Q.Linked], [], Resting(1), Resting(3)),
     Two(3, false, map[7 := Q.Linked], [], Resting(1), Holder()),
     Two(3, false, map[7 := Q.Pending(0, 3)], [], Resting(1), Holder()),
     Two(3, false, map[7 := Q.Limbo(0, 3, 1)], [], Owner(1, true, Q.Running, NoCall), Holder()),
     Two(3, false, map[7 := Q.Limbo(0, 3, 1)], [], Owner(3, true, Q.Running, NoCall), Holder())]
  }

  lemma UseTakes()
    ensures var p := Use();
            && Q.LinkStep(p[0].q, p[1].q, 7) && Q.AcquireStep(p[1].q, p[2].q, 1, 7) && Free(p[1], 1)
            && Q.UnlinkStep(p[2].q, p[3].q, 0, 7) && Free(p[2], 0)
  {
    var p := Use();
    assert p[1].q.shadows[1].held + {7} == {7};
    assert p[1].q.shadows[1 := Holder().x] == p[2].q.shadows;
    assert p[2].q.nodes[7 := Q.Pending(0, 3)] == p[3].q.nodes;
  }

  lemma UseRetires()
    ensures var p := Use(); Q.RetireStep(p[3].q, p[4].q, 0, 7) && Free(p[3], 0) && StartStep(p[4], p[5], 0)
  {
    var p := Use();
    var d := FreeNodeLater(p[3].q.d, 0, 7);
    assert p[3].q.d.locals[0].limbo[1] == [] && [7] + [] == [7];
    assert d.locals[0].limbo == [[], [7], []];
    assert d.locals == p[4].q.d.locals;
    assert p[3].q.nodes[7 := Q.Limbo(0, 3, 1)] == p[4].q.nodes;
    TakesEpoch(p[4], 0);
    hide Q.TakeOver;
  }

  lemma UsePath()
    ensures Path(Use())
  {
    var p := Use();
    UseTakes();
    UseRetires();
    hide Q.LinkStep, Q.AcquireStep, Q.UnlinkStep, Q.RetireStep, StartStep, Free;
    assert UseStep(p[0], p[1]) && UseStep(p[1], p[2]) && UseStep(p[2], p[3]) && UseStep(p[3], p[4]);
    hide UseStep, TryStep, LookStep, AdvanceStep, CloseStep, AdoptStep;
    assert CallStep(p[4], p[5], 0);
  }

  /** Thread 0 advances the epoch to 4, whose label is 1, and frees the list. */
  function Frees(): seq<State> {
    var nodes: map<Node, Q.Place> := map[7 := Q.Limbo(0, 3, 1)];
    [Use()[5],
     Two(3, false, nodes, [], Owner(3, false, Q.Running, Opened(true)), Holder()),
     Two(3, true, nodes, [], Owner(3, false, Q.Scanning(0, 0), Opened(true)), Holder()),
     Two(3, true, nodes, [], Owner(3, false, Q.Scanning(1, 0), Opened(true)), Holder()),
     Two(3, true, nodes, [], Owner(3, false, Q.Scanning(2, 0), Opened(true)), Holder()),
     Two(4, false, nodes, [], Owner(3, false, Q.Running, Won(true)), Holder()),
     Two(4, false, nodes, [], Owner(3, true, Q.Running, Adopting), Holder()),
     Two(4, false, map[7 := Q.Freed(3, 1, 4)], [7], Resting(4), Holder())]
  }

  /** Taking over the epoch hands the node back. */
  lemma LastTakesOver()
    ensures var q := Q.TakeOver(Frees()[6].q, 0);
            && |q.d.locals| == 2 && q.d.locals == Frees()[7].q.d.locals && q.shadows == Frees()[7].q.shadows
            && q.d.freed == [7] && q.nodes == map[7 := Q.Freed(3, 1, 4)]
            && q.d.global == Frees()[7].q.d.global && q.now == Frees()[7].q.now && q.lock == Frees()[7].q.lock && Q.Shaped(q)
  {
    var s := Frees()[6];
    var q := Q.TakeOver(s.q, 0);
    assert s.q.d.locals[0].limbo[1 := []] == [[], [], []] && s.q.d.freed + [7] == [7];
    assert q.d.freed == [7] && q.nodes == map[7 := Q.Freed(3, 1, 4)];
    assert q.d.locals == Frees()[7].q.d.locals && q.shadows == Frees()[7].q.shadows;
  }

  lemma LastAdopts()
    ensures AdoptStep(Frees()[6], Frees()[7], 0)
  {
    var s, s' := Frees()[6], Frees()[7];
    var q := Q.TakeOver(s.q, 0);
    LastTakesOver();
    hide Q.TakeOver;
    assert Return(q, 0, true).d.locals == s'.q.d.locals;
    assert Return(q, 0, true).shadows == s'.q.shadows;
  }

  lemma FreesLooks()
    ensures var p := Frees();
            && StartStep(p[0], p[1], 0) && TryStep(p[1], p[2], 0)
            && LookStep(p[2], p[3], 0) && LookStep(p[3], p[4], 0)
  {
  }

  lemma FreesAdvances()
    ensures var p := Frees(); AdvanceStep(p[4], p[5], 0) && CloseStep(p[5], p[6], 0)
  {
  }

  lemma FreesPath()
    ensures Path(Frees())
  {
    FreesLooks();
    FreesAdvances();
    LastAdopts();
    hide StartStep, TryStep, LookStep, AdvanceStep, CloseStep, AdoptStep;
    var p := Frees();
    assert forall i :: 0 <= i < 7 ==> CallStep(p[i], p[i + 1], 0);
  }

  /** Without the condition the scheme is not safe: in this run of two threads a failed call ends two epochs late, and
      later a node is freed that thread 1, in its critical section, still holds. */
  lemma StaleEpochFrees() returns (run: seq<State>)
    ensures Run(run, 2) && run[|run| - 1] == Frees()[7]
    ensures var q := Frees()[7].q;
            7 in q.d.freed && 7 in q.shadows[1].held && q.d.locals[1].inCritical && Frees()[7].calls[1] == NoCall
  {
    OpeningPath();
    PassPath(1);
    PassPath(2);
    StalePath();
    UsePath();
    FreesPath();
    hide Path, Init;
    Join(Opening(), Pass(1));
    run := Opening() + Pass(1)[1..];
    Join(run, Pass(2));
    run := run + Pass(2)[1..];
    Join(run, Stale());
    run := run + Stale()[1..];
    Join(run, Use());
    run := run + Use()[1..];
    Join(run, Frees());
    run := run + Frees()[1..];
    assert run[0] == Opening()[0];
  }
}
