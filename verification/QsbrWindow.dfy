/** quiescent_state step by step (src/qsbr.c:193-232). While a thread tries to advance the epoch its in_critical is 0, and
    update_epoch calls of other threads pass it over. If its own attempt then fails it goes on with the epoch label it
    had. Here is the exact condition under which that keeps the invariant; QsbrStale has a run in which it does harm.

    The steps between quiescent states are those of QsbrSafety.
 */
module QsbrWindow {
  import opened Addresses
  import opened Qsbr
  import Q = QsbrSafety

  /** Where a thread is in quiescent_state; orig is what in_critical was. Opened: in_critical is 0, the update lock is being
      tried for or held. Failed, Won: update_epoch has returned. Adopting: in_critical is back, the new epoch is not yet
      taken over. */
  datatype Call = NoCall | Opened(orig: bool) | Failed(orig: bool) | Won(orig: bool) | Adopting

  datatype State = State(q: Q.State, calls: seq<Call>)

  predicate Init(s: State, nthreads: nat) {
    Q.Init(s.q, nthreads) && s.calls == seq(nthreads, _ => NoCall)
  }

  predicate Shaped(s: State) {
    Q.Shaped(s.q) && |s.calls| == |s.q.shadows|
  }

  predicate Free(s: State, t: nat) {
    Shaped(s) && t < |s.calls| && s.calls[t].NoCall?
  }

  function SetFlag(q: Q.State, t: nat, f: bool): Q.State
    requires t < |q.d.locals|
  {
    q.(d := q.d.(locals := q.d.locals[t := q.d.locals[t].(inCritical := f)]))
  }

  /** The latest true epoch with the label that t has. */
  function Settled(q: Q.State, t: nat): nat
    requires t < |q.d.locals|
  {
    var e := q.now - (q.now - q.d.locals[t].epoch) % N_EPOCHS;
    if e < 0 then 0 else e
  }

  /** t's call is over; its label now stands for its latest true epoch. */
  function Return(q: Q.State, t: nat, f: bool): Q.State
    requires Q.Shaped(q) && t < |q.shadows|
  {
    SetFlag(q, t, f).(shadows := q.shadows[t := q.shadows[t].(e := Settled(q, t))])
  }

  // ----- steps

  ghost predicate UseStep(s: State, s': State) {
    && s' == s.(q := s'.q)
    && (|| (exists n :: Q.LinkStep(s.q, s'.q, n))
        || (exists t :: Free(s, t) && Q.ExitStep(s.q, s'.q, t))
        || (exists t, n :: Free(s, t) && (Q.AcquireStep(s.q, s'.q, t, n) || Q.ReleaseStep(s.q, s'.q, t, n)
              || Q.UnlinkStep(s.q, s'.q, t, n) || Q.RetireStep(s.q, s'.q, t, n))))
  }

  /** A new epoch is taken over at once; otherwise in_critical is set to 0. */
  predicate StartStep(s: State, s': State, t: nat) {
    && Free(s, t) && Q.Quiet(s.q, t) && s.q.shadows[t].act.Running?
    && s' == if s.q.d.locals[t].epoch != s.q.d.global then s.(q := Q.TakeOver(s.q, t))
             else State(SetFlag(s.q, t, false), s.calls[t := Opened(s.q.d.locals[t].inCritical)])
  }

  /** TRYLOCK */
  predicate TryStep(s: State, s': State, t: nat) {
    && Shaped(s) && t < |s.calls| && s.calls[t].Opened? && s.q.shadows[t].act.Running?
    && s' == if s.q.lock then s.(calls := s.calls[t := Failed(s.calls[t].orig)])
             else s.(q := s.q.(lock := true, shadows := s.q.shadows[t := s.q.shadows[t].(act := Q.Scanning(0, s.q.d.global))]))
  }

  /** update_epoch looks at one more thread. */
  predicate LookStep(s: State, s': State, t: nat) {
    && Shaped(s) && t < |s.calls| && s.calls[t].Opened? && s.q.shadows[t].act.Scanning?
    && var next, curr := s.q.shadows[t].act.next, s.q.shadows[t].act.curr;
       && next < |s.calls|
       && s' == if Lags(s.q.d, t, next, curr) then State(Q.Unlocked(s.q, t), s.calls[t := Failed(s.calls[t].orig)])
                else s.(q := s.q.(shadows := s.q.shadows[t := s.q.shadows[t].(act := Q.Scanning(next + 1, curr))]))
  }

  /** It has looked at all: the epoch advances. */
  predicate AdvanceStep(s: State, s': State, t: nat) {
    && Shaped(s) && t < |s.calls| && s.calls[t].Opened? && s.q.shadows[t].act.Scanning?
    && s.q.shadows[t].act.next == |s.calls|
    && s' == State(Q.Unlocked(s.q, t).(d := s.q.d.(global := (s.q.shadows[t].act.curr + 1) % N_EPOCHS), now := s.q.now + 1),
                   s.calls[t := Won(s.calls[t].orig)])
  }

  /** in_critical gets its old value back. After a failure that is the end of the call. */
  predicate CloseStep(s: State, s': State, t: nat) {
    && Shaped(s) && t < |s.calls| && (s.calls[t].Failed? || s.calls[t].Won?)
    && s' == if s.calls[t].Failed? then State(Return(s.q, t, s.calls[t].orig), s.calls[t := NoCall])
             else State(SetFlag(s.q, t, s.calls[t].orig), s.calls[t := Adopting])
  }

  /** After a success the epoch is taken over, if its label is a new one. */
  predicate AdoptStep(s: State, s': State, t: nat) {
    && Shaped(s) && t < |s.calls| && s.calls[t].Adopting? && Q.Shaped(Q.TakeOver(s.q, t))
    && s' == State(Return(Q.TakeOver(s.q, t), t, s.q.d.locals[t].inCritical), s.calls[t := NoCall])
  }

  /** One step of a call of quiescent_state. */
  predicate CallStep(s: State, s': State, t: nat) {
    || StartStep(s, s', t) || TryStep(s, s', t) || LookStep(s, s', t) || AdvanceStep(s, s', t)
    || CloseStep(s, s', t) || AdoptStep(s, s', t)
  }

  ghost predicate Next(s: State, s': State) {
    UseStep(s, s') || exists t :: CallStep(s, s', t)
  }

  // ----- the invariant

  /** The state as the coarser model has it: a thread in its window is one that is not in a critical section. */
  function Calm(s: State): Q.State
    requires Shaped(s)
  {
    s.q.(d := s.q.d.(locals := seq(|s.calls|, t requires 0 <= t < |s.calls| =>
        if s.calls[t].NoCall? then s.q.d.locals[t] else s.q.d.locals[t].(inCritical := false))))
  }

  predicate CallOk(s: State, t: nat)
    requires Shaped(s) && t < |s.calls|
  {
    && (!s.calls[t].Opened? ==> s.q.shadows[t].act.Running?)
    && (!s.calls[t].NoCall? ==> s.q.shadows[t].held == {})
    && (!s.calls[t].NoCall? && !s.calls[t].Adopting? ==> !s.q.d.locals[t].inCritical)
  }

  ghost predicate Inv(s: State) {
    && Shaped(s) && Q.Inv(Calm(s))
    && forall t :: 0 <= t < |s.calls| ==> CallOk(s, t)
  }

  /** The condition: a critical thread whose attempt failed goes on only with the current epoch label, or with the one
      before it and before an update_epoch call under way has passed it over. */
  predicate CloseOk(s: State, t: nat)
    requires Shaped(s) && t < |s.calls|
  {
    s.calls[t].Failed? && s.calls[t].orig ==>
      || s.q.d.locals[t].epoch == s.q.d.global
      || ((s.q.d.locals[t].epoch + 1) % N_EPOCHS == s.q.d.global
          && forall u :: 0 <= u < |s.calls| && s.q.shadows[u].act.Scanning? ==> s.q.shadows[u].act.next <= t)
  }

  lemma InitInv(s: State, nthreads: nat)
    requires Init(s, nthreads)
    ensures Inv(s)
  {
    Q.InitInv(s.q, nthreads);
    assert Calm(s).d.locals == s.q.d.locals;
    assert Calm(s).d == s.q.d;
    assert Calm(s) == s.q;
    hide Q.Inv;
    forall t | 0 <= t < |s.calls| ensures CallOk(s, t) {
    }
  }

  /** What the coarser model sees of one thread. */
  lemma CalmAt(s: State, t: nat)
    requires Shaped(s) && t < |s.calls|
    ensures |Calm(s).d.locals| == |s.calls|
    ensures Calm(s).d.locals[t] == if s.calls[t].NoCall? then s.q.d.locals[t] else s.q.d.locals[t].(inCritical := false)
  {
  }

  // ----- the steps keep it

  lemma LinkKeeps(s: State, s': State, n: Node)
    requires Inv(s) && Q.LinkStep(s.q, s'.q, n) && s' == s.(q := s'.q)
    ensures Inv(s')
  {
    assert Calm(s').d.locals == Calm(s).d.locals;
    Q.LinkInv(Calm(s), Calm(s'), n);
    hide Q.Inv;
    forall u | 0 <= u < |s'.calls| ensures CallOk(s', u) {
      assert CallOk(s, u);
    }
  }

  lemma ExitKeeps(s: State, s': State, t: nat)
    requires Inv(s) && Free(s, t) && Q.ExitStep(s.q, s'.q, t) && s' == s.(q := s'.q)
    ensures Inv(s')
  {
    var c := Calm(s);
    assert Calm(s').d.locals == c.d.locals[t := c.d.locals[t].(inCritical := false)];
    assert CallOk(s, t);
    Q.ExitInv(c, Calm(s'), t);
    hide Q.Inv;
    forall u | 0 <= u < |s'.calls| ensures CallOk(s', u) {
      assert CallOk(s, u);
    }
  }

  lemma NodeKeeps(s: State, s': State, t: nat, n: Node)
    requires Inv(s) && Free(s, t) && s' == s.(q := s'.q)
    requires Q.AcquireStep(s.q, s'.q, t, n) || Q.ReleaseStep(s.q, s'.q, t, n) || Q.UnlinkStep(s.q, s'.q, t, n)
    ensures Inv(s')
  {
    var c, c' := Calm(s), Calm(s');
    assert c'.d.locals == c.d.locals;
    if Q.AcquireStep(s.q, s'.q, t, n) {
      Q.AcquireInv(c, c', t, n);
    } else if Q.ReleaseStep(s.q, s'.q, t, n) {
      Q.ReleaseInv(c, c', t, n);
    } else {
      Q.UnlinkInv(c, c', t, n);
    }
    hide Q.Inv;
    forall u | 0 <= u < |s'.calls| ensures CallOk(s', u) {
      assert CallOk(s, u);
    }
  }

  lemma RetireKeeps(s: State, s': State, t: nat, n: Node)
    requires Inv(s) && Free(s, t) && Q.RetireStep(s.q, s'.q, t, n) && s' == s.(q := s'.q)
    ensures Inv(s')
  {
    var c := Calm(s);
    FreeNodeLaterConserves(s.q.d, t, n);
    assert Calm(s').d.locals == FreeNodeLater(c.d, t, n).locals;
    Q.RetireInv(c, Calm(s'), t, n);
    hide Q.Inv;
    forall u | 0 <= u < |s'.calls| ensures CallOk(s', u) {
      assert CallOk(s, u);
    }
  }

  /** Taking over the epoch is the same in both views. */
  lemma TakeOverCalm(s: State, t: nat)
    requires Shaped(s) && t < |s.calls|
    ensures var s' := s.(q := Q.TakeOver(s.q, t)); Shaped(s') && Calm(s') == Q.TakeOver(Calm(s), t)
  {
    var s' := s.(q := Q.TakeOver(s.q, t));
    if s.q.d.locals[t].epoch != s.q.d.global {
      AdoptConserves(s.q.d, t);
      assert Calm(s').d.locals == Q.TakeOver(Calm(s), t).d.locals;
    }
  }

  lemma StartKeeps(s: State, s': State, t: nat)
    requires Inv(s) && StartStep(s, s', t)
    ensures Inv(s')
  {
    var c := Calm(s);
    CalmAt(s, t);
    if s.q.d.locals[t].epoch != s.q.d.global {
      TakeOverCalm(s, t);
      Q.TakeOverInv(c, t);
      hide Q.Inv;
      forall u | 0 <= u < |s'.calls| ensures CallOk(s', u) {
        assert CallOk(s, u);
      }
    } else {
      assert Calm(s').d.locals == c.d.locals[t := c.d.locals[t].(inCritical := false)];
      Q.ExitInv(c, Calm(s'), t);
      hide Q.Inv;
      forall u | 0 <= u < |s'.calls| ensures CallOk(s', u) {
        assert CallOk(s, u);
      }
    }
  }

  /** Steps of update_epoch that change only t's position and the lock. */
  lemma PositionKeeps(s: State, s': State, t: nat, act: Q.Activity)
    requires Inv(s) && Shaped(s') && t < |s.calls| && s.calls[t].Opened?
    requires s' == s'.(q := s.q.(lock := s'.q.lock, shadows := s'.q.shadows))
    requires s'.q.shadows == s.q.shadows[t := s.q.shadows[t].(act := act)]
    requires s'.calls == s.calls || (act.Running? && s'.calls == s.calls[t := Failed(s.calls[t].orig)])
    requires Q.ScanOk(Calm(s'), t)
    requires if s.q.shadows[t].act.Running? then !s.q.lock && s'.q.lock else s'.q.lock == act.Scanning?
    ensures Inv(s')
  {
    var c, c' := Calm(s), Calm(s');
    assert CallOk(s, t);
    assert c'.d.locals == c.d.locals;
    Q.ListsSame(c, c');
    Q.PositionInv(c, c', t, act);
    hide Q.Inv;
    forall u | 0 <= u < |s'.calls| ensures CallOk(s', u) {
      assert CallOk(s, u);
    }
  }

  lemma TryKeeps(s: State, s': State, t: nat)
    requires Inv(s) && TryStep(s, s', t)
    ensures Inv(s')
  {
    CalmAt(s, t);
    if s.q.lock {
      assert Calm(s').d.locals == Calm(s).d.locals;
      hide Q.Inv;
      forall u | 0 <= u < |s'.calls| ensures CallOk(s', u) {
        assert CallOk(s, u);
      }
    } else {
      assert CallOk(s, t);
      CalmAt(s', t);
      PositionKeeps(s, s', t, Q.Scanning(0, s.q.d.global));
    }
  }

  lemma LookKeeps(s: State, s': State, t: nat)
    requires Inv(s) && LookStep(s, s', t)
    ensures Inv(s')
  {
    var c := Calm(s);
    var next := s.q.shadows[t].act.next;
    assert CallOk(s, t) && Q.ScanOk(c, t);
    CalmAt(s, next);
    assert Calm(s').d.locals == c.d.locals;
    if !Lags(s.q.d, t, next, s.q.d.global) {
      Q.CaughtUp(c, t, next);
    }
    PositionKeeps(s, s', t, s'.q.shadows[t].act);
  }

  lemma AdvanceKeeps(s: State, s': State, t: nat)
    requires Inv(s) && AdvanceStep(s, s', t)
    ensures Inv(s')
  {
    var c := Calm(s);
    assert CallOk(s, t) && Q.ScanOk(c, t);
    assert Calm(s').d.locals == c.d.locals;
    Q.AdvanceInv(c, t);
    hide Q.Inv;
    forall u | 0 <= u < |s'.calls| ensures CallOk(s', u) {
      assert CallOk(s, u);
    }
  }

  // ----- the end of a call

  /** The label of a thread that comes back may mean a later true epoch than before, never an earlier one. */
  lemma SettledEpoch(c: Q.State, t: nat)
    requires Q.EpochsOk(c) && t < |c.shadows|
    ensures var e := Settled(c, t);
            && c.shadows[t].e <= e <= c.now && e % N_EPOCHS == c.d.locals[t].epoch && c.now <= e + 2
            && (e == c.now <==> c.d.locals[t].epoch == c.d.global)
            && (c.now == e + 2 <==> c.d.locals[t].epoch != c.d.global && (c.d.locals[t].epoch + 1) % N_EPOCHS != c.d.global)
  {
    assert Q.EpochOk(c.now, c.d.locals[t], c.shadows[t]);
  }

  /** May t, not in a critical section, be back in one with the label it has? */
  predicate BackOk(c: Q.State, t: nat)
    requires Q.Shaped(c) && t < |c.shadows|
  {
    || c.d.locals[t].epoch == c.d.global
    || ((c.d.locals[t].epoch + 1) % N_EPOCHS == c.d.global
        && forall u :: 0 <= u < |c.shadows| && c.shadows[u].act.Scanning? ==> c.shadows[u].act.next <= t)
  }

  lemma ReturnEpochs(c: Q.State, t: nat, f: bool)
    requires Q.Inv(c) && t < |c.shadows| && c.shadows[t].act.Running? && !c.d.locals[t].inCritical && (f ==> BackOk(c, t))
    ensures var c' := Return(c, t, f); Q.Shaped(c') && Q.EpochsOk(c') && Q.ScansOk(c')
  {
    var c' := Return(c, t, f);
    SettledEpoch(c, t);
    forall u | 0 <= u < |c.shadows| ensures Q.EpochOk(c'.now, c'.d.locals[u], c'.shadows[u]) && Q.ScanOk(c', u) {
      assert Q.EpochOk(c.now, c.d.locals[u], c.shadows[u]) && Q.ScanOk(c, u);
    }
  }

  lemma ReturnInv(c: Q.State, t: nat, f: bool)
    requires Q.Inv(c) && t < |c.shadows| && c.shadows[t].act.Running? && !c.d.locals[t].inCritical && c.shadows[t].held == {}
    requires f ==> BackOk(c, t)
    ensures Q.Inv(Return(c, t, f))
  {
    var c' := Return(c, t, f);
    ReturnEpochs(c, t, f);
    SettledEpoch(c, t);
    Q.ListsSame(c, c');
    hide Q.ListsOk, Q.EpochsOk, Q.ScansOk;
    forall n | n in c'.nodes ensures Q.PlaceOk(c', c'.nodes[n]) {
      assert Q.PlaceOk(c, c.nodes[n]);
    }
    forall u, n | 0 <= u < |c.shadows| ensures Q.HolderOk(c', u, n) {
      assert Q.HolderOk(c, u, n);
    }
  }

  /** And only if it may. */
  lemma ReturnOnlyIf(c: Q.State, t: nat)
    requires Q.Inv(c) && t < |c.shadows| && Q.Inv(Return(c, t, true))
    ensures BackOk(c, t)
  {
    var c' := Return(c, t, true);
    SettledEpoch(c, t);
    assert Q.EpochOk(c'.now, c'.d.locals[t], c'.shadows[t]);
    forall u | 0 <= u < |c.shadows| && c.shadows[u].act.Scanning? && c.d.locals[t].epoch != c.d.global
      ensures c.shadows[u].act.next <= t
    {
      assert Q.ScanOk(c, u) && Q.ScanOk(c', u);
    }
  }

  /** Coming back from a window is the same in both views. */
  lemma ReturnCalm(s: State, s': State, t: nat, f: bool)
    requires Shaped(s) && t < |s.calls| && !s.calls[t].NoCall? && s' == State(Return(s.q, t, f), s.calls[t := NoCall])
    ensures Shaped(s') && Calm(s') == Return(Calm(s), t, f)
  {
    CalmAt(s, t);
    assert Settled(Calm(s), t) == Settled(s.q, t);
    assert Calm(s').d.locals == Return(Calm(s), t, f).d.locals;
  }

  /** A failed call keeps the invariant exactly if the condition holds when it ends. */
  lemma FailedCloseIff(s: State, s': State, t: nat)
    requires Inv(s) && CloseStep(s, s', t) && s.calls[t].Failed?
    ensures Inv(s') <==> CloseOk(s, t)
  {
    var c := Calm(s);
    assert CallOk(s, t);
    CalmAt(s, t);
    ReturnCalm(s, s', t, s.calls[t].orig);
    assert CloseOk(s, t) <==> (s.calls[t].orig ==> BackOk(c, t));
    if CloseOk(s, t) {
      ReturnInv(c, t, s.calls[t].orig);
    } else if Inv(s') {
      ReturnOnlyIf(c, t);
    }
    hide Q.Inv, CloseOk, Return;
    forall u | 0 <= u < |s'.calls| ensures CallOk(s', u) {
      assert CallOk(s, u);
    }
  }

  lemma CloseKeeps(s: State, s': State, t: nat)
    requires Inv(s) && CloseStep(s, s', t) && CloseOk(s, t)
    ensures Inv(s')
  {
    if s.calls[t].Failed? {
      FailedCloseIff(s, s', t);
    } else {
      assert Calm(s').d.locals == Calm(s).d.locals;
      hide Q.Inv;
      forall u | 0 <= u < |s'.calls| ensures CallOk(s', u) {
        assert CallOk(s, u);
      }
    }
  }

  lemma AdoptKeeps(s: State, s': State, t: nat)
    requires Inv(s) && AdoptStep(s, s', t)
    ensures Inv(s')
  {
    var m := s.(q := Q.TakeOver(s.q, t));
    assert CallOk(s, t);
    CalmAt(s, t);
    TakeOverCalm(s, t);
    Q.TakeOverInv(Calm(s), t);
    hide Q.Inv;
    ReturnCalm(m, s', t, s.q.d.locals[t].inCritical);
    ReturnInv(Calm(m), t, s.q.d.locals[t].inCritical);
    forall u | 0 <= u < |s'.calls| ensures CallOk(s', u) {
      assert CallOk(s, u);
    }
  }

  lemma UseKeeps(s: State, s': State)
    requires Inv(s) && UseStep(s, s')
    ensures Inv(s')
  {
    hide Inv, Q.LinkStep, Q.ExitStep, Q.AcquireStep, Q.ReleaseStep, Q.UnlinkStep, Q.RetireStep;
    if n :| Q.LinkStep(s.q, s'.q, n) {
      LinkKeeps(s, s', n);
    } else if t: nat :| Free(s, t) && Q.ExitStep(s.q, s'.q, t) {
      ExitKeeps(s, s', t);
    } else {
      var t: nat, n :| Free(s, t) && (Q.AcquireStep(s.q, s'.q, t, n) || Q.ReleaseStep(s.q, s'.q, t, n)
        || Q.UnlinkStep(s.q, s'.q, t, n) || Q.RetireStep(s.q, s'.q, t, n));
      if Q.RetireStep(s.q, s'.q, t, n) {
        RetireKeeps(s, s', t, n);
      } else {
        NodeKeeps(s, s', t, n);
      }
    }
  }

  lemma CallKeeps(s: State, s': State, t: nat)
    requires Inv(s) && CallStep(s, s', t) && (CloseStep(s, s', t) ==> CloseOk(s, t))
    ensures Inv(s')
  {
    hide Inv, StartStep, TryStep, LookStep, AdvanceStep, CloseStep, AdoptStep, CloseOk;
    if StartStep(s, s', t) {
      StartKeeps(s, s', t);
    } else if TryStep(s, s', t) {
      TryKeeps(s, s', t);
    } else if LookStep(s, s', t) {
      LookKeeps(s, s', t);
    } else if AdvanceStep(s, s', t) {
      AdvanceKeeps(s, s', t);
    } else if CloseStep(s, s', t) {
      CloseKeeps(s, s', t);
    } else {
      AdoptKeeps(s, s', t);
    }
  }

  /** No call ends with this step against the condition. */
  ghost predicate StepOk(s: State, s': State) {
    forall t: nat :: CloseStep(s, s', t) ==> CloseOk(s, t)
  }

  lemma NextKeeps(s: State, s': State)
    requires Inv(s) && Next(s, s') && StepOk(s, s')
    ensures Inv(s')
  {
    hide Inv, UseStep, CallStep, CloseStep, CloseOk;
    if UseStep(s, s') {
      UseKeeps(s, s');
    } else {
      var t: nat :| CallStep(s, s', t);
      CallKeeps(s, s', t);
    }
  }

  /** What a step of a call leaves alone: who holds what, which nodes are linked, and the other threads' calls. */
  lemma CallShape(s: State, s': State, t: nat)
    requires Shaped(s) && CallStep(s, s', t)
    ensures |s'.calls| == |s.calls| && |s'.q.shadows| == |s.q.shadows| && t < |s.calls|
    ensures forall u :: 0 <= u < |s.calls| ==> s'.q.shadows[u].held == s.q.shadows[u].held
    ensures forall u :: 0 <= u < |s.calls| && u != t ==> s'.calls[u] == s.calls[u]
    ensures s'.q.nodes.Keys == s.q.nodes.Keys
    ensures forall n :: n in s.q.nodes ==> s'.q.nodes[n] == s.q.nodes[n] || (s.q.nodes[n].Limbo? && s'.q.nodes[n].Freed?)
  {
    hide IsDomain, Lags, Settled;
  }

  /** What waits in a limbo list. */
  lemma Listed(s: State, t: nat, l: int, n: Node)
    requires Inv(s) && t < |s.calls| && 0 <= l < N_EPOCHS && n in s.q.d.locals[t].limbo[l]
    ensures n in s.q.nodes && s.q.nodes[n].Limbo? && s.q.nodes[n].who == t
  {
    CalmAt(s, t);
    assert Q.ListOk(Calm(s), t, l);
  }

  // ----- over whole runs

  ghost predicate Run(run: seq<State>, nthreads: nat) {
    run != [] && Init(run[0], nthreads) && forall i :: 0 <= i < |run| - 1 ==> Next(run[i], run[i + 1])
  }

  /** Every failed call of quiescent_state in the run meets the condition at its end. */
  ghost predicate Tidy(run: seq<State>) {
    forall i :: 0 <= i < |run| - 1 ==> StepOk(run[i], run[i + 1])
  }

  lemma {:induction false} RunInv(run: seq<State>, nthreads: nat, i: nat)
    requires Run(run, nthreads) && Tidy(run) && i < |run|
    ensures Inv(run[i])
  {
    if i == 0 {
      InitInv(run[0], nthreads);
    } else {
      RunInv(run, nthreads, i - 1);
      assert Next(run[i - 1], run[i - 1 + 1]) && StepOk(run[i - 1], run[i - 1 + 1]);
      hide Inv, Next, StepOk;
      NextKeeps(run[i - 1], run[i]);
    }
  }

  /** Under the condition no thread holds a node that was handed back, and no node was handed back twice. */
  lemma NoFreedNodeHeld(run: seq<State>, nthreads: nat, i: nat, t: nat)
    requires Run(run, nthreads) && Tidy(run) && i < |run| && t < |run[i].q.shadows|
    ensures forall n :: n in run[i].q.d.freed ==> n !in run[i].q.shadows[t].held
    ensures Q.NoDuplicates(run[i].q.d.freed)
  {
    RunInv(run, nthreads, i);
    hide Run;
    var c := Calm(run[i]);
    forall n | n in run[i].q.d.freed ensures n !in run[i].q.shadows[t].held {
      assert Q.HolderOk(c, t, n);
    }
  }

  /** Under the condition a critical thread outside quiescent_state lags the true global epoch by at most one. */
  lemma LagAtMostOne(run: seq<State>, nthreads: nat, i: nat, t: nat)
    requires Run(run, nthreads) && Tidy(run) && i < |run| && t < |run[i].calls|
    ensures var q := run[i].q;
            && t < |q.d.locals| && t < |q.shadows| && q.shadows[t].e <= q.now
            && (q.d.locals[t].inCritical && run[i].calls[t].NoCall? ==> q.now <= q.shadows[t].e + 1)
            && q.d.global == q.now % N_EPOCHS && q.d.locals[t].epoch == q.shadows[t].e % N_EPOCHS
            && IsLocal(q.d.locals[t])
  {
    RunInv(run, nthreads, i);
    hide Run;
    var c := Calm(run[i]);
    CalmAt(run[i], t);
    assert Q.EpochOk(c.now, c.d.locals[t], c.shadows[t]);
  }

  lemma UseShape(s: State, s': State, n: Node)
    requires UseStep(s, s') && n in s'.q.nodes && s'.q.nodes[n].Scanned?
    ensures n in s.q.nodes && s.q.nodes[n].Scanned?
  {
    hide Free;
  }

  /** No step of src/qsbr.c frees by a hazard scan. */
  lemma {:induction false} NeverScanned(run: seq<State>, nthreads: nat, i: nat, n: Node)
    requires Run(run, nthreads) && Tidy(run) && i < |run| && n in run[i].q.nodes
    ensures !run[i].q.nodes[n].Scanned?
  {
    if i > 0 && run[i].q.nodes[n].Scanned? {
      RunInv(run, nthreads, i - 1);
      var s, s' := run[i - 1], run[i - 1 + 1];
      assert Next(s, s') && Shaped(s);
      hide CallStep, UseStep, Inv, Shaped, Run, Tidy;
      if UseStep(s, s') {
        UseShape(s, s', n);
      } else {
        var t: nat :| CallStep(s, s', t);
        CallShape(s, s', t);
      }
      NeverScanned(run, nthreads, i - 1, n);
    }
  }

  /** Every freed node was retired at least three true epochs before it was freed. */
  lemma FreedLate(run: seq<State>, nthreads: nat, i: nat, n: Node)
    requires Run(run, nthreads) && Tidy(run) && i < |run| && n in run[i].q.d.freed
    ensures n in run[i].q.nodes && run[i].q.nodes[n].Freed?
    ensures var p := run[i].q.nodes[n]; p.epoch + 3 <= p.when && p.at + 2 <= p.when
  {
    RunInv(run, nthreads, i);
    NeverScanned(run, nthreads, i, n);
    hide Run;
    assert Q.PlaceOk(Calm(run[i]), run[i].q.nodes[n]);
  }

  // ----- every new label frees

  /** Nodes are freed, over all interleavings, exactly when a thread's label changes: those that waited under the label
      that it takes, in order. */
  ghost predicate FreesByLabel(s: State, s': State) {
    && |s'.q.d.locals| == |s.q.d.locals|
    && (s'.q.d.freed == s.q.d.freed || exists t :: 0 <= t < |s.q.d.locals| && s'.q.d.locals[t].epoch != s.q.d.locals[t].epoch)
    && forall t :: 0 <= t < |s.q.d.locals| && s'.q.d.locals[t].epoch != s.q.d.locals[t].epoch ==> LabelsFree(s.q.d, s'.q.d, t)
  }

  lemma UseFreesNothing(s: State, s': State)
    requires UseStep(s, s')
    ensures FreesByLabel(s, s')
  {
    hide Free;
  }

  lemma TakeOverFrees(s: State, s': State, t: nat)
    requires StartStep(s, s', t) || AdoptStep(s, s', t)
    ensures FreesByLabel(s, s')
  {
    AdoptLaw(s.q.d, t);
    hide Lags;
  }

  lemma OthersFreeNothing(s: State, s': State, t: nat)
    requires TryStep(s, s', t) || LookStep(s, s', t) || AdvanceStep(s, s', t) || CloseStep(s, s', t)
    ensures FreesByLabel(s, s')
  {
    hide Lags, Settled;
  }

  lemma CallFrees(s: State, s': State, t: nat)
    requires CallStep(s, s', t)
    ensures FreesByLabel(s, s')
  {
    hide FreesByLabel, StartStep, TryStep, LookStep, AdvanceStep, CloseStep, AdoptStep;
    if StartStep(s, s', t) || AdoptStep(s, s', t) {
      TakeOverFrees(s, s', t);
    } else {
      OthersFreeNothing(s, s', t);
    }
  }

  /** In every run, whatever its failed calls: a step that changes a thread's label empties the list of the new label and
      hands it back in order, and no other step frees anything. */
  lemma NewLabelFrees(run: seq<State>, nthreads: nat, i: nat)
    requires Run(run, nthreads) && i < |run| - 1
    ensures FreesByLabel(run[i], run[i + 1])
  {
    assert Next(run[i], run[i + 1]);
    hide FreesByLabel, UseStep, CallStep;
    if UseStep(run[i], run[i + 1]) {
      UseFreesNothing(run[i], run[i + 1]);
    } else {
      var t: nat :| CallStep(run[i], run[i + 1], t);
      CallFrees(run[i], run[i + 1], t);
    }
  }

  /** A call that ends without having failed leaves its thread with the current label. */
  lemma EndsWithLabel(s: State, s': State, t: nat)
    requires CallStep(s, s', t) && t < |s'.calls| && s'.calls[t].NoCall? && !s.calls[t].Failed?
    ensures s'.q.d.locals[t].epoch == s'.q.d.global == s.q.d.global
  {
    if StartStep(s, s', t) || AdoptStep(s, s', t) {
      AdoptLaw(s.q.d, t);
    }
    hide Lags;
  }

  /** A call that finds a new label takes it over at once. */
  lemma NewLabelTaken(s: State, s': State, t: nat)
    requires StartStep(s, s', t) && s.q.d.locals[t].epoch != s.q.d.global
    ensures t < |s'.calls| && s'.calls[t].NoCall? && s'.q.d.locals[t].epoch == s.q.d.global && LabelsFree(s.q.d, s'.q.d, t)
  {
    AdoptLaw(s.q.d, t);
    hide Lags;
  }

  // ----- when the epoch stood still

  /** t has begun a call that has not ended. */
  predicate Within(s: State, t: nat) {
    Shaped(s) && t < |s.calls| && !s.calls[t].NoCall?
  }

  /** t's label changes only at the ends of its own calls, and the global one only when the true epoch goes on. */
  predicate LabelsKept(s: State, s': State, t: nat)
    requires Within(s, t) && Within(s', t)
  {
    && s'.q.d.locals[t].epoch == s.q.d.locals[t].epoch
    && s.q.now <= s'.q.now && (s'.q.now == s.q.now ==> s'.q.d.global == s.q.d.global)
  }

  lemma LabelsStay(s: State, s': State, t: nat)
    requires Next(s, s') && Within(s, t) && Within(s', t)
    ensures LabelsKept(s, s', t)
  {
    hide UseStep, CallStep;
    if UseStep(s, s') {
      UseLabels(s, s', t);
    } else {
      var u: nat :| CallStep(s, s', u);
      CallLabels(s, s', u, t);
    }
  }

  lemma UseLabels(s: State, s': State, t: nat)
    requires UseStep(s, s') && Within(s, t) && Within(s', t)
    ensures LabelsKept(s, s', t)
  {
  }

  lemma CallLabels(s: State, s': State, u: nat, t: nat)
    requires CallStep(s, s', u) && Within(s, t) && Within(s', t)
    ensures LabelsKept(s, s', t)
  {
  }

  lemma KeptAtFirst(s: State, t: nat)
    requires Within(s, t)
    ensures LabelsKept(s, s, t)
  {
  }

  lemma KeptTwice(s: State, m: State, s': State, t: nat)
    requires Within(s, t) && Within(m, t) && Within(s', t) && LabelsKept(s, m, t) && LabelsKept(m, s', t)
    ensures LabelsKept(s, s', t)
  {
  }

  /** run[i + 1] to run[j] are states within one call of t. */
  ghost predicate OneCall(run: seq<State>, t: nat, i: nat, j: nat) {
    && i < j < |run|
    && (forall m :: i <= m < j ==> Next(run[m], run[m + 1]))
    && (forall m :: i < m <= j ==> Within(run[m], t))
  }

  lemma {:induction false} LabelStays(run: seq<State>, t: nat, i: nat, j: nat)
    requires OneCall(run, t, i, j)
    ensures Within(run[i + 1], t) && Within(run[j], t) && LabelsKept(run[i + 1], run[j], t)
    decreases j
  {
    hide Next, Within, LabelsKept;
    if j == i + 1 {
      KeptAtFirst(run[j], t);
    } else {
      LabelStays(run, t, i, j - 1);
      assert Next(run[j - 1], run[j - 1 + 1]);
      LabelsStay(run[j - 1], run[j], t);
      KeptTwice(run[i + 1], run[j - 1], run[j], t);
    }
  }

  /** A call in which the global epoch did not advance meets the condition, even if it fails: so does one that nobody
      interrupts. */
  lemma NoAdvanceCloses(run: seq<State>, t: nat, i: nat, j: nat)
    requires OneCall(run, t, i, j) && StartStep(run[i], run[i + 1], t) && run[j].q.now == run[i].q.now
    ensures Within(run[j], t) && CloseOk(run[j], t)
  {
    LabelStays(run, t, i, j);
  }

  // ----- the uninterrupted call

  predicate LagsBelow(d: Domain, t: nat, k: nat) {
    exists i :: 0 <= i < k && i < |d.locals| && Lags(d, t, i, d.global)
  }

  /** How far t's call, begun in s0, has come if nobody else has moved since. */
  ghost predicate Midway(s0: State, s: State, t: nat)
    requires Free(s0, t)
  {
    var d0, d := s0.q.d, s.q.d;
    && Inv(s) && |s.calls| == |s0.calls| && d.freed == d0.freed && t < |d0.locals| == |d.locals|
    && d0.locals[t].epoch == d0.global
    && (forall u :: 0 <= u < |d.locals| && u != t ==> d.locals[u] == d0.locals[u])
    && d.locals[t] == d0.locals[t].(inCritical := s.calls[t].Adopting? && d0.locals[t].inCritical)
    && !s.calls[t].NoCall? && (!s.calls[t].Adopting? ==> s.calls[t].orig == d0.locals[t].inCritical)
    && d.global == (if s.calls[t].Won? || s.calls[t].Adopting? then Advance(d0).global else d0.global)
    && (s.q.shadows[t].act.Running? ==> !s.q.lock)
    && (s.q.shadows[t].act.Scanning? ==> !LagsBelow(d0, t, s.q.shadows[t].act.next))
    && (s.calls[t].Failed? ==> LagsBelow(d0, t, |d0.locals|))
    && (s.calls[t].Won? || s.calls[t].Adopting? ==> !LagsBelow(d0, t, |d0.locals|))
  }

  lemma MidStep(s0: State, s: State, s': State, t: nat)
    requires Free(s0, t) && Midway(s0, s, t) && CallStep(s, s', t) && !s'.calls[t].NoCall?
    ensures Midway(s0, s', t)
  {
    assert CallOk(s, t);
    CalmAt(s, t);
    if s.q.shadows[t].act.Scanning? {
      assert Q.ScanOk(Calm(s), t);
    }
    CallKeeps(s, s', t);
    hide Q.Inv;
    if LookStep(s, s', t) {
      var next := s.q.shadows[t].act.next;
      assert Lags(s.q.d, t, next, s.q.d.global) == Lags(s0.q.d, t, next, s0.q.d.global);
    }
  }

  lemma FailureEnds(s0: State, s: State, s': State, t: nat)
    requires Free(s0, t) && Midway(s0, s, t) && CloseStep(s, s', t) && s.calls[t].Failed?
    ensures s'.q.d == QuiescentState(s0.q.d, t)
  {
    hide Inv;
    assert s'.q.d.locals == s0.q.d.locals;
  }

  lemma SuccessEnds(s0: State, s: State, s': State, t: nat)
    requires Free(s0, t) && Midway(s0, s, t) && AdoptStep(s, s', t)
    ensures s'.q.d == QuiescentState(s0.q.d, t)
  {
    hide Inv;
    AdoptConserves(s.q.d, t);
    assert s'.q.d.locals == Adopt(Advance(s0.q.d), t).locals;
  }

  lemma MidEnds(s0: State, s: State, s': State, t: nat)
    requires Free(s0, t) && Midway(s0, s, t) && CallStep(s, s', t) && s'.calls[t].NoCall?
    ensures s'.q.d == QuiescentState(s0.q.d, t)
  {
    assert CallOk(s, t);
    hide Inv, QuiescentState;
    if s.calls[t].Failed? {
      FailureEnds(s0, s, s', t);
    } else {
      SuccessEnds(s0, s, s', t);
    }
  }

  /** With nobody in between, the steps of a call add up to what the method Reclaimer.Quiesce does in one go. */
  lemma {:induction false} StepsAddUp(run: seq<State>, t: nat, k: nat)
    requires 0 < k < |run| && Inv(run[0]) && Free(run[0], t) && !run[0].q.lock
    requires forall i :: 0 <= i < k ==> CallStep(run[i], run[i + 1], t)
    requires forall i :: 0 < i < k ==> t < |run[i].calls| && !run[i].calls[t].NoCall?
    ensures t < |run[k].calls|
    ensures if run[k].calls[t].NoCall? then run[k].q.d == QuiescentState(run[0].q.d, t) else Midway(run[0], run[k], t)
  {
    var s0, s, s' := run[0], run[k - 1], run[k];
    assert CallStep(run[k - 1], run[k - 1 + 1], t);
    if k == 1 {
      CallStarts(s0, s', t);
    } else {
      StepsAddUp(run, t, k - 1);
      hide Midway, CallStep, QuiescentState;
      assert t < |s'.calls| by { CallShape(s, s', t); }
      if s'.calls[t].NoCall? {
        MidEnds(s0, s, s', t);
      } else {
        MidStep(s0, s, s', t);
      }
    }
  }

  lemma CallStarts(s0: State, s': State, t: nat)
    requires Inv(s0) && Free(s0, t) && !s0.q.lock && CallStep(s0, s', t)
    ensures t < |s'.calls| && if s'.calls[t].NoCall? then s'.q.d == QuiescentState(s0.q.d, t) else Midway(s0, s', t)
  {
    CallKeeps(s0, s', t);
    hide Q.Inv;
  }
}
