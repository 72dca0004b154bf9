/** A BST-TK call that runs alone returns (src/bst-tk).

    The code retries whenever a lock attempt fails. From any reachable state in which no thread is
    between lock and unlock, a call that then runs alone never retries: every lock attempt succeeds,
    and the call is done after at most two steps for each router on the search path and six more.
 */
module BstTkProgress {
  import opened Options
  import opened ExternalTree
  import opened TreeHistory
  import opened BstTk
  import opened BstTkLocks

  /** The number of routers a search for k visits. */
  function Depth(t: Tree, k: int): nat {
    if t.Leaf? then 0 else 1 + Depth(Toward(t, k), k)
  }

  predicate Open(lock: Lock) {
    lock.l.version == lock.l.ticket && lock.r.version == lock.r.ticket
  }

  ghost predicate Quiet(m: Memory) {
    && m.hist != [] && Rep(m.cells, Last(m.hist)) && Distinct(Last(m.hist)) && Last(m.hist).Node? && Last(m.hist).id == HEAD
    && forall a :: a in Ids(Last(m.hist)) ==> a in m.locks && Open(m.locks[a])
  }

  /** was is what the lock words of a say now, and they say that it is free. */
  predicate UpToDate(m: Memory, a: Addr, was: Lock) {
    a in m.locks && SameBits(was.l, m.locks[a].l) && SameBits(was.r, m.locks[a].r) && Open(was)
  }

  /** The search stands on the root of a subtree of the tree. */
  ghost predicate StandsOn(m: Memory, th: Thread, sub: Tree) {
    && m.hist != [] && sub.Node? && sub.id == th.curr
    && Rep(m.cells, sub) && Distinct(sub) && Ids(sub) <= Ids(Last(m.hist))
  }

  ghost predicate AloneParse(m: Memory, th: Thread, sub: Tree) {
    && Quiet(m)
    && (th.pc == Walk ==> th.op.Find? && StandsOn(m, th, sub))
    && (th.pc == ReadVer ==>
          !th.op.Find? && StandsOn(m, th, sub) && (th.curr != HEAD ==> th.pred != th.curr && UpToDate(m, th.pred, th.predVer)))
    && (th.pc == ReadChild ==>
          && !th.op.Find? && StandsOn(m, th, sub) && th.pred == th.curr && UpToDate(m, th.pred, th.predVer)
          && (th.pred != HEAD ==> th.ppred != th.pred && UpToDate(m, th.ppred, th.ppredVer)))
  }

  /** What holds of a call that has run alone since it began to search. */
  ghost predicate Alone(m: Memory, th: Thread, sub: Tree) {
    && th.pc != Idle && th.pc != RevertGrand
    && (IsParse(th.pc) ==> AloneParse(m, th, sub))
    && (th.pc == LockPred ==> UpToDate(m, th.pred, th.predVer))
    && (th.pc == LockGrand ==>
          th.ppred != th.pred && UpToDate(m, th.pred, th.predVer) && UpToDate(m, th.ppred, th.ppredVer))
    && (th.pc == LockBoth ==> UpToDate(m, th.pred, th.predVer))
  }

  /** How many steps are left at most. */
  function Left(m: Memory, th: Thread, sub: Tree): int
    requires m.hist != []
  {
    match th.pc
    case Start => 2 * Depth(Last(m.hist), th.k) + 6
    case Walk => Depth(sub, th.k)
    case ReadVer => 2 * Depth(sub, th.k) + 5
    case ReadChild => 2 * Depth(sub, th.k) + 4
    case LockPred => 3
    case Link => 2
    case UnlockPred => 1
    case LockGrand => 5
    case LockBoth => 4
    case RevertGrand => 0
    case ReadSibling => 3
    case SpliceWrite => 2
    case UnlockGrand => 1
    case Done => 0
    case Idle => 0
  }

  /** The step got on: the call is nearer to its end, and it did not go back to the start. */
  ghost predicate GotOn(m: Memory, th: Thread, sub: Tree, m': Memory, th': Thread, sub': Tree) {
    && m.hist != [] && m'.hist != [] && th'.pc != Start && th'.k == th.k && th'.op == th.op
    && Alone(m', th', sub') && Left(m', th', sub') < Left(m, th, sub)
  }

  lemma StartsAlone(m: Memory, th: Thread, sub: Tree)
    requires Alone(m, th, sub) && th.pc == Start
    ensures GotOn(m, th, sub, m, ParseStep(m, th), Last(m.hist))
  {
  }

  lemma ChildTree(m: Memory, th: Thread, sub: Tree)
    requires StandsOn(m, th, sub)
    ensures th.curr in m.cells && m.cells[th.curr].Next(th.k) == Toward(sub, th.k).id && th.curr != Toward(sub, th.k).id
    ensures m.cells[th.curr].Next(th.k) in m.cells
    ensures m.cells[Toward(sub, th.k).id].leaf <==> Toward(sub, th.k).Leaf?
    ensures Toward(sub, th.k).Node? ==> StandsOn(m, th.(curr := Toward(sub, th.k).id), Toward(sub, th.k))
  {
    var c := Toward(sub, th.k);
    assert c.id in Ids(c);
    assert Rep(m.cells, c) && Ids(c) <= Ids(sub);
  }

  lemma WalksAlone(m: Memory, th: Thread, sub: Tree)
    requires Alone(m, th, sub) && th.pc == Walk && CanStep(m, th)
    ensures GotOn(m, th, sub, m, ParseStep(m, th), Toward(sub, th.k))
  {
    assert StandsOn(m, th, sub);
    ChildTree(m, th, sub);
    hide Quiet, Rep, Distinct;
  }

  lemma ReadsAlone(m: Memory, th: Thread, sub: Tree)
    requires Alone(m, th, sub) && th.pc == ReadVer && CanStep(m, th)
    ensures GotOn(m, th, sub, m, ParseStep(m, th), sub)
  {
    assert th.curr in Ids(sub);
    hide Rep, Distinct;
  }

  lemma DepthToward(t: Tree, k: int)
    requires t.Node?
    ensures Depth(t, k) == 1 + Depth(Toward(t, k), k)
  {
  }

  /** The search goes on to a router. */
  lemma ChoosesRouter(m: Memory, th: Thread, sub: Tree)
    requires AloneParse(m, th, sub) && th.pc == ReadChild && CanStep(m, th) && Toward(sub, th.k).Node?
    requires th.curr in m.cells && m.cells[th.curr].Next(th.k) == Toward(sub, th.k).id && th.curr != Toward(sub, th.k).id
    requires Toward(sub, th.k).id in m.cells && !m.cells[Toward(sub, th.k).id].leaf
    requires StandsOn(m, th.(curr := Toward(sub, th.k).id), Toward(sub, th.k))
    ensures GotOn(m, th, sub, m, ParseStep(m, th), Toward(sub, th.k))
  {
    hide Quiet, Rep, Distinct, Depth;
    DepthToward(sub, th.k);
  }

  /** The search ends at a leaf. */
  lemma ChoosesLeaf(m: Memory, th: Thread, sub: Tree)
    requires AloneParse(m, th, sub) && th.pc == ReadChild && CanStep(m, th) && th.curr in m.cells
    requires m.cells[th.curr].Next(th.k) in m.cells
    requires var c := m.cells[m.cells[th.curr].Next(th.k)]; c.leaf && (th.pred == HEAD ==> c.key != th.k)
    ensures GotOn(m, th, sub, m, ParseStep(m, th), sub)
  {
    assert Depth(sub, th.k) >= 1;
    hide Quiet, Rep, Distinct, Depth;
  }

  lemma ChoosesAlone(m: Memory, th: Thread, sub: Tree) returns (sub': Tree)
    requires MemInv(m) && GoodCall(th.op, th.k) && Alone(m, th, sub) && th.pc == ReadChild && CanStep(m, th)
    ensures GotOn(m, th, sub, m, ParseStep(m, th), sub')
  {
    assert AloneParse(m, th, sub) && StandsOn(m, th, sub) && sub.Node? && th.pred == th.curr;
    hide *;
    ChildTree(m, th, sub);
    HeadLeavesAreSentinels(m, th.k);
    if Toward(sub, th.k).Node? {
      sub' := Toward(sub, th.k);
      ChoosesRouter(m, th, sub);
    } else {
      sub' := sub;
      ChoosesLeaf(m, th, sub);
    }
  }

  lemma InsertsAlone(m: Memory, t: nat, th: Thread, sub: Tree)
    requires Alone(m, th, sub) && IsInsert(th.pc) && CanStep(m, th) && m.hist != []
    ensures GotOn(m, th, sub, InsertStep(m, t, th).0, InsertStep(m, t, th).1, sub)
  {
    hide Quiet, Rep, Distinct;
  }

  /** The first lock is free: pred's words are not the ones it takes. */
  lemma TakesGrand(m: Memory, t: nat, th: Thread, sub: Tree)
    requires Alone(m, th, sub) && th.pc == LockGrand && CanStep(m, th) && m.hist != []
    ensures GotOn(m, th, sub, DeleteStep(m, t, th).0, DeleteStep(m, t, th).1, sub)
  {
    hide Quiet, Rep, Distinct, SpliceMemory;
  }

  lemma TakesBoth(m: Memory, t: nat, th: Thread, sub: Tree)
    requires Alone(m, th, sub) && th.pc == LockBoth && CanStep(m, th) && m.hist != []
    ensures GotOn(m, th, sub, DeleteStep(m, t, th).0, DeleteStep(m, t, th).1, sub)
  {
    hide Quiet, Rep, Distinct, SpliceMemory;
  }

  lemma DeletesAlone(m: Memory, t: nat, th: Thread, sub: Tree)
    requires Alone(m, th, sub) && IsDelete(th.pc) && CanStep(m, th) && m.hist != []
    ensures GotOn(m, th, sub, DeleteStep(m, t, th).0, DeleteStep(m, t, th).1, sub)
  {
    if th.pc == LockGrand {
      hide *;
      TakesGrand(m, t, th, sub);
    } else if th.pc == LockBoth {
      hide *;
      TakesBoth(m, t, th, sub);
    } else {
      Finishes(m, t, th, sub);
    }
  }

  /** With both locks taken nothing is in the way. */
  lemma Finishes(m: Memory, t: nat, th: Thread, sub: Tree)
    requires th.pc == ReadSibling || th.pc == SpliceWrite || th.pc == UnlockGrand
    requires CanStep(m, th) && m.hist != []
    ensures GotOn(m, th, sub, DeleteStep(m, t, th).0, DeleteStep(m, t, th).1, sub)
  {
    hide AloneParse, UpToDate, TryLock, TryLockBoth, Splice, Depth;
  }

  /** Every step of a call that runs alone brings it nearer to its end. */
  lemma AloneStep(m: Memory, t: nat, th: Thread, sub: Tree) returns (sub': Tree)
    requires MemInv(m) && ThreadInv(m, t, th) && Alone(m, th, sub) && th.pc != Done && CanStep(m, th)
    ensures GotOn(m, th, sub, Advance(m, t, th).0, Advance(m, t, th).1, sub')
  {
    assert GoodCall(th.op, th.k) && th.pc != Idle;
    MemLocks(m);
    hide MemInv, ThreadInv, CanStep, Alone, GotOn, ParseStep, InsertStep, DeleteStep, GoodCall;
    sub' := sub;
    if th.pc == Start {
      sub' := Last(m.hist);
      StartsAlone(m, th, sub);
    } else if th.pc == Walk {
      sub' := Toward(sub, th.k);
      WalksAlone(m, th, sub);
    } else if th.pc == ReadVer {
      ReadsAlone(m, th, sub);
    } else if th.pc == ReadChild {
      sub' := ChoosesAlone(m, th, sub);
    } else if IsInsert(th.pc) {
      InsertsAlone(m, t, th, sub);
    } else {
      DeletesAlone(m, t, th, sub);
    }
  }

  // ----- runs

  /** From state b to state e only thread t takes steps. */
  ghost predicate RunsAlone(run: seq<State>, b: nat, e: nat, t: nat) {
    && b <= e < |run| && t < |run[b].threads|
    && forall j :: b <= j < e ==> t < |run[j].threads| && ThreadStep(run[j], t, run[j + 1])
  }

  /** Between b and e the call of thread t reaches its end, without going back to the start. */
  ghost predicate Returns(run: seq<State>, b: nat, e: nat, t: nat) {
    exists j: nat :: b <= j <= e && DoneAt(run, j, t) && forall i :: b < i <= j ==> !RetriesAt(run, i, t)
  }

  ghost predicate DoneAt(run: seq<State>, j: nat, t: nat) {
    j < |run| && t < |run[j].threads| && run[j].threads[t].pc == Done
  }

  ghost predicate RetriesAt(run: seq<State>, i: nat, t: nat) {
    i < |run| && t < |run[i].threads| && run[i].threads[t].pc == Start
  }

  lemma StepTaken(s: State, t: nat, s': State)
    requires t < |s.threads| && ThreadStep(s, t, s') && s.threads[t].pc != Idle
    ensures CanStep(s.mem, s.threads[t])
    ensures t < |s'.threads| && (s'.mem, s'.threads[t]) == Advance(s.mem, t, s.threads[t])
  {
    hide CanStep, Advance, NoWrap;
  }

  lemma {:induction false} AloneGoesOn(run: seq<State>, b: nat, e: nat, t: nat, sub: Tree)
    requires Run(run) && RunsAlone(run, b, e, t)
    requires var s := run[b]; Alone(s.mem, s.threads[t], sub) && s.mem.hist != [] && Left(s.mem, s.threads[t], sub) <= e - b
    ensures Returns(run, b, e, t)
    decreases e - b
  {
    var s := run[b];
    if s.threads[t].pc == Done {
      assert DoneAt(run, b, t);
    } else {
      RunInv(run, b);
      assert MemInv(s.mem) && ThreadInv(s.mem, t, s.threads[t]) && s.threads[t].pc != Idle;
      LeftPositive(s.mem, s.threads[t], sub);
      assert ThreadStep(s, t, run[b + 1]);
      hide Run, Inv, MemInv, ThreadInv, ThreadStep, Alone, Left, CanStep, Advance;
      StepTaken(s, t, run[b + 1]);
      var sub' := AloneStep(s.mem, t, s.threads[t], sub);
      assert RunsAlone(run, b + 1, e, t);
      AloneGoesOn(run, b + 1, e, t, sub');
      var j: nat :| b + 1 <= j <= e && DoneAt(run, j, t) && forall i :: b + 1 < i <= j ==> !RetriesAt(run, i, t);
      assert !RetriesAt(run, b + 1, t);
    }
  }

  lemma LeftPositive(m: Memory, th: Thread, sub: Tree)
    requires m.hist != [] && Alone(m, th, sub) && th.pc != Done
    ensures Left(m, th, sub) > 0
  {
    hide Quiet, Rep, Distinct;
  }

  lemma QuietTree(run: seq<State>, b: nat)
    requires Run(run) && b < |run|
    requires forall u :: 0 <= u < |run[b].threads| ==> !Takes(run[b].threads[u])
    ensures Quiet(run[b].mem)
  {
    var s := run[b];
    RunInv(run, b);
    assert MemInv(s.mem) && RootOk(Last(s.mem.hist));
    AlwaysASearchTree(run, b, TreeAt(run, b));
    hide Run, Inv, MemInv, Rep, Distinct, Ordered;
    forall a | a in Ids(Last(s.mem.hist)) ensures a in s.mem.locks && Open(s.mem.locks[a]) {
      NothingLeftLocked(run, b, a, false);
      NothingLeftLocked(run, b, a, true);
    }
  }

  /** A call that runs alone, from a state in which no lock is held, returns without a retry, within twice the
      length of its search path and six steps. */
  lemma AloneReturns(run: seq<State>, b: nat, e: nat, t: nat)
    requires Run(run) && RunsAlone(run, b, e, t) && run[b].threads[t].pc == Start
    requires forall u :: 0 <= u < |run[b].threads| ==> !Takes(run[b].threads[u])
    requires run[b].mem.hist != [] && e - b >= 2 * Depth(TreeAt(run, b), run[b].threads[t].k) + 6
    ensures Returns(run, b, e, t)
  {
    hide Run;
    QuietTree(run, b);
    AloneGoesOn(run, b, e, t, TreeAt(run, b));
  }
}
