/** The CLH queue lock (src/clh.c, include/lock_if.h): a thread spins on the qnode of the thread before it, and
    on release takes that qnode over for its next acquisition.

    One step is one shared access. arrivals and entries log who swapped into the tail and who entered, and chain
    lists the qnodes of the lock from the one that is (or was last) released to the tail.
 */
module Clh {
  import opened Counting

  type Qnode = nat

  datatype Pc = Idle | SetLocked | Swap | Spin | Critical | Adopt

  /** clh_local_p of one thread; myPred is read only between the swap and the adoption. */
  datatype Thread = Thread(pc: Pc, myQnode: Qnode, myPred: Qnode)

  datatype State = State(tail: Qnode, locked: seq<bool>, threads: seq<Thread>,
                         queue: seq<nat>, chain: seq<Qnode>, arrivals: seq<nat>, entries: seq<nat>)

  /** init_alloc_clh and init_clh_thread: one qnode per thread and one in the lock. */
  predicate Init(s: State) {
    var n := |s.threads|;
    && s.tail == n && |s.locked| == n + 1 && (forall q :: 0 <= q <= n ==> !s.locked[q])
    && (forall t :: 0 <= t < n ==> s.threads[t].pc == Idle && s.threads[t].myQnode == t)
    && s.queue == [] && s.chain == [n] && s.arrivals == [] && s.entries == []
  }

  function Set(s: State, t: nat, th: Thread): State
    requires t < |s.threads|
  {
    s.(threads := s.threads[t := th])
  }

  predicate CanStep(s: State, t: nat) {
    && t < |s.threads| && s.threads[t].myQnode < |s.locked|
    && (s.threads[t].pc.Spin? ==> s.threads[t].myPred < |s.locked|)
    && (s.threads[t].pc.Critical? ==> s.queue != [] && s.chain != [])
  }

  /** clh_acquire, then clh_release, then the assignment of UNLOCK. */
  function Step(s: State, t: nat): State
    requires CanStep(s, t)
  {
    var th := s.threads[t];
    match th.pc
    case Idle => Set(s, t, th.(pc := SetLocked))
    case SetLocked => Set(s, t, th.(pc := Swap)).(locked := s.locked[th.myQnode := true])
    case Swap =>
      Set(s, t, th.(pc := Spin, myPred := s.tail)).(
        tail := th.myQnode, queue := s.queue + [t], chain := s.chain + [th.myQnode], arrivals := s.arrivals + [t])
    case Spin => if s.locked[th.myPred] then s else Set(s, t, th.(pc := Critical)).(entries := s.entries + [t])
    case Critical =>
      Set(s, t, th.(pc := Adopt)).(locked := s.locked[th.myQnode := false], queue := s.queue[1..], chain := s.chain[1..])
    case Adopt => Set(s, t, th.(pc := Idle, myQnode := th.myPred))
  }

  predicate Next(s: State, s': State) {
    exists t :: 0 <= t < |s.threads| && CanStep(s, t) && s' == Step(s, t)
  }

  // ----- the invariant

  predicate Queued(pc: Pc) {
    pc.Spin? || pc.Critical?
  }

  /** The qnode that a thread outside the queue may use next. */
  function Own(th: Thread): Qnode {
    if th.pc.Adopt? then th.myPred else th.myQnode
  }

  /** Position i of the queue: its qnode is locked and is what the next one spins on. */
  predicate PlaceOk(s: State, i: nat)
    requires |s.chain| == |s.queue| + 1 && i < |s.queue|
  {
    var t := s.queue[i];
    && t < |s.threads| && Queued(s.threads[t].pc)
    && s.threads[t].myQnode == s.chain[i + 1] && s.threads[t].myPred == s.chain[i]
    && s.chain[i + 1] < |s.locked| && s.locked[s.chain[i + 1]]
    && (s.threads[t].pc.Critical? ==> i == 0)
  }

  predicate ChainOk(s: State) {
    && |s.chain| == |s.queue| + 1 && s.tail == s.chain[|s.queue|]
    && s.chain[0] < |s.locked| && !s.locked[s.chain[0]]
    && Distinct(s.chain) && Distinct(s.queue)
    && forall i :: 0 <= i < |s.queue| ==> PlaceOk(s, i)
  }

  /** A thread is in the queue exactly while it spins or is inside; outside it owns a qnode of its own. */
  predicate ThreadOk(s: State, t: nat)
    requires t < |s.threads|
  {
    var th := s.threads[t];
    && (Queued(th.pc) <==> t in s.queue)
    && (!Queued(th.pc) ==> Own(th) < |s.locked| && Own(th) !in s.chain)
    && th.myQnode < |s.locked|
    && (th.pc.Swap? ==> s.locked[th.myQnode])
  }

  predicate OwnersDiffer(s: State) {
    forall t, u :: 0 <= t < u < |s.threads| && !Queued(s.threads[t].pc) && !Queued(s.threads[u].pc) ==>
      Own(s.threads[t]) != Own(s.threads[u])
  }

  /** Who has entered so far: those that are through, and the one inside. */
  predicate OrderOk(s: State) {
    && |s.queue| <= |s.arrivals| && s.arrivals[|s.arrivals| - |s.queue|..] == s.queue
    && s.entries == s.arrivals[..|s.arrivals| - |s.queue| + (if s.queue != [] && s.queue[0] < |s.threads| && s.threads[s.queue[0]].pc.Critical? then 1 else 0)]
  }

  predicate Inv(s: State) {
    && ChainOk(s) && (forall t :: 0 <= t < |s.threads| ==> ThreadOk(s, t)) && OwnersDiffer(s) && OrderOk(s)
  }

  lemma InitInv(s: State)
    requires Init(s)
    ensures Inv(s)
  {
  }

  /** Only the first in the queue spins on a qnode that is not locked. */
  lemma OnlyFirstEnters(s: State, t: nat)
    requires Inv(s) && t < |s.threads| && s.threads[t].pc.Spin? && s.threads[t].myPred < |s.locked|
    ensures !s.locked[s.threads[t].myPred] <==> s.queue != [] && s.queue[0] == t
  {
    assert ThreadOk(s, t);
    var i :| 0 <= i < |s.queue| && s.queue[i] == t;
    assert PlaceOk(s, i);
    if i > 0 {
      assert PlaceOk(s, i - 1);
    }
  }

  /** Steps that touch only the thread itself and its own qnode. */
  lemma PrivateInv(s: State, t: nat)
    requires Inv(s) && CanStep(s, t) && (s.threads[t].pc.Idle? || s.threads[t].pc.SetLocked? || s.threads[t].pc.Adopt?)
    ensures Inv(Step(s, t))
  {
    var s' := Step(s, t);
    assert ThreadOk(s, t);
    forall i | 0 <= i < |s'.queue| ensures PlaceOk(s', i) {
      assert PlaceOk(s, i);
    }
    forall u | 0 <= u < |s'.threads| ensures ThreadOk(s', u) {
      assert ThreadOk(s, u);
    }
    if s.queue != [] {
      assert PlaceOk(s, 0);
    }
  }

  lemma SwapInv(s: State, t: nat)
    requires Inv(s) && CanStep(s, t) && s.threads[t].pc.Swap?
    ensures Inv(Step(s, t))
  {
    var s' := Step(s, t);
    assert ThreadOk(s, t);
    forall i | 0 <= i < |s'.queue| ensures PlaceOk(s', i) {
      if i < |s.queue| {
        assert PlaceOk(s, i);
      }
    }
    forall u | 0 <= u < |s'.threads| ensures ThreadOk(s', u) {
      assert ThreadOk(s, u);
    }
    if s.queue != [] {
      assert PlaceOk(s, 0);
    }
  }

  lemma SpinInv(s: State, t: nat)
    requires Inv(s) && CanStep(s, t) && s.threads[t].pc.Spin?
    ensures Inv(Step(s, t))
  {
    var s' := Step(s, t);
    OnlyFirstEnters(s, t);
    forall i | 0 <= i < |s'.queue| ensures PlaceOk(s', i) {
      assert PlaceOk(s, i);
    }
    forall u | 0 <= u < |s'.threads| ensures ThreadOk(s', u) {
      assert ThreadOk(s, u);
    }
  }

  /** What Inv says of the thread inside: it is first in the queue. */
  lemma CriticalIsFirst(s: State, t: nat)
    requires Inv(s) && t < |s.threads| && s.threads[t].pc.Critical?
    ensures s.queue != [] && s.queue[0] == t && PlaceOk(s, 0)
  {
    assert ThreadOk(s, t);
    var k :| 0 <= k < |s.queue| && s.queue[k] == t;
    assert PlaceOk(s, k);
  }

  /** Releasing: the thread's qnode becomes the start of the chain. */
  lemma ReleaseChain(s: State, t: nat)
    requires Inv(s) && CanStep(s, t) && s.threads[t].pc.Critical?
    ensures ChainOk(Step(s, t)) && OrderOk(Step(s, t))
  {
    var s' := Step(s, t);
    CriticalIsFirst(s, t);
    hide Inv;
    assert ChainOk(s) && OrderOk(s);
    forall i | 0 <= i < |s'.queue| ensures PlaceOk(s', i) {
      assert PlaceOk(s, i + 1);
    }
    if s'.queue != [] {
      assert PlaceOk(s, 1);
    }
    var n := |s.arrivals| - |s.queue|;
    assert s'.queue == s.arrivals[n..][1..] == s.arrivals[n + 1..];
  }

  /** And the qnode before it, which no one else refers to any more, is the thread's to keep. */
  lemma ReleaseInv(s: State, t: nat)
    requires Inv(s) && CanStep(s, t) && s.threads[t].pc.Critical?
    ensures Inv(Step(s, t))
  {
    var s' := Step(s, t);
    CriticalIsFirst(s, t);
    ReleaseChain(s, t);
    assert ChainOk(s);
    TailMembers(s.chain, s.chain[0]);
    forall u | 0 <= u < |s'.threads| ensures ThreadOk(s', u) {
      hide OrderOk, OwnersDiffer;
      assert ThreadOk(s, u);
      TailMembers(s.queue, u);
    }
    assert OwnersDiffer(s') by {
      hide ChainOk, OrderOk;
      forall u | 0 <= u < |s'.threads| && u != t && !Queued(s.threads[u].pc) ensures Own(s.threads[u]) != s.chain[0] {
        assert ThreadOk(s, u);
      }
    }
  }

  lemma TailMembers<T(!new)>(q: seq<T>, u: T)
    requires q != [] && Distinct(q)
    ensures u in q[1..] <==> u in q && u != q[0]
  {
    assert q == [q[0]] + q[1..];
    assert forall i :: 0 <= i < |q[1..]| ==> q[1..][i] == q[i + 1] != q[0];
  }

  lemma StepInv(s: State, t: nat)
    requires Inv(s) && CanStep(s, t)
    ensures Inv(Step(s, t))
  {
    hide Inv, Step;
    match s.threads[t].pc
    case Idle => PrivateInv(s, t);
    case SetLocked => PrivateInv(s, t);
    case Swap => SwapInv(s, t);
    case Spin => SpinInv(s, t);
    case Critical => ReleaseInv(s, t);
    case Adopt => PrivateInv(s, t);
  }

  // ----- qnodes change hands

  /** The part a qnode plays: in the lock, or in the hands of one thread. */
  predicate InLock(s: State, q: Qnode) {
    q in s.chain
  }

  predicate OwnedBy(s: State, q: Qnode, t: nat) {
    t < |s.threads| && !Queued(s.threads[t].pc) && Own(s.threads[t]) == q
  }

  predicate HasPart(s: State, q: Qnode) {
    InLock(s, q) || exists t :: 0 <= t < |s.threads| && OwnedBy(s, q, t)
  }

  predicate AllHaveParts(s: State) {
    forall q :: 0 <= q < |s.locked| ==> HasPart(s, q)
  }

  lemma InitParts(s: State)
    requires Init(s)
    ensures AllHaveParts(s)
  {
    forall q | 0 <= q < |s.locked| ensures HasPart(s, q) {
      assert q < |s.threads| ==> OwnedBy(s, q, q);
    }
  }

  /** No step loses a qnode: the swap moves the thread's own one into the chain, and the release gives it the one
      that leaves the chain. */
  lemma StepParts(s: State, t: nat)
    requires Inv(s) && AllHaveParts(s) && CanStep(s, t)
    ensures AllHaveParts(Step(s, t))
  {
    var s' := Step(s, t);
    if s.threads[t].pc.Critical? {
      CriticalIsFirst(s, t);
    }
    hide Inv;
    forall q | 0 <= q < |s'.locked| ensures HasPart(s', q) {
      assert HasPart(s, q);
      if InLock(s, q) {
        var i :| 0 <= i < |s.chain| && s.chain[i] == q;
        if s.threads[t].pc.Critical? {
          assert if i == 0 then OwnedBy(s', q, t) else s'.chain[i - 1] == q;
        } else {
          assert s'.chain[i] == q;
        }
      } else {
        var u :| 0 <= u < |s.threads| && OwnedBy(s, q, u);
        if u == t && s.threads[t].pc.Swap? {
          assert s'.chain[|s.chain|] == q;
        } else {
          assert OwnedBy(s', q, u);
        }
      }
    }
  }

  // ----- over whole runs

  ghost predicate Run(run: seq<State>) {
    run != [] && Init(run[0]) && forall i :: 0 <= i < |run| - 1 ==> Next(run[i], run[i + 1])
  }

  lemma {:induction false} RunInv(run: seq<State>, i: nat)
    requires Run(run) && i < |run|
    ensures Inv(run[i]) && AllHaveParts(run[i])
  {
    if i == 0 {
      InitInv(run[0]);
      InitParts(run[0]);
    } else {
      RunInv(run, i - 1);
      assert Next(run[i - 1], run[i - 1 + 1]);
      hide Inv, Step, CanStep, Run, AllHaveParts;
      var t: nat :| 0 <= t < |run[i - 1].threads| && CanStep(run[i - 1], t) && run[i] == Step(run[i - 1], t);
      StepInv(run[i - 1], t);
      StepParts(run[i - 1], t);
    }
  }

  lemma MutualExclusion(run: seq<State>, i: nat, t: nat, u: nat)
    requires Run(run) && i < |run| && t < |run[i].threads| && u < |run[i].threads|
    requires run[i].threads[t].pc.Critical? && run[i].threads[u].pc.Critical?
    ensures t == u
  {
    RunInv(run, i);
    hide Run;
    var s := run[i];
    assert ThreadOk(s, t) && ThreadOk(s, u);
    var j :| 0 <= j < |s.queue| && s.queue[j] == t;
    var k :| 0 <= k < |s.queue| && s.queue[k] == u;
    assert PlaceOk(s, j) && PlaceOk(s, k);
  }

  /** First come, first served: the threads enter in the order in which they swapped. */
  lemma FirstComeFirstServed(run: seq<State>, i: nat)
    requires Run(run) && i < |run|
    ensures |run[i].entries| <= |run[i].arrivals| && run[i].entries == run[i].arrivals[..|run[i].entries|]
  {
    RunInv(run, i);
  }

  /** Although qnodes change hands, each always has exactly one part: it is in the lock (the tail, or what somebody
      spins on or holds the lock with), or exactly one thread outside the queue owns it. */
  lemma OnePartEach(run: seq<State>, i: nat, q: Qnode, t: nat, u: nat)
    requires Run(run) && i < |run| && q < |run[i].locked|
    ensures HasPart(run[i], q)
    ensures !(InLock(run[i], q) && OwnedBy(run[i], q, t))
    ensures OwnedBy(run[i], q, t) && OwnedBy(run[i], q, u) ==> t == u
    ensures run[i].tail in run[i].chain && Distinct(run[i].chain)
  {
    RunInv(run, i);
    hide Run;
    var s := run[i];
    if OwnedBy(s, q, t) {
      assert ThreadOk(s, t);
    }
  }

  /** Nobody waits for nothing: while threads are queued, the first of them is inside or can enter at once. */
  lemma FirstCanEnter(run: seq<State>, i: nat)
    requires Run(run) && i < |run| && run[i].queue != []
    ensures var s := run[i];
            && s.queue[0] < |s.threads| && CanStep(s, s.queue[0])
            && (s.threads[s.queue[0]].pc.Critical? || Step(s, s.queue[0]).threads[s.queue[0]].pc.Critical?)
  {
    RunInv(run, i);
    hide Run;
    assert PlaceOk(run[i], 0);
  }

  /** The step after pc, round and round */
  function Following(pc: Pc): Pc {
    match pc
    case Idle => SetLocked
    case SetLocked => Swap
    case Swap => Spin
    case Spin => Critical
    case Critical => Adopt
    case Adopt => Idle
  }

  predicate IsFirst(s: State, t: nat) {
    s.queue != [] && s.queue[0] == t
  }

  /** Every thread can take its step, and goes on with it exactly if it does not spin behind another one. */
  lemma StaysIffBehind(run: seq<State>, i: nat, t: nat)
    requires Run(run) && i < |run| && t < |run[i].threads|
    ensures var s := run[i];
            && CanStep(s, t)
            && Step(s, t).threads[t].pc ==
                 if s.threads[t].pc.Spin? && !IsFirst(s, t) then Spin else Following(s.threads[t].pc)
  {
    RunInv(run, i);
    hide Run;
    var s := run[i];
    assert ThreadOk(s, t);
    if s.threads[t].pc.Spin? {
      var k :| 0 <= k < |s.queue| && s.queue[k] == t;
      assert PlaceOk(s, k) && (k > 0 ==> PlaceOk(s, k - 1));
      OnlyFirstEnters(s, t);
    } else if s.threads[t].pc.Critical? {
      CriticalIsFirst(s, t);
    }
  }
}
