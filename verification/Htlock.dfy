/** The hierarchical ticket lock (src/htlock.c): tickets for one global lock are handed out per node, and
    inside a node the lock is passed on by counting local tickets down from NB_TICKETS_LOCAL.

    One step is one access to a shared field. Beside the fields of a node stand the threads that play a
    part there, which the program does not store.
 */
module Htlock {
  import opened Options
  import opened Counting

  const NB_TICKETS_LOCAL := 128

  datatype Pc =
    | Idle
    | Want                    // about to take a local ticket
    | WaitLocal(k: int)       // spin until cur == k
    | WaitCur                 // got ticket -1: spin until cur == NB_TICKETS_LOCAL
    | SetNxt                  // hand out local tickets again
    | TakeGlobal              // take a global ticket
    | WaitGlobal(g: nat)      // spin until global cur == g
    | Critical
    | RelCas(c: int)          // cur was read; compare-and-swap nxt from it to 0
    | RelLocal(c: int)        // pass the lock on inside the node
    | RelSetCur               // close the node's batch
    | RelInc                  // pass the lock on to the next global ticket

  datatype Thread = Thread(node: nat, pc: Pc)

  /** nxt and cur are the program's. A batch is open from the store to nxt until the compare-and-swap that
      ends it; owner is the thread inside the batch that has the node's turn, holder says who waits for which
      ticket, waiter got ticket -1, gticket is the batch's global ticket, served counts its critical sections. */
  datatype Node = Node(nxt: int, cur: int, open: bool, owner: Option<nat>, holder: map<int, nat>,
                       waiter: Option<nat>, gticket: Option<nat>, served: nat)

  /** closing is the thread that has ended a batch and not yet passed the global lock on. */
  datatype State = State(gnxt: nat, gcur: nat, closing: Option<nat>, nodes: seq<Node>, threads: seq<Thread>)

  const FRESH := Node(0, NB_TICKETS_LOCAL, false, None, map[], None, None, 0)

  /** init_htlock. members lists the threads of each node: at most NB_TICKETS_LOCAL + 1. */
  predicate Config(s: State, members: seq<seq<nat>>) {
    && |members| == |s.nodes|
    && (forall n :: 0 <= n < |members| ==> |members[n]| <= NB_TICKETS_LOCAL + 1)
    && (forall t :: 0 <= t < |s.threads| ==> s.threads[t].node < |members| && t in members[s.threads[t].node])
  }

  predicate Init(s: State) {
    && s.gnxt == 0 && s.gcur == 0 && s.closing == None
    && (forall n :: 0 <= n < |s.nodes| ==> s.nodes[n] == FRESH)
    && (forall t :: 0 <= t < |s.threads| ==> s.threads[t].pc == Idle && s.threads[t].node < |s.nodes|)
  }

  function At(s: State, t: nat, pc: Pc, x: Node): State
    requires t < |s.threads| && s.threads[t].node < |s.nodes|
  {
    s.(threads := s.threads[t := s.threads[t].(pc := pc)], nodes := s.nodes[s.threads[t].node := x])
  }

  /** htlock_lock, one access at a time. */
  function LockStep(s: State, t: nat): State
    requires t < |s.threads| && s.threads[t].node < |s.nodes|
  {
    var x := s.nodes[s.threads[t].node];
    match s.threads[t].pc
    case Idle => At(s, t, Want, x)
    case Want =>
      var v := x.nxt - 1;
      if v < -1 then At(s, t, Want, x.(nxt := v))
      else if v >= 0 then At(s, t, WaitLocal(v), x.(nxt := v, holder := x.holder[v := t]))
      else At(s, t, WaitCur, x.(nxt := v, waiter := Some(t)))
    case WaitLocal(k) =>
      if x.cur == k then At(s, t, Critical, x.(owner := Some(t), holder := x.holder - {k}, served := x.served + 1)) else s
    case WaitCur => if x.cur == NB_TICKETS_LOCAL then At(s, t, SetNxt, x) else s
    case SetNxt => At(s, t, TakeGlobal, x.(nxt := NB_TICKETS_LOCAL, open := true, owner := Some(t), waiter := None, served := 0))
    case TakeGlobal => At(s, t, WaitGlobal(s.gnxt), x.(gticket := Some(s.gnxt))).(gnxt := s.gnxt + 1)
    case WaitGlobal(g) => if s.gcur == g then At(s, t, Critical, x.(served := x.served + 1)) else s
    case _ => s
  }

  /** htlock_release, one access at a time; it starts by reading cur. */
  function ReleaseStep(s: State, t: nat): State
    requires t < |s.threads| && s.threads[t].node < |s.nodes|
  {
    var x := s.nodes[s.threads[t].node];
    match s.threads[t].pc
    case Critical => At(s, t, RelCas(x.cur), x)
    case RelCas(c) =>
      var x1 := if x.nxt == c then x.(nxt := 0) else x;
      if c == 0 || c == x.nxt then At(s, t, RelSetCur, x1.(open := false, owner := None, gticket := None)).(closing := Some(t))
      else At(s, t, RelLocal(c), x1)
    case RelLocal(c) => At(s, t, Idle, x.(cur := c - 1, owner := None))
    case RelSetCur => At(s, t, RelInc, x.(cur := NB_TICKETS_LOCAL))
    case RelInc => At(s, t, Idle, x).(gcur := s.gcur + 1, closing := None)
    case _ => s
  }

  predicate Locking(pc: Pc) {
    !pc.Critical? && !pc.RelCas? && !pc.RelLocal? && !pc.RelSetCur? && !pc.RelInc?
  }

  function Step(s: State, t: nat): State
    requires t < |s.threads| && s.threads[t].node < |s.nodes|
  {
    if Locking(s.threads[t].pc) then LockStep(s, t) else ReleaseStep(s, t)
  }

  predicate Next(s: State, s': State) {
    exists t :: 0 <= t < |s.threads| && s.threads[t].node < |s.nodes| && s' == Step(s, t)
  }

  // ----- the invariant

  /** The thread has the lock: from entering the critical section until it has decided how to release. */
  predicate Inside(pc: Pc) {
    pc.Critical? || pc.RelCas? || pc.RelLocal?
  }

  predicate Owning(pc: Pc) {
    Inside(pc) || pc.TakeGlobal? || pc.WaitGlobal?
  }

  /** A thread's position and its part at its node are the same thing. */
  predicate ThreadOk(s: State, t: nat)
    requires t < |s.threads|
  {
    var th := s.threads[t];
    && th.node < |s.nodes|
    && var x := s.nodes[th.node];
       && (Owning(th.pc) <==> x.owner == Some(t))
       && (th.pc.WaitLocal? ==> th.pc.k in x.holder && x.holder[th.pc.k] == t)
       && (th.pc.WaitCur? || th.pc.SetNxt? <==> x.waiter == Some(t))
       && (th.pc.RelSetCur? || th.pc.RelInc? <==> s.closing == Some(t))
       && (th.pc.SetNxt? ==> !x.open && x.cur == NB_TICKETS_LOCAL)
       && (th.pc.TakeGlobal? ==> x.gticket == None)
       && (th.pc.WaitGlobal? ==> x.gticket == Some(th.pc.g))
       && (th.pc.TakeGlobal? || th.pc.WaitGlobal? ==> x.cur == NB_TICKETS_LOCAL && x.served == 0)
       && (Inside(th.pc) ==> x.gticket == Some(s.gcur) && x.served == NB_TICKETS_LOCAL + 1 - x.cur)
       && (th.pc.RelCas? ==> th.pc.c == x.cur)
       && (th.pc.RelLocal? ==> th.pc.c == x.cur && x.cur > 0 && x.nxt < x.cur)
  }

  /** The parts at a node are played by threads of that node. */
  predicate PartsOk(s: State, n: nat)
    requires n < |s.nodes|
  {
    var x := s.nodes[n];
    && (x.owner.Some? ==> x.owner.value < |s.threads| && s.threads[x.owner.value].node == n && Owning(s.threads[x.owner.value].pc))
    && (x.waiter.Some? ==> x.waiter.value < |s.threads| && s.threads[x.waiter.value].node == n
                           && (s.threads[x.waiter.value].pc.WaitCur? || s.threads[x.waiter.value].pc.SetNxt?))
    && (forall k :: k in x.holder ==>
          x.holder[k] < |s.threads| && s.threads[x.holder[k]] == Thread(n, WaitLocal(k)))
  }

  /** Which tickets are out: exactly those from nxt up to cur, cur itself only while its turn has not been taken. */
  ghost predicate TicketsOk(x: Node) {
    && (x.nxt < 0 <==> x.waiter.Some?)
    && (forall k :: k in x.holder <==> x.open && 0 <= k && x.nxt <= k && (k < x.cur || (k == x.cur && x.owner.None?)))
    && (x.open ==> 0 <= x.cur <= NB_TICKETS_LOCAL && x.nxt <= x.cur)
    && (x.open && x.cur == NB_TICKETS_LOCAL ==> x.owner.Some? && x.nxt >= 0)
    && (x.open && x.owner.None? ==> x.served == NB_TICKETS_LOCAL - x.cur)
    && (!x.open ==> x.owner.None? && x.gticket.None? && x.nxt <= 0)
  }

  ghost predicate NodeOk(s: State, n: nat)
    requires n < |s.nodes|
  {
    var x := s.nodes[n];
    && TicketsOk(x)
    && (x.open && x.owner.None? ==> x.gticket == Some(s.gcur))
    && (!x.open && x.cur != NB_TICKETS_LOCAL ==>
          s.closing.Some? && s.closing.value < |s.threads| && s.threads[s.closing.value] == Thread(n, RelSetCur))
  }

  /** Global tickets: each batch that has one has its own, and every ticket still out belongs to someone. */
  ghost predicate GlobalOk(s: State) {
    && s.gcur <= s.gnxt
    && (s.closing.Some? ==> s.gcur < s.gnxt && s.closing.value < |s.threads|)
    && (forall n :: 0 <= n < |s.nodes| && s.nodes[n].gticket.Some? ==> s.gcur <= s.nodes[n].gticket.value < s.gnxt)
    && (forall n, m :: 0 <= n < m < |s.nodes| && s.nodes[n].gticket.Some? ==> s.nodes[n].gticket != s.nodes[m].gticket)
    && (s.closing.Some? ==> forall n :: 0 <= n < |s.nodes| ==> s.nodes[n].gticket != Some(s.gcur))
    && (forall g :: s.gcur <= g < s.gnxt ==> (g == s.gcur && s.closing.Some?) || HasTicket(s, g))
  }

  ghost predicate HasTicket(s: State, g: nat) {
    exists n :: 0 <= n < |s.nodes| && s.nodes[n].gticket == Some(g)
  }

  ghost predicate Inv(s: State) {
    && (forall t :: 0 <= t < |s.threads| ==> ThreadOk(s, t))
    && (forall n :: 0 <= n < |s.nodes| ==> PartsOk(s, n) && NodeOk(s, n))
    && GlobalOk(s)
  }

  lemma InitInv(s: State)
    requires Init(s)
    ensures Inv(s)
  {
  }

  /** While the first of a batch has its turn, at most NB_TICKETS_LOCAL - 1 others of the node can wait, so the
      tickets do not run out. */
  lemma TicketsLeft(s: State, members: seq<seq<nat>>, t: nat)
    requires Inv(s) && Config(s, members) && t < |s.threads| && s.threads[t].pc.Want?
    requires var x := s.nodes[s.threads[t].node]; x.open && x.cur == NB_TICKETS_LOCAL
    ensures s.nodes[s.threads[t].node].nxt > 0
  {
    var n := s.threads[t].node;
    var x := s.nodes[n];
    assert ThreadOk(s, t) && PartsOk(s, n) && NodeOk(s, n);
    if x.nxt <= 0 {
      TooManyThreads(s, n, t, members[n]);
    }
  }

  /** With all tickets out before the first of them is served, the node would have two threads more than tickets. */
  lemma TooManyThreads(s: State, n: nat, t: nat, all: seq<nat>)
    requires n < |s.nodes| && PartsOk(s, n) && t < |s.threads| && s.threads[t].pc.Want? && t in all
    requires var x := s.nodes[n];
             && x.owner.Some? && (forall k :: 0 <= k < NB_TICKETS_LOCAL ==> k in x.holder)
    requires forall u :: 0 <= u < |s.threads| && s.threads[u].node == n ==> u in all
    ensures |all| >= NB_TICKETS_LOCAL + 2
  {
    var waiting := Waiters(s, n, NB_TICKETS_LOCAL);
    var q := [t, s.nodes[n].owner.value] + waiting;
    forall i, j | 0 <= i < j < |q| ensures q[i] != q[j] {
      assert i >= 2 ==> q[i] == waiting[i - 2];
      assert j >= 2 ==> q[j] == waiting[j - 2];
    }
    forall i | 0 <= i < |q| ensures q[i] in all {
      assert i >= 2 ==> q[i] == waiting[i - 2];
    }
    Pigeonhole(q, all);
  }

  /** The threads that wait for tickets 0 to k - 1. */
  lemma {:induction false} Waiters(s: State, n: nat, k: nat) returns (q: seq<nat>)
    requires n < |s.nodes| && PartsOk(s, n) && forall j :: 0 <= j < k ==> j in s.nodes[n].holder
    ensures |q| == k && forall j :: 0 <= j < k ==> q[j] < |s.threads| && s.threads[q[j]] == Thread(n, WaitLocal(j))
  {
    q := [];
    if k > 0 {
      assert k - 1 in s.nodes[n].holder;
      q := Waiters(s, n, k - 1);
      q := q + [s.nodes[n].holder[k - 1]];
    }
  }

  ghost predicate NodeInv(s: State, n: nat)
    requires n < |s.nodes|
  {
    && PartsOk(s, n) && NodeOk(s, n)
    && forall t :: 0 <= t < |s.threads| && s.threads[t].node == n ==> ThreadOk(s, t)
  }

  /** A step at node n, without touching the global cur, leaves the other nodes alone. */
  lemma Elsewhere(s: State, s': State, n: nat)
    requires Inv(s) && n < |s.nodes| == |s'.nodes| && |s'.threads| == |s.threads| && s'.gcur == s.gcur
    requires forall m :: 0 <= m < |s.nodes| && m != n ==> s'.nodes[m] == s.nodes[m]
    requires forall u :: 0 <= u < |s.threads| ==> s'.threads[u].node == s.threads[u].node
    requires forall u :: 0 <= u < |s.threads| && s.threads[u].node != n ==>
               s'.threads[u] == s.threads[u] && (s'.closing == Some(u) <==> s.closing == Some(u))
    requires NodeInv(s', n)
    ensures forall t :: 0 <= t < |s'.threads| ==> ThreadOk(s', t)
    ensures forall m :: 0 <= m < |s'.nodes| ==> PartsOk(s', m) && NodeOk(s', m)
  {
    forall u | 0 <= u < |s'.threads| ensures ThreadOk(s', u) {
      if s.threads[u].node != n {
        assert ThreadOk(s, u);
      }
    }
    forall m | 0 <= m < |s'.nodes| ensures PartsOk(s', m) && NodeOk(s', m) {
      if m != n {
        assert PartsOk(s, m) && NodeOk(s, m);
      }
    }
  }

  lemma GlobalSame(s: State, s': State)
    requires GlobalOk(s) && |s'.nodes| == |s.nodes| && |s'.threads| == |s.threads|
    requires s'.gnxt == s.gnxt && s'.gcur == s.gcur && s'.closing == s.closing
    requires forall n :: 0 <= n < |s.nodes| ==> s'.nodes[n].gticket == s.nodes[n].gticket
    ensures GlobalOk(s')
  {
    forall g | s.gcur <= g < s.gnxt ensures (g == s.gcur && s.closing.Some?) || HasTicket(s', g) {
      if HasTicket(s, g) {
        var n :| 0 <= n < |s.nodes| && s.nodes[n].gticket == Some(g);
        assert s'.nodes[n].gticket == Some(g);
      }
    }
  }

  /** Steps that change neither a global counter nor a node's global ticket. */
  predicate Local(pc: Pc) {
    !pc.TakeGlobal? && !pc.RelCas? && !pc.RelInc?
  }

  lemma LocalInv(s: State, t: nat)
    requires Inv(s) && t < |s.threads| && s.threads[t].node < |s.nodes| && Local(s.threads[t].pc)
    requires NodeInv(Step(s, t), s.threads[t].node)
    ensures Inv(Step(s, t))
  {
    var s', n := Step(s, t), s.threads[t].node;
    hide ThreadOk, PartsOk, NodeOk, GlobalOk, NodeInv;
    Elsewhere(s, s', n);
    GlobalSame(s, s');
  }

  lemma IdleNode(s: State, t: nat)
    requires Inv(s) && t < |s.threads| && s.threads[t].node < |s.nodes| && s.threads[t].pc.Idle?
    ensures NodeInv(Step(s, t), s.threads[t].node)
  {
    var s', n := Step(s, t), s.threads[t].node;
    assert ThreadOk(s, t) && NodeOk(s, n) && PartsOk(s, n);
    forall u | 0 <= u < |s'.threads| && s'.threads[u].node == n ensures ThreadOk(s', u) {
      assert ThreadOk(s, u);
    }
  }

  /** A thread that takes a ticket changes nobody else's part. */
  lemma WantNode(s: State, members: seq<seq<nat>>, t: nat)
    requires Inv(s) && Config(s, members) && t < |s.threads| && s.threads[t].node < |s.nodes| && s.threads[t].pc.Want?
    ensures NodeInv(Step(s, t), s.threads[t].node)
  {
    var s', n := Step(s, t), s.threads[t].node;
    assert ThreadOk(s, t) && NodeOk(s, n) && PartsOk(s, n);
    if s.nodes[n].open && s.nodes[n].cur == NB_TICKETS_LOCAL {
      TicketsLeft(s, members, t);
    }
    hide PartsOk, NodeOk, ThreadOk, GlobalOk;
    WantParts(s, t);
    WantThreads(s, t);
  }

  lemma WantThreads(s: State, t: nat)
    requires Inv(s) && t < |s.threads| && s.threads[t].node < |s.nodes| && s.threads[t].pc.Want?
    ensures var s' := Step(s, t); forall u :: 0 <= u < |s'.threads| && s'.threads[u].node == s.threads[t].node ==> ThreadOk(s', u)
  {
    var s', n := Step(s, t), s.threads[t].node;
    assert ThreadOk(s, t) && NodeOk(s, n) && PartsOk(s, n);
    forall u | 0 <= u < |s'.threads| && s'.threads[u].node == n ensures ThreadOk(s', u) {
      assert ThreadOk(s, u);
    }
  }

  lemma WantParts(s: State, t: nat)
    requires Inv(s) && t < |s.threads| && s.threads[t].node < |s.nodes| && s.threads[t].pc.Want?
    requires var x := s.nodes[s.threads[t].node]; x.open && x.cur == NB_TICKETS_LOCAL ==> x.nxt > 0
    ensures PartsOk(Step(s, t), s.threads[t].node) && NodeOk(Step(s, t), s.threads[t].node)
  {
    var n := s.threads[t].node;
    assert ThreadOk(s, t) && NodeOk(s, n) && PartsOk(s, n);
  }

  lemma WaitLocalNode(s: State, t: nat)
    requires Inv(s) && t < |s.threads| && s.threads[t].node < |s.nodes| && s.threads[t].pc.WaitLocal?
    ensures NodeInv(Step(s, t), s.threads[t].node)
  {
    var s', n := Step(s, t), s.threads[t].node;
    assert ThreadOk(s, t) && NodeOk(s, n) && PartsOk(s, n);
    forall u | 0 <= u < |s'.threads| && s'.threads[u].node == n ensures ThreadOk(s', u) {
      assert ThreadOk(s, u);
    }
  }

  lemma WaitCurNode(s: State, t: nat)
    requires Inv(s) && t < |s.threads| && s.threads[t].node < |s.nodes| && s.threads[t].pc.WaitCur?
    ensures NodeInv(Step(s, t), s.threads[t].node)
  {
    var s', n := Step(s, t), s.threads[t].node;
    assert ThreadOk(s, t) && NodeOk(s, n) && PartsOk(s, n);
    forall u | 0 <= u < |s'.threads| && s'.threads[u].node == n ensures ThreadOk(s', u) {
      assert ThreadOk(s, u);
    }
  }

  lemma SetNxtNode(s: State, t: nat)
    requires Inv(s) && t < |s.threads| && s.threads[t].node < |s.nodes| && s.threads[t].pc.SetNxt?
    ensures NodeInv(Step(s, t), s.threads[t].node)
  {
    var s', n := Step(s, t), s.threads[t].node;
    assert ThreadOk(s, t) && NodeOk(s, n) && PartsOk(s, n);
    forall u | 0 <= u < |s'.threads| && s'.threads[u].node == n ensures ThreadOk(s', u) {
      assert ThreadOk(s, u);
    }
  }

  lemma WaitGlobalNode(s: State, t: nat)
    requires Inv(s) && t < |s.threads| && s.threads[t].node < |s.nodes| && s.threads[t].pc.WaitGlobal?
    ensures NodeInv(Step(s, t), s.threads[t].node)
  {
    var s', n := Step(s, t), s.threads[t].node;
    assert ThreadOk(s, t) && NodeOk(s, n) && PartsOk(s, n);
    forall u | 0 <= u < |s'.threads| && s'.threads[u].node == n ensures ThreadOk(s', u) {
      assert ThreadOk(s, u);
    }
  }

  lemma CriticalNode(s: State, t: nat)
    requires Inv(s) && t < |s.threads| && s.threads[t].node < |s.nodes| && s.threads[t].pc.Critical?
    ensures NodeInv(Step(s, t), s.threads[t].node)
  {
    var s', n := Step(s, t), s.threads[t].node;
    assert ThreadOk(s, t) && NodeOk(s, n) && PartsOk(s, n);
    forall u | 0 <= u < |s'.threads| && s'.threads[u].node == n ensures ThreadOk(s', u) {
      assert ThreadOk(s, u);
    }
  }

  lemma RelLocalNode(s: State, t: nat)
    requires Inv(s) && t < |s.threads| && s.threads[t].node < |s.nodes| && s.threads[t].pc.RelLocal?
    ensures NodeInv(Step(s, t), s.threads[t].node)
  {
    var s', n := Step(s, t), s.threads[t].node;
    assert ThreadOk(s, t) && NodeOk(s, n) && PartsOk(s, n);
    forall u | 0 <= u < |s'.threads| && s'.threads[u].node == n ensures ThreadOk(s', u) {
      assert ThreadOk(s, u);
    }
  }

  /** Whoever opens the node's next batch has to wait for the lock, so the late store to cur hurts nobody. */
  lemma RelSetCurNode(s: State, t: nat)
    requires Inv(s) && t < |s.threads| && s.threads[t].node < |s.nodes| && s.threads[t].pc.RelSetCur?
    ensures NodeInv(Step(s, t), s.threads[t].node)
  {
    var s', n := Step(s, t), s.threads[t].node;
    assert ThreadOk(s, t) && NodeOk(s, n) && PartsOk(s, n);
    if s.nodes[n].open {
      assert s.nodes[n].owner.Some? && ThreadOk(s, s.nodes[n].owner.value);
      assert s.nodes[n].cur == NB_TICKETS_LOCAL;
    }
    forall u | 0 <= u < |s'.threads| && s'.threads[u].node == n ensures ThreadOk(s', u) {
      assert ThreadOk(s, u);
    }
  }

  lemma TakeGlobalInv(s: State, t: nat)
    requires Inv(s) && t < |s.threads| && s.threads[t].node < |s.nodes| && s.threads[t].pc.TakeGlobal?
    ensures Inv(Step(s, t))
  {
    var s', n := Step(s, t), s.threads[t].node;
    assert ThreadOk(s, t) && NodeOk(s, n) && PartsOk(s, n);
    forall u | 0 <= u < |s'.threads| && s'.threads[u].node == n ensures ThreadOk(s', u) {
      assert ThreadOk(s, u);
    }
    Elsewhere(s, s', n);
    hide PartsOk, NodeOk;
    TakeGlobalGlobal(s, t);
  }

  lemma TakeGlobalGlobal(s: State, t: nat)
    requires Inv(s) && t < |s.threads| && s.threads[t].node < |s.nodes| && s.threads[t].pc.TakeGlobal?
    ensures GlobalOk(Step(s, t))
  {
    var s', n := Step(s, t), s.threads[t].node;
    assert ThreadOk(s, t);
    forall g | s.gcur <= g < s'.gnxt ensures (g == s.gcur && s.closing.Some?) || HasTicket(s', g) {
      if g == s.gnxt {
        assert s'.nodes[n].gticket == Some(g);
      } else if HasTicket(s, g) {
        var m :| 0 <= m < |s.nodes| && s.nodes[m].gticket == Some(g);
        assert s'.nodes[m].gticket == Some(g);
      }
    }
  }

  lemma RelCasNode(s: State, t: nat)
    requires Inv(s) && t < |s.threads| && s.threads[t].node < |s.nodes| && s.threads[t].pc.RelCas?
    ensures NodeInv(Step(s, t), s.threads[t].node) && s.closing == None
  {
    var s', n := Step(s, t), s.threads[t].node;
    assert ThreadOk(s, t) && NodeOk(s, n) && PartsOk(s, n);
    assert s.closing == None;
    forall u | 0 <= u < |s'.threads| && s'.threads[u].node == n ensures ThreadOk(s', u) {
      assert ThreadOk(s, u);
    }
  }

  /** Ending a batch: its global ticket passes from the node to the thread that closes it. */
  lemma RelCasInv(s: State, t: nat)
    requires Inv(s) && t < |s.threads| && s.threads[t].node < |s.nodes| && s.threads[t].pc.RelCas?
    ensures Inv(Step(s, t))
  {
    RelCasNode(s, t);
    hide ThreadOk, PartsOk, NodeOk, GlobalOk, NodeInv;
    Elsewhere(s, Step(s, t), s.threads[t].node);
    RelCasGlobal(s, t);
  }

  lemma RelCasGlobal(s: State, t: nat)
    requires Inv(s) && t < |s.threads| && s.threads[t].node < |s.nodes| && s.threads[t].pc.RelCas?
    ensures GlobalOk(Step(s, t))
  {
    var s', n := Step(s, t), s.threads[t].node;
    assert ThreadOk(s, t) && s.closing == None;
    forall g | s.gcur <= g < s.gnxt ensures (g == s.gcur && s'.closing.Some?) || HasTicket(s', g) {
      assert HasTicket(s, g);
      var m :| 0 <= m < |s.nodes| && s.nodes[m].gticket == Some(g);
      assert m != n || s'.closing.None? ==> s'.nodes[m].gticket == Some(g);
    }
  }

  lemma RelIncGlobal(s: State, t: nat)
    requires Inv(s) && t < |s.threads| && s.threads[t].node < |s.nodes| && s.threads[t].pc.RelInc?
    ensures GlobalOk(Step(s, t))
  {
    var s' := Step(s, t);
    assert ThreadOk(s, t);
    forall g | s'.gcur <= g < s'.gnxt ensures HasTicket(s', g) {
      assert HasTicket(s, g);
      var m :| 0 <= m < |s.nodes| && s.nodes[m].gticket == Some(g);
      assert s'.nodes[m].gticket == Some(g);
    }
  }

  /** Passing the global lock on: nobody is inside, and the next ticket is the one to be served. */
  lemma RelIncInv(s: State, t: nat)
    requires Inv(s) && t < |s.threads| && s.threads[t].node < |s.nodes| && s.threads[t].pc.RelInc?
    ensures Inv(Step(s, t))
  {
    var s' := Step(s, t);
    RelIncGlobal(s, t);
    hide GlobalOk;
    assert ThreadOk(s, t);
    forall u | 0 <= u < |s'.threads| ensures ThreadOk(s', u) {
      assert ThreadOk(s, u);
    }
    forall m | 0 <= m < |s'.nodes| ensures PartsOk(s', m) && NodeOk(s', m) {
      assert PartsOk(s, m) && NodeOk(s, m);
    }
  }

  lemma LocalNode(s: State, members: seq<seq<nat>>, t: nat)
    requires Inv(s) && Config(s, members) && t < |s.threads| && s.threads[t].node < |s.nodes| && Local(s.threads[t].pc)
    ensures NodeInv(Step(s, t), s.threads[t].node)
  {
    hide Inv, NodeInv, Step;
    match s.threads[t].pc
    case Idle => IdleNode(s, t);
    case Want => WantNode(s, members, t);
    case WaitLocal(_) => WaitLocalNode(s, t);
    case WaitCur => WaitCurNode(s, t);
    case SetNxt => SetNxtNode(s, t);
    case WaitGlobal(_) => WaitGlobalNode(s, t);
    case Critical => CriticalNode(s, t);
    case RelLocal(_) => RelLocalNode(s, t);
    case RelSetCur => RelSetCurNode(s, t);
  }

  lemma StepInv(s: State, members: seq<seq<nat>>, t: nat)
    requires Inv(s) && Config(s, members) && t < |s.threads| && s.threads[t].node < |s.nodes|
    ensures Inv(Step(s, t)) && Config(Step(s, t), members)
  {
    hide Inv, NodeInv;
    match s.threads[t].pc
    case TakeGlobal => TakeGlobalInv(s, t);
    case RelCas(_) => RelCasInv(s, t);
    case RelInc => RelIncInv(s, t);
    case _ =>
      LocalNode(s, members, t);
      LocalInv(s, t);
  }

  lemma NextInv(s: State, s': State, members: seq<seq<nat>>)
    requires Inv(s) && Config(s, members) && Next(s, s')
    ensures Inv(s') && Config(s', members)
  {
    hide Inv, Config, Step;
    var t: nat :| 0 <= t < |s.threads| && s.threads[t].node < |s.nodes| && s' == Step(s, t);
    StepInv(s, members, t);
  }

  // ----- over whole runs

  ghost predicate Run(run: seq<State>, members: seq<seq<nat>>) {
    run != [] && Init(run[0]) && Config(run[0], members) && forall i :: 0 <= i < |run| - 1 ==> Next(run[i], run[i + 1])
  }

  lemma {:induction false} RunInv(run: seq<State>, members: seq<seq<nat>>, i: nat)
    requires Run(run, members) && i < |run|
    ensures Inv(run[i]) && Config(run[i], members)
  {
    if i == 0 {
      InitInv(run[0]);
    } else {
      RunInv(run, members, i - 1);
      assert Next(run[i - 1], run[i - 1 + 1]);
      hide Inv, Run, Config, Next;
      NextInv(run[i - 1], run[i], members);
    }
  }

  /** At most one thread of all nodes is in the critical section. */
  lemma MutualExclusion(run: seq<State>, members: seq<seq<nat>>, i: nat, t: nat, u: nat)
    requires Run(run, members) && i < |run| && t < |run[i].threads| && u < |run[i].threads|
    requires run[i].threads[t].pc.Critical? && run[i].threads[u].pc.Critical?
    ensures t == u
  {
    RunInv(run, members, i);
    hide Run;
    assert ThreadOk(run[i], t) && ThreadOk(run[i], u);
  }

  /** One global ticket covers at most NB_TICKETS_LOCAL + 1 critical sections: the batch's counter, which starts
      at 0 when the batch is opened and goes up at each entry, never passes that. */
  lemma BatchBounded(run: seq<State>, members: seq<seq<nat>>, i: nat, n: nat)
    requires Run(run, members) && i < |run| && n < |run[i].nodes| && run[i].nodes[n].open
    ensures run[i].nodes[n].served <= NB_TICKETS_LOCAL + 1
  {
    RunInv(run, members, i);
    hide Run;
    assert NodeOk(run[i], n) && PartsOk(run[i], n);
    if run[i].nodes[n].owner.Some? {
      assert ThreadOk(run[i], run[i].nodes[n].owner.value);
    }
  }

  /** The step of thread t is not one more turn of a spin loop, nor the start of a new call. */
  predicate Productive(s: State, t: nat)
    requires t < |s.threads| && s.threads[t].node < |s.nodes|
  {
    var x := s.nodes[s.threads[t].node];
    match s.threads[t].pc
    case Idle => false
    case Want => x.nxt >= 0
    case WaitLocal(k) => x.cur == k
    case WaitCur => x.cur == NB_TICKETS_LOCAL
    case WaitGlobal(g) => s.gcur == g
    case _ => true
  }

  ghost predicate SomeoneMoves(s: State) {
    exists t :: 0 <= t < |s.threads| && s.threads[t].node < |s.nodes| && Productive(s, t)
  }

  /** The order of the steps of a call. */
  function Place(pc: Pc): nat {
    match pc
    case Idle => 0
    case Want => 1
    case WaitLocal(_) => 2
    case WaitCur => 2
    case SetNxt => 3
    case TakeGlobal => 4
    case WaitGlobal(_) => 5
    case Critical => 6
    case RelCas(_) => 7
    case RelLocal(_) => 8
    case RelSetCur => 8
    case RelInc => 9
  }

  /** From position a the call has got to position b: further on, or out of the lock after its critical section. */
  predicate Forward(a: Pc, b: Pc) {
    !a.Idle? && (Place(a) < Place(b) || (b.Idle? && (a.RelLocal? || a.RelInc?)))
  }

  /** Such a step takes its thread on in its call. */
  lemma ProductiveForward(s: State, t: nat)
    requires t < |s.threads| && s.threads[t].node < |s.nodes| && Productive(s, t)
    ensures Forward(s.threads[t].pc, Step(s, t).threads[t].pc)
  {
  }

  /** Whoever has the turn of an open batch that may run can move. */
  lemma ActiveNodeMoves(s: State, n: nat)
    requires Inv(s) && n < |s.nodes| && s.nodes[n].gticket == Some(s.gcur)
    ensures SomeoneMoves(s)
  {
    var x := s.nodes[n];
    assert NodeOk(s, n) && PartsOk(s, n);
    if x.owner.Some? {
      assert ThreadOk(s, x.owner.value) && Productive(s, x.owner.value);
    } else {
      assert x.cur in x.holder;
      assert Productive(s, x.holder[x.cur]);
    }
  }

  lemma GlobalMoves(s: State)
    requires Inv(s) && s.gcur < s.gnxt
    ensures SomeoneMoves(s)
  {
    if s.closing.Some? {
      assert ThreadOk(s, s.closing.value);
      assert Productive(s, s.closing.value);
    } else {
      assert HasTicket(s, s.gcur);
      var n :| 0 <= n < |s.nodes| && s.nodes[n].gticket == Some(s.gcur);
      ActiveNodeMoves(s, n);
    }
  }

  lemma OpenNodeMoves(s: State, n: nat)
    requires Inv(s) && n < |s.nodes| && s.nodes[n].open
    ensures SomeoneMoves(s)
  {
    var x := s.nodes[n];
    assert NodeOk(s, n) && PartsOk(s, n);
    if x.owner.Some? {
      assert ThreadOk(s, x.owner.value);
      if x.gticket.Some? {
        GlobalMoves(s);
      } else {
        assert Productive(s, x.owner.value);
      }
    } else {
      GlobalMoves(s);
    }
  }

  lemma InCallMoves(s: State, t: nat)
    requires Inv(s) && t < |s.threads| && !s.threads[t].pc.Idle?
    ensures SomeoneMoves(s)
  {
    assert ThreadOk(s, t);
    var n := s.threads[t].node;
    var x := s.nodes[n];
    assert NodeOk(s, n) && PartsOk(s, n);
    if s.gcur < s.gnxt {
      GlobalMoves(s);
    } else if x.open {
      OpenNodeMoves(s, n);
    } else if x.waiter.Some? {
      assert Productive(s, x.waiter.value);
    } else {
      assert Productive(s, t);
    }
  }

  /** No deadlock: as long as some thread is in a call, some thread's next step takes it further in its call. */
  lemma NeverStuck(run: seq<State>, members: seq<seq<nat>>, i: nat, t: nat) returns (u: nat)
    requires Run(run, members) && i < |run| && t < |run[i].threads| && !run[i].threads[t].pc.Idle?
    ensures u < |run[i].threads| && run[i].threads[u].node < |run[i].nodes|
    ensures Forward(run[i].threads[u].pc, Step(run[i], u).threads[u].pc)
  {
    RunInv(run, members, i);
    hide Run, Config, Inv, Forward, Step, Productive;
    var s := run[i];
    InCallMoves(s, t);
    u :| 0 <= u < |s.threads| && s.threads[u].node < |s.nodes| && Productive(s, u);
    ProductiveForward(s, u);
  }
}
