/** The tickets of src/htlock.c are 32-bit words. The global ones may wrap round. The local nxt, which every attempt to get a
    ticket counts down, may wrap round too: a thread that gets its ticket then waits for ever, but mutual exclusion holds.
 */
module HtlockWords {
  import opened Options
  import opened Counting
  import opened Htlock

  const WORD := 0x1_0000_0000
  const INT32_MIN := -0x8000_0000

  function Low(x: nat): nat {
    x % WORD
  }

  /** The int32_t with the same low 32 bits as x. */
  function Signed(x: int): int {
    (x - INT32_MIN) % WORD + INT32_MIN
  }

  /** Decrementing the local nxt gives the wrong number exactly at the lowest one. */
  lemma SignedIff(nxt: int)
    requires INT32_MIN <= nxt <= NB_TICKETS_LOCAL
    ensures Signed(nxt - 1) == nxt - 1 <==> nxt > INT32_MIN
  {
  }

  function LowPc(pc: Pc): Pc {
    if pc.WaitGlobal? then WaitGlobal(Low(pc.g)) else pc
  }

  function LowThread(th: Thread): Thread {
    th.(pc := LowPc(th.pc))
  }

  function LowNode(x: Node): Node {
    x.(gticket := if x.gticket.Some? then Some(Low(x.gticket.value)) else None)
  }

  /** The state as the program stores it. */
  function Narrow(s: State): State {
    s.(gnxt := Low(s.gnxt), gcur := Low(s.gcur),
       nodes := seq(|s.nodes|, n requires 0 <= n < |s.nodes| => LowNode(s.nodes[n])),
       threads := seq(|s.threads|, t requires 0 <= t < |s.threads| => LowThread(s.threads[t])))
  }

  /** The steps that count, on words; the others are those of Htlock. */
  function WordStep(s: State, t: nat): State
    requires t < |s.threads| && s.threads[t].node < |s.nodes|
  {
    var x := s.nodes[s.threads[t].node];
    match s.threads[t].pc
    case Want =>
      var v := Signed(x.nxt - 1);
      if v < -1 then At(s, t, Want, x.(nxt := v))
      else if v >= 0 then At(s, t, WaitLocal(v), x.(nxt := v, holder := x.holder[v := t]))
      else At(s, t, WaitCur, x.(nxt := v, waiter := Some(t)))
    case TakeGlobal => At(s, t, WaitGlobal(s.gnxt), x.(gticket := Some(s.gnxt))).(gnxt := Low(s.gnxt + 1))
    case RelInc => At(s, t, Idle, x).(gcur := Low(s.gcur + 1), closing := None)
    case _ => Step(s, t)
  }

  // ----- never 2^32 global tickets at a time

  /** At most one global ticket per node is out, and the one that is being passed on. */
  lemma FewTickets(s: State)
    requires Inv(s)
    ensures s.gnxt - s.gcur <= |s.nodes| + 1
  {
    var lo := if s.closing.Some? then s.gcur + 1 else s.gcur;
    var q := seq(s.gnxt - lo, i requires 0 <= i < s.gnxt - lo => lo + i);
    var p := seq(|s.nodes|, n requires 0 <= n < |s.nodes| => if s.nodes[n].gticket.Some? then s.nodes[n].gticket.value else 0);
    forall i | 0 <= i < |q| ensures q[i] in p {
      assert HasTicket(s, lo + i);
      var n :| 0 <= n < |s.nodes| && s.nodes[n].gticket == Some(lo + i);
      assert p[n] == q[i];
    }
    Pigeonhole(q, p);
  }

  lemma LowSame(a: nat, b: nat)
    requires a <= b < a + WORD
    ensures Low(a) == Low(b) <==> a == b
  {
  }

  lemma LowNext(x: nat)
    ensures Low(Low(x) + 1) == Low(x + 1)
  {
  }

  /** A thread that compares words sees its turn exactly when it has come. */
  lemma TurnSeen(s: State, t: nat)
    requires Inv(s) && t < |s.threads| && s.threads[t].pc.WaitGlobal? && |s.nodes| + 1 < WORD
    ensures Low(s.threads[t].pc.g) == Low(s.gcur) <==> s.threads[t].pc.g == s.gcur
  {
    assert ThreadOk(s, t);
    FewTickets(s);
    LowSame(s.gcur, s.threads[t].pc.g);
  }

  lemma NarrowAt(s: State, t: nat, pc: Pc, x: Node)
    requires t < |s.threads| && s.threads[t].node < |s.nodes|
    ensures t < |Narrow(s).threads| && Narrow(s).threads[t].node < |Narrow(s).nodes|
    ensures Narrow(At(s, t, pc, x)) == At(Narrow(s), t, LowPc(pc), LowNode(x))
  {
    var a, b := Narrow(At(s, t, pc, x)), At(Narrow(s), t, LowPc(pc), LowNode(x));
    assert a.nodes == b.nodes;
    assert a.threads == b.threads;
  }

  /** The next decrement of the node's nxt does not underflow. */
  predicate Fits(s: State, t: nat)
    requires t < |s.threads| && s.threads[t].node < |s.nodes|
  {
    s.threads[t].pc.Want? ==> s.nodes[s.threads[t].node].nxt > INT32_MIN
  }

  lemma NxtFits(s: State, t: nat)
    requires Inv(s) && t < |s.threads| && s.threads[t].node < |s.nodes| && Fits(s, t) && s.threads[t].pc.Want?
    ensures var nxt := s.nodes[s.threads[t].node].nxt; Signed(nxt - 1) == nxt - 1
  {
    assert NodeOk(s, s.threads[t].node);
    SignedIff(s.nodes[s.threads[t].node].nxt);
  }

  /** A step is a change of one thread, its node and the globals. */
  lemma NarrowSame(s: State, s': State, t: nat)
    requires t < |s.threads| == |s'.threads| && s.threads[t].node < |s.nodes| == |s'.nodes|
    requires var n := s.threads[t].node;
             s' == At(s, t, s'.threads[t].pc, s'.nodes[n]).(gnxt := s'.gnxt, gcur := s'.gcur, closing := s'.closing)
    ensures t < |Narrow(s).threads| && Narrow(s).threads[t] == LowThread(s.threads[t])
    ensures var n := s.threads[t].node;
            && n < |Narrow(s).nodes| && Narrow(s).nodes[n] == LowNode(s.nodes[n])
            && Narrow(s') == At(Narrow(s), t, LowPc(s'.threads[t].pc), LowNode(s'.nodes[n]))
                 .(gnxt := Low(s'.gnxt), gcur := Low(s'.gcur), closing := s'.closing)
  {
    NarrowAt(s, t, s'.threads[t].pc, s'.nodes[s.threads[t].node]);
  }

  /** Every step has that form. */
  lemma StepForm(s: State, t: nat)
    requires t < |s.threads| && s.threads[t].node < |s.nodes|
    ensures var s', n := Step(s, t), s.threads[t].node;
            && |s'.threads| == |s.threads| && |s'.nodes| == |s.nodes|
            && s' == At(s, t, s'.threads[t].pc, s'.nodes[n]).(gnxt := s'.gnxt, gcur := s'.gcur, closing := s'.closing)
  {
    var s', n := Step(s, t), s.threads[t].node;
    assert At(s, t, s'.threads[t].pc, s'.nodes[n]).threads == s'.threads;
    assert At(s, t, s'.threads[t].pc, s'.nodes[n]).nodes == s'.nodes;
  }

  predicate Counts(pc: Pc) {
    pc.Want? || pc.WaitGlobal? || pc.TakeGlobal? || pc.RelInc?
  }

  lemma CountSame(s: State, t: nat)
    requires t < |s.threads| && s.threads[t].node < |s.nodes| && Counts(s.threads[t].pc)
    requires s.threads[t].pc.Want? ==> var nxt := s.nodes[s.threads[t].node].nxt; Signed(nxt - 1) == nxt - 1
    requires s.threads[t].pc.WaitGlobal? ==> (Low(s.threads[t].pc.g) == Low(s.gcur) <==> s.threads[t].pc.g == s.gcur)
    ensures t < |Narrow(s).threads| && Narrow(s).threads[t].node < |Narrow(s).nodes|
    ensures Narrow(Step(s, t)) == WordStep(Narrow(s), t)
  {
    StepForm(s, t);
    NarrowSame(s, Step(s, t), t);
    LowNext(s.gnxt);
    LowNext(s.gcur);
    hide Narrow, Low, Signed;
  }

  lemma PlainSame(s: State, t: nat)
    requires t < |s.threads| && s.threads[t].node < |s.nodes| && !Counts(s.threads[t].pc)
    ensures t < |Narrow(s).threads| && Narrow(s).threads[t].node < |Narrow(s).nodes|
    ensures Narrow(Step(s, t)) == WordStep(Narrow(s), t)
  {
    StepForm(s, t);
    NarrowSame(s, Step(s, t), t);
    hide Narrow, Low;
  }

  /** The program on words does what the steps of Htlock say. */
  lemma WordStepSame(s: State, t: nat)
    requires Inv(s) && t < |s.threads| && s.threads[t].node < |s.nodes| && Fits(s, t) && |s.nodes| + 1 < WORD
    ensures t < |Narrow(s).threads| && Narrow(s).threads[t].node < |Narrow(s).nodes|
    ensures Narrow(Step(s, t)) == WordStep(Narrow(s), t)
  {
    if s.threads[t].pc.Want? {
      NxtFits(s, t);
    } else if s.threads[t].pc.WaitGlobal? {
      TurnSeen(s, t);
    }
    hide Inv, Narrow, WordStep, Step;
    if Counts(s.threads[t].pc) {
      CountSame(s, t);
    } else {
      PlainSame(s, t);
    }
  }

  // ----- after an underflow

  const INT32_MAX := 0x7FFF_FFFF

  predicate Same(s: State, w: State) {
    && w.gnxt == Low(s.gnxt) && w.gcur == Low(s.gcur) && w.closing == s.closing
    && |w.nodes| == |s.nodes| && |w.threads| == |s.threads|
  }

  /** Equal local counters, or both such that nobody gets a ticket that is ever called. */
  predicate NxtRel(nxt: int, word: int) {
    && INT32_MIN <= word <= INT32_MAX
    && (word == nxt || (nxt < -1 && (word < -1 || word > NB_TICKETS_LOCAL)))
  }

  /** The program's fields agree, up to the width of words. */
  predicate NodeRel(x: Node, y: Node) {
    y == LowNode(x).(nxt := y.nxt, holder := y.holder) && NxtRel(x.nxt, y.nxt)
  }

  /** y waits for a local ticket that is never called. */
  predicate Lost(y: Thread) {
    y.pc.WaitLocal? && y.pc.k > NB_TICKETS_LOCAL
  }

  /** For the model a thread that waits in vain is still trying to get a ticket. */
  predicate ThreadRel(th: Thread, y: Thread) {
    y.node == th.node && (if Lost(y) then th.pc.Want? else y.pc == LowPc(th.pc))
  }

  predicate Rel(s: State, w: State) {
    && Same(s, w)
    && (forall n :: 0 <= n < |s.nodes| ==> NodeRel(s.nodes[n], w.nodes[n]))
    && (forall t :: 0 <= t < |s.threads| ==> ThreadRel(s.threads[t], w.threads[t]))
  }

  /** Local tickets go down from NB_TICKETS_LOCAL. */
  predicate CurOk(s: State) {
    forall n :: 0 <= n < |s.nodes| ==> s.nodes[n].cur <= NB_TICKETS_LOCAL
  }

  predicate Waits(w: State, n: nat, k: int) {
    exists t :: 0 <= t < |w.threads| && w.threads[t] == Thread(n, WaitLocal(k))
  }

  /** A thread of the node waits for each ticket given out since the underflow. */
  predicate LostOk(w: State, n: nat)
    requires n < |w.nodes|
  {
    w.nodes[n].nxt > NB_TICKETS_LOCAL ==> forall k :: w.nodes[n].nxt <= k <= INT32_MAX ==> Waits(w, n, k)
  }

  lemma {:induction false} LostThreads(w: State, n: nat, c: nat) returns (q: seq<nat>)
    requires forall j :: INT32_MAX - c < j <= INT32_MAX ==> Waits(w, n, j)
    ensures |q| == c && forall j :: 0 <= j < c ==> q[j] < |w.threads| && w.threads[q[j]] == Thread(n, WaitLocal(INT32_MAX - j))
  {
    q := [];
    if c > 0 {
      q := LostThreads(w, n, c - 1);
      assert Waits(w, n, INT32_MAX - (c - 1));
      var t: nat :| 0 <= t < |w.threads| && w.threads[t] == Thread(n, WaitLocal(INT32_MAX - (c - 1)));
      q := q + [t];
    }
  }

  /** They are too few for the counter to come down to a ticket that is called. */
  lemma FewLost(w: State, members: seq<seq<nat>>, n: nat)
    requires Config(w, members) && n < |w.nodes| && LostOk(w, n) && w.nodes[n].nxt > NB_TICKETS_LOCAL
    ensures w.nodes[n].nxt > INT32_MAX - (NB_TICKETS_LOCAL + 2)
  {
    var c := NB_TICKETS_LOCAL + 2;
    if w.nodes[n].nxt <= INT32_MAX - c {
      var q := LostThreads(w, n, c);
      forall i, j | 0 <= i < j < |q| ensures q[i] != q[j] {
        assert w.threads[q[i]].pc.k != w.threads[q[j]].pc.k;
      }
      Pigeonhole(q, members[n]);
      assert false;
    }
  }

  lemma SignedNext(word: int)
    requires INT32_MIN <= word <= INT32_MAX
    ensures Signed(word - 1) == if word == INT32_MIN then INT32_MAX else word - 1
  {
  }

  /** Trying for a local ticket, on numbers and on words. */
  lemma WantRel(s: State, w: State, t: nat)
    requires Rel(s, w) && t < |s.threads| && s.threads[t].node < |s.nodes| && s.threads[t].pc.Want? && w.threads[t].pc.Want?
    requires var y := w.nodes[s.threads[t].node]; y.nxt > NB_TICKETS_LOCAL ==> y.nxt > NB_TICKETS_LOCAL + 1
    requires s.nodes[s.threads[t].node].nxt <= NB_TICKETS_LOCAL
    ensures Related(s, w, Step(s, t), WordStep(w, t), t)
  {
    SignedNext(w.nodes[s.threads[t].node].nxt);
  }

  /** The step of thread t keeps the relation where it changes something. */
  predicate Related(s: State, w: State, s': State, w': State, t: nat)
    requires Rel(s, w) && t < |s.threads| && s.threads[t].node < |s.nodes|
  {
    var n := s.threads[t].node;
    && Same(s', w') && |s'.nodes| == |s.nodes| && |s'.threads| == |s.threads|
    && NodeRel(s'.nodes[n], w'.nodes[n]) && ThreadRel(s'.threads[t], w'.threads[t])
  }

  /** The end of a batch depends on the local counter, but not on how far below the tickets it is. */
  lemma RelCasRel(s: State, w: State, t: nat)
    requires Inv(s) && CurOk(s) && Rel(s, w) && t < |s.threads| && s.threads[t].node < |s.nodes| && s.threads[t].pc.RelCas?
    ensures Related(s, w, Step(s, t), WordStep(w, t), t)
  {
    var n := s.threads[t].node;
    assert ThreadOk(s, t) && NodeOk(s, n) && NodeRel(s.nodes[n], w.nodes[n]) && ThreadRel(s.threads[t], w.threads[t]);
    assert 0 <= s.nodes[n].cur;
    hide Low, Inv;
  }

  /** The other steps of htlock_lock, and those of htlock_release. */
  lemma LockRel(s: State, w: State, t: nat)
    requires Rel(s, w) && t < |s.threads| && s.threads[t].node < |s.nodes| && !s.threads[t].pc.Want? && Locking(s.threads[t].pc)
    requires s.threads[t].pc.WaitGlobal? ==> (Low(s.threads[t].pc.g) == Low(s.gcur) <==> s.threads[t].pc.g == s.gcur)
    ensures Related(s, w, Step(s, t), WordStep(w, t), t)
  {
    var n := s.threads[t].node;
    assert NodeRel(s.nodes[n], w.nodes[n]) && ThreadRel(s.threads[t], w.threads[t]);
    LowNext(s.gnxt);
    hide Low;
  }

  lemma ReleaseRel(s: State, w: State, t: nat)
    requires Rel(s, w) && t < |s.threads| && s.threads[t].node < |s.nodes| && !s.threads[t].pc.RelCas? && !Locking(s.threads[t].pc)
    ensures Related(s, w, Step(s, t), WordStep(w, t), t)
  {
    var n := s.threads[t].node;
    assert NodeRel(s.nodes[n], w.nodes[n]) && ThreadRel(s.threads[t], w.threads[t]);
    LowNext(s.gcur);
    hide Low;
  }

  /** A step changes thread t and its node only. */
  predicate Moves(s: State, s': State, t: nat)
    requires t < |s.threads| && s.threads[t].node < |s.nodes|
  {
    && |s'.threads| == |s.threads| && |s'.nodes| == |s.nodes| && s'.threads[t].node == s.threads[t].node
    && (forall u :: 0 <= u < |s.threads| && u != t ==> s'.threads[u] == s.threads[u])
    && (forall m :: 0 <= m < |s.nodes| && m != s.threads[t].node ==> s'.nodes[m] == s.nodes[m])
  }

  lemma StepMoves(s: State, t: nat)
    requires t < |s.threads| && s.threads[t].node < |s.nodes|
    ensures Moves(s, Step(s, t), t) && Moves(s, WordStep(s, t), t)
  {
  }

  lemma RelMoves(s: State, w: State, s': State, w': State, t: nat)
    requires Rel(s, w) && t < |s.threads| && s.threads[t].node < |s.nodes| && Related(s, w, s', w', t)
    requires Moves(s, s', t) && Moves(w, w', t)
    ensures Rel(s', w')
  {
    assert w.threads[t].node == s.threads[t].node by { assert ThreadRel(s.threads[t], w.threads[t]); }
    hide NodeRel, ThreadRel, Low;
  }

  lemma WaitsStay(w: State, w': State, t: nat, n: nat, k: int)
    requires t < |w.threads| && w.threads[t].node < |w.nodes| && Moves(w, w', t) && !Lost(w.threads[t])
    requires Waits(w, n, k) && k > NB_TICKETS_LOCAL
    ensures Waits(w', n, k)
  {
    var u :| 0 <= u < |w.threads| && w.threads[u] == Thread(n, WaitLocal(k));
    assert w'.threads[u] == Thread(n, WaitLocal(k));
  }

  /** What a thread that gets a ticket far up does to its node. */
  predicate NxtMoves(w: State, w': State, t: nat)
    requires t < |w.threads| && w.threads[t].node < |w.nodes| && Moves(w, w', t)
  {
    var n := w.threads[t].node;
    var nxt, nxt' := w.nodes[n].nxt, w'.nodes[n].nxt;
    nxt' > NB_TICKETS_LOCAL ==>
      || nxt' == nxt
      || (w'.threads[t].pc == WaitLocal(nxt') && (nxt' == INT32_MAX || (nxt' == nxt - 1 && nxt > NB_TICKETS_LOCAL)))
  }

  lemma StepNxt(w: State, t: nat)
    requires t < |w.threads| && w.threads[t].node < |w.nodes| && INT32_MIN <= w.nodes[w.threads[t].node].nxt <= INT32_MAX
    ensures Moves(w, WordStep(w, t), t) && NxtMoves(w, WordStep(w, t), t)
  {
    StepMoves(w, t);
    SignedNext(w.nodes[w.threads[t].node].nxt);
  }

  lemma LostStays(w: State, w': State, t: nat, n: nat)
    requires t < |w.threads| && w.threads[t].node < |w.nodes| && !Lost(w.threads[t]) && n < |w.nodes| && LostOk(w, n)
    requires Moves(w, w', t) && NxtMoves(w, w', t)
    ensures LostOk(w', n)
  {
    if w'.nodes[n].nxt > NB_TICKETS_LOCAL {
      forall k | w'.nodes[n].nxt <= k <= INT32_MAX ensures Waits(w', n, k) {
        if n == w.threads[t].node && w'.threads[t].pc == WaitLocal(k) {
          assert w'.threads[t] == Thread(n, WaitLocal(k));
        } else {
          WaitsStay(w, w', t, n, k);
        }
      }
    }
  }

  lemma CurStays(s: State, t: nat)
    requires Inv(s) && CurOk(s) && t < |s.threads| && s.threads[t].node < |s.nodes|
    ensures CurOk(Step(s, t))
  {
    StepMoves(s, t);
    assert ThreadOk(s, t) && NodeOk(s, s.threads[t].node);
  }

  /** A lost thread stays where it is. */
  lemma LostWaits(s: State, w: State, t: nat)
    requires CurOk(s) && Rel(s, w) && t < |w.threads| && w.threads[t].node < |w.nodes| && Lost(w.threads[t])
    ensures WordStep(w, t) == w
  {
    assert NodeRel(s.nodes[w.threads[t].node], w.nodes[w.threads[t].node]);
  }

  /** What holds of a state of the program on words, and of the state of the model that it stands for. */
  ghost predicate WordInv(s: State, w: State, members: seq<seq<nat>>) {
    && Inv(s) && Config(s, members) && CurOk(s) && Rel(s, w)
    && forall n :: 0 <= n < |w.nodes| ==> LostOk(w, n)
  }

  lemma SameConfig(s: State, w: State, members: seq<seq<nat>>)
    requires Config(s, members) && Rel(s, w)
    ensures Config(w, members)
  {
    forall t | 0 <= t < |w.threads| ensures w.threads[t].node < |members| && t in members[w.threads[t].node] {
      assert ThreadRel(s.threads[t], w.threads[t]);
    }
  }

  /** A step that is none of a lost thread. */
  lemma StepRelated(s: State, w: State, members: seq<seq<nat>>, t: nat)
    requires WordInv(s, w, members) && |members| + 1 < WORD && t < |s.threads| && s.threads[t].node < |s.nodes|
    requires t < |w.threads| && !Lost(w.threads[t])
    ensures Related(s, w, Step(s, t), WordStep(w, t), t)
  {
    var n := s.threads[t].node;
    assert ThreadRel(s.threads[t], w.threads[t]);
    if s.threads[t].pc.Want? {
      assert NodeOk(s, n);
      SameConfig(s, w, members);
      if w.nodes[n].nxt > NB_TICKETS_LOCAL {
        FewLost(w, members, n);
      }
      hide Inv;
      WantRel(s, w, t);
    } else if s.threads[t].pc.RelCas? {
      RelCasRel(s, w, t);
    } else if Locking(s.threads[t].pc) {
      if s.threads[t].pc.WaitGlobal? {
        TurnSeen(s, t);
      }
      hide Inv;
      LockRel(s, w, t);
    } else {
      hide Inv;
      ReleaseRel(s, w, t);
    }
  }

  lemma WordStepKeeps(s: State, w: State, members: seq<seq<nat>>, t: nat) returns (s': State)
    requires WordInv(s, w, members) && |members| + 1 < WORD && t < |w.threads| && w.threads[t].node < |w.nodes|
    ensures WordInv(s', WordStep(w, t), members)
    ensures Lost(w.threads[t]) ==> WordStep(w, t) == w
  {
    if Lost(w.threads[t]) {
      LostWaits(s, w, t);
      s' := s;
    } else {
      var n, w' := w.threads[t].node, WordStep(w, t);
      assert ThreadRel(s.threads[t], w.threads[t]) && NodeRel(s.nodes[n], w.nodes[n]);
      s' := Step(s, t);
      StepRelated(s, w, members, t);
      StepMoves(s, t);
      StepMoves(w, t);
      StepNxt(w, t);
      hide WordStep, Step, Inv, Config, CurOk, Rel, Related, LostOk, Moves, NxtMoves, Lost;
      RelMoves(s, w, s', w', t);
      CurStays(s, t);
      StepInv(s, members, t);
      assert |w'.nodes| == |w.nodes| by { SameSize(w, t); }
      forall m | 0 <= m < |w'.nodes| ensures LostOk(w', m) {
        LostStays(w, w', t, m);
      }
    }
  }

  lemma SameSize(w: State, t: nat)
    requires t < |w.threads| && w.threads[t].node < |w.nodes|
    ensures |WordStep(w, t).nodes| == |w.nodes| && |WordStep(w, t).threads| == |w.threads|
  {
  }

  // ----- over whole runs

  /** A step of the program on words. */
  predicate WordNext(w: State, w': State) {
    exists t :: 0 <= t < |w.threads| && w.threads[t].node < |w.nodes| && w' == WordStep(w, t)
  }

  ghost predicate WordRun(ws: seq<State>, members: seq<seq<nat>>) {
    && ws != [] && Init(ws[0]) && Config(ws[0], members) && |members| + 1 < WORD
    && forall i :: 0 <= i < |ws| - 1 ==> WordNext(ws[i], ws[i + 1])
  }

  lemma InitWord(s: State, members: seq<seq<nat>>)
    requires Init(s) && Config(s, members)
    ensures WordInv(s, s, members)
  {
    InitInv(s);
  }

  lemma NextWord(s: State, w: State, w': State, members: seq<seq<nat>>) returns (s': State)
    requires WordInv(s, w, members) && |members| + 1 < WORD && WordNext(w, w')
    ensures WordInv(s', w', members)
  {
    hide WordInv, WordStep;
    var t: nat :| 0 <= t < |w.threads| && w.threads[t].node < |w.nodes| && w' == WordStep(w, t);
    s' := WordStepKeeps(s, w, members, t);
  }

  /** Every state of a run on words stands for one in which the model's invariant holds. */
  lemma {:induction false} RunWord(ws: seq<State>, members: seq<seq<nat>>, k: nat) returns (s: State)
    requires WordRun(ws, members) && k < |ws|
    ensures WordInv(s, ws[k], members)
  {
    if k == 0 {
      s := ws[0];
      InitWord(s, members);
    } else {
      hide WordInv, WordNext, Init, Config;
      s := RunWord(ws, members, k - 1);
      assert WordNext(ws[k - 1], ws[k - 1 + 1]);
      s := NextWord(s, ws[k - 1], ws[k], members);
    }
  }

  /** Mutual exclusion holds in every run of the program on words, whatever wraps round. */
  lemma MutualExclusion(ws: seq<State>, members: seq<seq<nat>>, k: nat, t: nat, u: nat)
    requires WordRun(ws, members) && k < |ws| && t < |ws[k].threads| && u < |ws[k].threads|
    requires ws[k].threads[t].pc.Critical? && ws[k].threads[u].pc.Critical?
    ensures t == u
  {
    var s := RunWord(ws, members, k);
    hide WordRun;
    assert ThreadRel(s.threads[t], ws[k].threads[t]) && ThreadRel(s.threads[u], ws[k].threads[u]);
    assert ThreadOk(s, t) && ThreadOk(s, u);
  }

  /** A thread that got its local ticket from a counter that had wrapped round waits for ever. */
  lemma {:induction false} LostForever(ws: seq<State>, members: seq<seq<nat>>, i: nat, k: nat, t: nat)
    requires WordRun(ws, members) && i <= k < |ws| && t < |ws[i].threads| && Lost(ws[i].threads[t])
    ensures t < |ws[k].threads| && ws[k].threads[t] == ws[i].threads[t]
    decreases k
  {
    hide *;
    if k > i {
      LostForever(ws, members, i, k - 1, t);
      RunNext(ws, members, k - 1);
      var s := RunWord(ws, members, k - 1);
      LostNext(s, ws[k - 1], ws[k], members, t);
    }
  }

  lemma RunNext(ws: seq<State>, members: seq<seq<nat>>, k: nat)
    requires WordRun(ws, members) && k < |ws| - 1
    ensures WordNext(ws[k], ws[k + 1]) && |members| + 1 < WORD
  {
    hide WordNext, Init, Config;
  }

  lemma LostNext(s: State, w: State, w': State, members: seq<seq<nat>>, t: nat)
    requires WordInv(s, w, members) && |members| + 1 < WORD && WordNext(w, w') && t < |w.threads| && Lost(w.threads[t])
    ensures t < |w'.threads| && w'.threads[t] == w.threads[t]
  {
    hide WordInv, WordStep, Lost;
    var u: nat :| 0 <= u < |w.threads| && w.threads[u].node < |w.nodes| && w' == WordStep(w, u);
    if u == t {
      var s' := WordStepKeeps(s, w, members, t);
    } else {
      StepMoves(w, u);
    }
  }
}
