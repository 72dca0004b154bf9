/** What a user of the non-blocking tree may rely on, in every run of any number of threads. */
module BstEllenRuns {
  import opened Options
  import opened ExternalTree
  import opened TreeHistory
  import opened HistoryRuns
  import opened BstEllen
  import opened BstEllenInvariant
  import opened BstEllenThreads
  import opened BstEllenSafety

  ghost predicate Inv(s: State) {
    MemInv(s.mem) && forall t :: 0 <= t < |s.threads| ==> ThreadInv(s.mem, t, s.threads[t])
  }

  lemma InitTree()
    ensures TreeInv(FIRST_MEMORY)
  {
    var m := FIRST_MEMORY;
    assert Contents(FIRST_TREE) == map[INF1 := 0, INF2 := 0];
    FirstTree(m.cells, FIRST_TREE, KEY_MIN, INF2 + 1);
  }

  lemma InitInv(s: State)
    requires Init(s)
    ensures Inv(s)
  {
    InitTree();
    assert ROOT in Ids(FIRST_TREE);
    hide TreeInv, ResultOk;
  }

  /** What the other threads and the memory see of one step. */
  lemma OneStep(s: State, t: nat, s': State) returns (th': Thread)
    requires Inv(s) && t < |s.threads| && ThreadStep(s, t, s')
    ensures s'.threads == s.threads[t := th'] && StepOk(s.mem, t, s'.mem, th')
  {
    var m, th := s.mem, s.threads[t];
    th' :| && s'.threads == s.threads[t := th']
           && ((Begin(m, th, th') && s'.mem == m) || (CanStep(m, th) && (s'.mem, th') == Advance(m, t, th)));
    assert th.pc == Idle ==> th.stack == [];
    hide MemInv, ThreadInv, StepOk, Advance;
    if Begin(m, th, th') {
      BeginStep(m, t, th, th');
    } else {
      AdvanceOk(m, t, th);
    }
  }

  lemma NextInv(s: State, s': State)
    requires Inv(s) && Next(s, s')
    ensures Inv(s')
  {
    var t: nat :| 0 <= t < |s.threads| && ThreadStep(s, t, s');
    hide ThreadStep;
    var th' := OneStep(s, t, s');
    forall u | 0 <= u < |s'.threads| ensures ThreadInv(s'.mem, u, s'.threads[u]) {
      if u != t {
        OthersStep(s.mem, t, s'.mem, th', u, s.threads[u]);
      }
    }
  }

  lemma OthersStep(m: Memory, t: nat, m': Memory, th': Thread, u: nat, th: Thread)
    requires MemInv(m) && StepOk(m, t, m', th') && u != t && ThreadInv(m, u, th)
    ensures ThreadInv(m', u, th)
  {
    hide MemInv, ThreadInv, Evolves;
    if m' != m {
      var o :| Evolves(m, m', o) && o in m'.ops && (o !in m.ops ==> m'.ops[o].owner == t);
      assert EvolvesFor(m, m', o, u);
      ThreadKept(m, m', o, u, th);
    }
  }

  ghost predicate Run(run: seq<State>) {
    run != [] && Init(run[0]) && forall i :: 0 <= i < |run| - 1 ==> Next(run[i], run[i + 1])
  }

  lemma {:induction false} RunInv(run: seq<State>, i: nat)
    requires Run(run) && i < |run|
    ensures Inv(run[i])
  {
    if i == 0 {
      InitInv(run[0]);
    } else {
      RunInv(run, i - 1);
      assert Next(run[i - 1], run[i - 1 + 1]);
      hide Inv, Next;
      NextInv(run[i - 1], run[i]);
    }
  }

  // ----- the tree

  /** In every reachable state the heap under the root is exactly one external search tree with both sentinels. */
  lemma AlwaysASearchTree(run: seq<State>, i: nat)
    requires Run(run) && i < |run|
    ensures var m := run[i].mem;
            && m.hist != []
            && var tree := Last(m.hist);
               && tree.Node? && tree.id == ROOT && Rep(m.cells, tree) && Distinct(tree)
                  && Ordered(tree, KEY_MIN, INF2 + 1)
               && INF1 in Contents(tree) && INF2 in Contents(tree)
  {
    RunInv(run, i);
    hide Run, ThreadInv;
    MemParts(run[i].mem);
    hide Tables, WordsOk, Live, OpsOk, AuthorsOk;
  }

  /** A thread in a call is never stuck: everything its next step dereferences is there. */
  lemma NoWildPointer(run: seq<State>, i: nat, t: nat)
    requires Run(run) && i < |run| && t < |run[i].threads| && run[i].threads[t].pc != Idle
    ensures CanStep(run[i].mem, run[i].threads[t])
  {
    RunInv(run, i);
    assert MemInv(run[i].mem) && ThreadInv(run[i].mem, t, run[i].threads[t]);
    hide Run, Inv, MemInv, ThreadInv, CanStep, Advance, StepOk;
    AdvanceOk(run[i].mem, t, run[i].threads[t]);
  }

  /** What one step may do to node n: change a child only while n is flagged, nothing at all once n is marked. */
  ghost predicate NodeStep(m: Memory, m': Memory, n: Addr)
    requires n in m.cells
  {
    && n in m'.cells
    && (m'.cells[n] != m.cells[n] ==> n in m.upd && (m.upd[n].flag == IFlag || m.upd[n].flag == DFlag))
    && (n in m.upd ==> n in m'.upd && (m.upd[n].flag == Mark ==> m'.upd[n] == m.upd[n] && m'.cells[n] == m.cells[n]))
  }

  /** Every step is the work of at most one record. */
  lemma StepEvolves(s: State, s': State) returns (o: nat)
    requires Inv(s) && Next(s, s')
    ensures MemInv(s.mem) && (s'.mem == s.mem || Evolves(s.mem, s'.mem, o))
  {
    var t: nat :| 0 <= t < |s.threads| && ThreadStep(s, t, s');
    assert MemInv(s.mem);
    hide ThreadStep, ThreadInv, MemInv, Evolves, Next;
    var th' := OneStep(s, t, s');
    hide Inv;
    o := 0;
    if s'.mem != s.mem {
      o :| Evolves(s.mem, s'.mem, o) && o in s'.mem.ops && (o !in s.mem.ops ==> s'.mem.ops[o].owner == t);
    }
  }

  lemma NodeEvolves(m: Memory, m': Memory, o: nat, n: Addr)
    requires Tables(m) && WordsEvolve(m, m', o) && CellsEvolve(m, m', o) && n in m.cells
    ensures NodeStep(m, m', n)
  {
    assert n in m.upd ==> n in m.past by { assert m.upd.Keys == m.past.Keys; }
  }

  lemma NodesStep(s: State, s': State, n: Addr)
    requires Inv(s) && Next(s, s') && n in s.mem.cells
    ensures NodeStep(s.mem, s'.mem, n)
  {
    hide Inv, Next, MemInv, Evolves;
    var o := StepEvolves(s, s');
    MemParts(s.mem);
    hide TreeInv, Tables, WordsOk, Live, OpsOk, AuthorsOk, OpsEvolve, WordsEvolve, CellsEvolve, HistEvolve,
         PreparedEvolve, MarkFair;
    if s'.mem != s.mem {
      EvolvesParts(s.mem, s'.mem, o);
      NodeEvolves(s.mem, s'.mem, o, n);
    }
  }

  lemma ChildrenChangeOnlyWhileFlagged(run: seq<State>, i: nat, n: Addr)
    requires Run(run) && i + 1 < |run| && n in run[i].mem.cells
    ensures NodeStep(run[i].mem, run[i + 1].mem, n)
  {
    RunInv(run, i);
    assert Next(run[i], run[i + 1]);
    hide Run, Inv, Next, NodeStep;
    NodesStep(run[i], run[i + 1], n);
  }

  /** Once a node is marked, its update field and its children never change again. */
  lemma {:induction false} MarkedForever(run: seq<State>, i: nat, j: nat, n: Addr)
    requires Run(run) && i <= j < |run|
    requires n in run[i].mem.cells && n in run[i].mem.upd && run[i].mem.upd[n].flag == Mark
    ensures n in run[j].mem.cells && n in run[j].mem.upd
    ensures run[j].mem.upd[n] == run[i].mem.upd[n] && run[j].mem.cells[n] == run[i].mem.cells[n]
    decreases j
  {
    if i < j {
      MarkedForever(run, i, j - 1, n);
      ChildrenChangeOnlyWhileFlagged(run, j - 1, n);
      assert run[j - 1 + 1] == run[j];
    }
  }

  // ----- records

  /** No record writes the tree twice, however many threads help it or stall inside it. */
  lemma EachRecordOnce(run: seq<State>, i: nat, x: nat, y: nat)
    requires Run(run) && i < |run| && 0 < x < y < |run[i].mem.hist|
    ensures |run[i].mem.author| == |run[i].mem.hist| && run[i].mem.author[x] != run[i].mem.author[y]
  {
    RunInv(run, i);
    hide Run, ThreadInv;
    MemParts(run[i].mem);
    hide TreeInv, Tables, WordsOk, Live, OpsOk;
    AuthorKnown(run[i].mem, x);
    AuthorKnown(run[i].mem, y);
  }

  /** Each entry of the history is one binding more or less than the one before, as its record says. */
  lemma EachEntryIsItsRecord(run: seq<State>, i: nat, x: nat)
    requires Run(run) && i < |run| && 0 < x < |run[i].mem.hist|
    ensures var m := run[i].mem;
            && |m.author| == |m.hist| && m.author[x] in m.ops
            && m.ops[m.author[x]].at == x && Effect(m, m.author[x], m.ops[m.author[x]])
  {
    RunInv(run, i);
    var m := run[i].mem;
    hide Run, ThreadInv;
    MemParts(m);
    hide TreeInv, Tables, WordsOk, Live, OpsOk;
    AuthorKnown(m, x);
    var o := m.author[x];
    RecordOk(m, o);
    hide OpOk, Effect;
    RecordEntry(m, o);
  }

  predicate Completing(op: Op) {
    TookEffect(op) || op.phase == Marked
  }

  /** A deletion that was backed out stays so, with p unmarked by it and the tree unwritten by it. */
  ghost predicate BackedOut(m: Memory, o: nat) {
    && o in m.ops && m.ops[o].DOp? && m.ops[o].phase == Aborted
    && (forall n :: n in m.upd ==> m.upd[n] != Word(o, Mark) && m.upd[n] != Word(o, DFlag))
    && (forall x :: 0 < x < |m.author| ==> m.author[x] != o)
  }

  lemma AbortedWords(m: Memory, o: nat, n: Addr)
    requires Tables(m) && WordsOk(m) && o in m.ops && m.ops[o].phase == Aborted && n in m.upd
    ensures m.upd[n] != Word(o, Mark) && m.upd[n] != Word(o, DFlag)
  {
    assert n in m.past by { assert m.upd.Keys == m.past.Keys; }
    assert Fits(m.ops, n, m.upd[n]);
  }

  lemma AbortedMeans(m: Memory, o: nat)
    requires MemInv(m) && o in m.ops && m.ops[o].DOp? && m.ops[o].phase == Aborted
    ensures BackedOut(m, o)
  {
    hide MemInv, TreeInv, Live, OpsOk, Tables, WordsOk;
    MemParts(m);
    forall n | n in m.upd ensures m.upd[n] != Word(o, Mark) && m.upd[n] != Word(o, DFlag) {
      AbortedWords(m, o, n);
    }
  }

  lemma RecordStep(s: State, s': State, o: nat)
    requires Inv(s) && Next(s, s') && o in s.mem.ops
    ensures o in s'.mem.ops && PhaseStep(s.mem.ops[o], s'.mem.ops[o])
  {
    hide Inv, Next, MemInv, Evolves;
    var q := StepEvolves(s, s');
    if s'.mem != s.mem {
      EvolvesParts(s.mem, s'.mem, q);
      hide WordsEvolve, CellsEvolve, HistEvolve, PreparedEvolve, MarkFair;
    }
  }

  /** Phases come in this order; a record ends Finished or Aborted. */
  function Rank(phase: Phase): nat {
    match phase
    case Flagged => 0
    case Marked => 1
    case Linked => 2
    case Spliced => 2
    case Finished => 3
    case Aborted => 3
  }

  /** A record keeps its contents and its owner, its phase only goes forward, and once its outcome is decided it
      stays decided. */
  ghost predicate Decided(a: Op, b: Op) {
    && (if a.IOp? then b.IOp? && b.p == a.p && b.ni == a.ni && b.l == a.l && b.k == a.k && b.v == a.v
        else b.DOp? && b.gp == a.gp && b.p == a.p && b.l == a.l && b.pupdate == a.pupdate && b.k == a.k)
    && b.owner == a.owner && (b.phase == a.phase || Rank(a.phase) < Rank(b.phase))
    && (a.phase == Aborted ==> b.phase == Aborted)
    && (Completing(a) ==> Completing(b))
    && (TookEffect(a) ==> TookEffect(b) && b.at == a.at)
  }

  lemma {:induction false} RecordForever(run: seq<State>, i: nat, j: nat, o: nat)
    requires Run(run) && i <= j < |run| && o in run[i].mem.ops
    ensures o in run[j].mem.ops && Decided(run[i].mem.ops[o], run[j].mem.ops[o])
    decreases j
  {
    hide Inv, Init, Next;
    if i < j {
      RecordForever(run, i, j - 1, o);
      RunInv(run, j - 1);
      assert Next(run[j - 1], run[j - 1 + 1]);
      hide Run;
      RecordStep(run[j - 1], run[j], o);
    }
  }

  /** A deletion record is completed or backed out, never both: once its mark stands on p it is never
      backed out, and once it is backed out its mark never stands anywhere and it never writes the tree. */
  lemma MarkedOrBackedOut(run: seq<State>, i: nat, j: nat, o: nat)
    requires Run(run) && i <= j < |run| && o in run[i].mem.ops && run[i].mem.ops[o].DOp?
    ensures o in run[j].mem.ops && run[j].mem.ops[o].DOp?
    ensures (exists n :: n in run[i].mem.upd && run[i].mem.upd[n] == Word(o, Mark)) ==>
              run[j].mem.ops[o].phase != Aborted && run[j].mem.ops[o].p in run[j].mem.upd
              && run[j].mem.upd[run[j].mem.ops[o].p] == Word(o, Mark)
    ensures run[i].mem.ops[o].phase == Aborted ==> BackedOut(run[j].mem, o)
  {
    RunInv(run, i);
    RunInv(run, j);
    RecordForever(run, i, j, o);
    var m, m' := run[i].mem, run[j].mem;
    assert MemInv(m) && MemInv(m');
    hide Run, Inv, MemInv, BackedOut, WordsOk, Tables, OpOk;
    if m.ops[o].phase == Aborted {
      AbortedMeans(m', o);
    }
    if n :| n in m.upd && m.upd[n] == Word(o, Mark) {
      MarkMeans(m, n, o);
      if m.ops[o].phase != Aborted {
        DeleteFacts(m', o);
      }
    }
  }

  lemma MarkMeans(m: Memory, n: Addr, o: nat)
    requires MemInv(m) && n in m.upd && m.upd[n] == Word(o, Mark)
    ensures o in m.ops && HalfRemoved(m.ops[o].phase)
  {
    MemParts(m);
    hide MemInv, TreeInv, Live, OpsOk, AuthorsOk;
    assert n in m.past by { assert m.upd.Keys == m.past.Keys; }
    assert Fits(m.ops, n, m.upd[n]);
  }

  // ----- linearizability

  lemma StepShape(m: Memory, t: nat, th: Thread)
    requires CanStep(m, th) && th.pc != Idle
    ensures SameCallAs(th, Advance(m, t, th).1)
  {
    if th.stack == [] && th.pc == FlagCas {
      hide FlagInsert, FlagDelete, Help;
    } else if th.stack != [] {
      hide FrameStep;
    } else {
      hide Help;
    }
  }

  lemma TraceStep(s: State, s': State)
    requires Inv(s) && Next(s, s')
    ensures Appends(s.mem.hist, s'.mem.hist) && s.mem.author <= s'.mem.author
  {
    hide Inv, Next, MemInv, Evolves;
    var o := StepEvolves(s, s');
    MemParts(s.mem);
    hide TreeInv, Tables, WordsOk, Live, OpsOk, AuthorsOk, OpsEvolve, WordsEvolve, CellsEvolve, PreparedEvolve, MarkFair;
    if s'.mem != s.mem {
      EvolvesParts(s.mem, s'.mem, o);
    }
  }

  /** The call that a thread is in */
  function CallOf(th: Thread): Option<Running<Call>> {
    if th.pc == Idle then None else Some(Running(th.call, th.k, th.since))
  }

  function Shown(s: State): (m: Moment<Call, nat>)
    ensures |m.calls| == |s.threads|
  {
    Moment(s.mem.hist, s.mem.author, seq(|s.threads|, t requires 0 <= t < |s.threads| => CallOf(s.threads[t])))
  }

  /** What a run shows of histories and calls */
  function Shows(run: seq<State>): (ms: seq<Moment<Call, nat>>)
    ensures |ms| == |run| && forall i :: 0 <= i < |run| ==> ms[i] == Shown(run[i])
  {
    seq(|run|, i requires 0 <= i < |run| => Shown(run[i]))
  }

  lemma IdleEmpty(m: Memory, t: nat, th: Thread)
    requires ThreadInv(m, t, th) && th.pc == Idle
    ensures th.stack == []
  {
  }

  lemma OwnStep(s: State, t: nat, s': State)
    requires t < |s.threads| && ThreadStep(s, t, s') && (s.threads[t].pc == Idle ==> s.threads[t].stack == [])
    ensures t < |s'.threads| && CallFollows(CallOf(s.threads[t]), CallOf(s'.threads[t]), s.mem.hist, s'.mem.hist)
  {
    var th := s.threads[t];
    hide Advance;
    if th.pc != Idle && CanStep(s.mem, th) {
      StepShape(s.mem, t, th);
    }
  }

  lemma CallStep(s: State, s': State, t: nat)
    requires Inv(s) && Next(s, s') && t < |s.threads|
    ensures t < |s'.threads| && CallFollows(CallOf(s.threads[t]), CallOf(s'.threads[t]), s.mem.hist, s'.mem.hist)
  {
    hide ThreadInv, MemInv, Advance, CanStep;
    if s.threads[t].pc == Idle {
      IdleEmpty(s.mem, t, s.threads[t]);
    }
    hide Inv;
    var u: nat :| 0 <= u < |s.threads| && ThreadStep(s, u, s');
    if u == t {
      OwnStep(s, t, s');
    }
  }

  lemma HistoryStep(s: State, s': State)
    requires Inv(s) && Next(s, s')
    ensures Follows(Shown(s), Shown(s'))
  {
    hide Inv, Next, Appends, CallFollows, CallOf;
    TraceStep(s, s');
    SameThreads(s, s');
    forall t | 0 <= t < |s.threads|
      ensures CallFollows(Shown(s).calls[t], Shown(s').calls[t], s.mem.hist, s'.mem.hist)
    {
      CallStep(s, s', t);
    }
  }

  lemma RunIsHistoryRun(run: seq<State>)
    requires Run(run)
    ensures HistoryRun(Shows(run))
  {
    forall j | 0 < j < |run| ensures Follows(Shown(run[j - 1]), Shown(run[j])) {
      RunInv(run, j - 1);
      assert Next(run[j - 1], run[j - 1 + 1]);
      hide Run, Inv, Next, Follows;
      HistoryStep(run[j - 1], run[j]);
    }
  }

  lemma SameThreads(s: State, s': State)
    requires Next(s, s')
    ensures |s'.threads| == |s.threads|
  {
    hide Advance;
  }

  /** Of the entries that the history gained since state b, up to state e, x is the one by a record of thread t. */
  ghost predicate OwnEntry(run: seq<State>, b: nat, e: nat, t: nat, x: int) {
    && b < |run| && e < |run| && 0 < |run[b].mem.hist| <= x < |run[e].mem.author|
    && forall y :: |run[b].mem.hist| <= y < |run[e].mem.author| ==>
         (OwnedBy(run[e].mem, run[e].mem.author[y], t) <==> y == x)
  }

  ghost predicate NoOwnEntry(run: seq<State>, b: nat, e: nat, t: nat) {
    && b < |run| && e < |run|
    && forall y :: |run[b].mem.hist| <= y < |run[e].mem.author| ==> !OwnedBy(run[e].mem, run[e].mem.author[y], t)
  }

  /** The step into state i, whoever made it, did the change of the call's own record, from before to after, and
      no other record of the call changed the tree. */
  ghost predicate ChangedBy(run: seq<State>, b: nat, e: nat, t: nat, i: int, x: nat,
                            before: map<int, int>, after: map<int, int>) {
    && b < i <= e && OwnEntry(run, b, e, t, x)
    && WroteEntry(TraceOf(Shows(run)), i, x) && ChangedAt(TraceOf(Shows(run)), i, before, after)
  }

  /** The call's result was right at some moment of the call: either it changed nothing and gives an answer that was
      true in some state of the call, or exactly the call's own change to the map was made by one step of the call. */
  ghost predicate Linearized(run: seq<State>, b: nat, e: nat, t: nat)
    requires e < |run| && t < |run[e].threads|
  {
    var th, tr := run[e].threads[t], TraceOf(Shows(run));
    match th.call
    case Find => NoOwnEntry(run, b, e, t) && exists i :: b <= i <= e && AnswerAt(tr, i, th.k, th.result)
    case Insert(v) =>
      || (th.result == Some(0) && NoOwnEntry(run, b, e, t) && exists i, w :: b <= i <= e && AnswerAt(tr, i, th.k, Some(w)))
      || (th.result == Some(1) && exists i, x, before, after ::
            ChangedBy(run, b, e, t, i, x, before, after) && th.k !in before && after == before[th.k := v])
    case Delete =>
      || (th.result == Some(0) && NoOwnEntry(run, b, e, t) && exists i :: b <= i <= e && AnswerAt(tr, i, th.k, None))
      || (th.result.Some? && exists i, x, before, after ::
            ChangedBy(run, b, e, t, i, x, before, after)
            && Lookup(before, th.k) == th.result && after == before - {th.k})
  }

  lemma ChangeIsOwn(run: seq<State>, b: nat, e: nat, t: nat, x: int) returns (i: nat)
    requires HistoryRun(Shows(run)) && InCall(Shows(run), b, e, t) && ChangedOnce(run[e].mem, t, run[e].threads[t], x)
    ensures x > 0 && |run[e].mem.hist| > x
    ensures ChangedBy(run, b, e, t, i, x, Contents(run[e].mem.hist[x - 1]), Contents(run[e].mem.hist[x]))
  {
    TraceLinked(Shows(run));
    CallFrozen(Shows(run), b, e, t);
    hide HistoryRun, InCall, IsTrace, OwnedBy;
    i := ChangeMoment(TraceOf(Shows(run)), b, e, x);
  }

  lemma ResultLinearizes(run: seq<State>, b: nat, e: nat, t: nat)
    requires HistoryRun(Shows(run)) && InCall(Shows(run), b, e, t) && ResultOk(run[e].mem, t, run[e].threads[t])
    requires |run[e].mem.author| == |run[e].mem.hist|
    ensures Linearized(run, b, e, t)
  {
    var m, th, tr := run[e].mem, run[e].threads[t], TraceOf(Shows(run));
    TraceLinked(Shows(run));
    CallFrozen(Shows(run), b, e, t);
    hide HistoryRun, IsTrace, OwnedBy;
    if ChangedNothing(m, t, th) {
      match th.call
      case Find =>
        var i := AnswerMoment(tr, b, e, th.k, th.result);
      case Insert(_) =>
        var w :| AnswerHeld(m.hist, th.since, th.k, Some(w));
        var i := AnswerMoment(tr, b, e, th.k, Some(w));
      case Delete =>
        var i := AnswerMoment(tr, b, e, th.k, None);
    } else {
      var x :| ChangedOnce(m, t, th, x);
      var i := ChangeIsOwn(run, b, e, t, x);
    }
  }

  lemma EveryCallLinearizes(run: seq<State>, b: nat, e: nat, t: nat)
    requires Run(run) && InCall(Shows(run), b, e, t) && run[e].threads[t].pc == Done
    ensures Linearized(run, b, e, t)
  {
    RunInv(run, e);
    assert ThreadInv(run[e].mem, t, run[e].threads[t]);
    assert ResultOk(run[e].mem, t, run[e].threads[t]);
    RunIsHistoryRun(run);
    hide Run, Inv, ThreadInv, ResultOk, Linearized, HistoryRun;
    AuthorsMatch(run, e);
    ResultLinearizes(run, b, e, t);
  }

  lemma AuthorsMatch(run: seq<State>, i: nat)
    requires Run(run) && i < |run|
    ensures |run[i].mem.author| == |run[i].mem.hist|
  {
    RunInv(run, i);
    hide Run, ThreadInv;
    MemParts(run[i].mem);
  }

  /** What a record of thread t wrote stays the work of a record of thread t. */
  lemma OwnerStays(run: seq<State>, i: nat, j: nat, x: nat, t: nat)
    requires Run(run) && HistoryRun(Shows(run)) && i <= j < |run| && x < |run[i].mem.author|
    requires OwnedBy(run[i].mem, run[i].mem.author[x], t)
    ensures x < |run[j].mem.author| && OwnedBy(run[j].mem, run[j].mem.author[x], t)
  {
    hide Run, HistoryRun;
    AuthorsStay(Shows(run), i, j);
    RecordForever(run, i, j, run[i].mem.author[x]);
  }

  /** Two calls, of one thread or of two, never share a change. */
  lemma NoSharedChange(run: seq<State>, b: nat, e: nat, t: nat, x: nat, c: nat, f: nat, u: nat, y: nat)
    requires Run(run) && InCall(Shows(run), b, e, t) && InCall(Shows(run), c, f, u) && (b != c || t != u)
    requires OwnEntry(run, b, e, t, x) && OwnEntry(run, c, f, u, y)
    ensures x != y
  {
    hide Run, InCall, HistoryRun;
    RunIsHistoryRun(run);
    AuthorsMatch(run, e);
    AuthorsMatch(run, f);
    if t == u && b < c {
      CallsApart(Shows(run), b, e, t, c, f);
    } else if t == u {
      CallsApart(Shows(run), c, f, t, b, e);
    } else {
      assert OwnedBy(run[e].mem, run[e].mem.author[x], t) && OwnedBy(run[f].mem, run[f].mem.author[y], u);
      if e <= f {
        OwnerStays(run, e, f, x, t);
      } else {
        OwnerStays(run, f, e, y, u);
      }
    }
  }
}
