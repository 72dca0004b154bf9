/** A call of the non-blocking tree that runs alone returns (src/bst/bst_ellen.c).

    Other threads may have stopped anywhere, with their flags and marks in the tree. A call that
    then searches and runs alone helps what stands in its way; every retry has settled a record that was
    not settled before, and so the call comes to its end.
 */
module BstEllenProgress {
  import opened Options
  import opened ExternalTree
  import opened TreeHistory
  import opened BstEllen
  import opened BstEllenInvariant
  import opened BstEllenThreads
  import opened BstEllenSafety
  import opened BstEllenRuns
  import opened BstEllenFlags

  // ----- how deep

  /** The number of routers a search for k visits. */
  function Depth(t: Tree, k: int): nat {
    if t.Leaf? then 0 else 1 + Depth(Toward(t, k), k)
  }

  function Size(t: Tree): nat {
    match t
    case Leaf(_, _, _) => 1
    case Node(_, _, l, r) => 1 + Size(l) + Size(r)
  }

  /** The number of routers above node n of t */
  function DepthOf(t: Tree, n: Addr): nat {
    if t.Leaf? || t.id == n then 0
    else if n in Ids(t.left) then 1 + DepthOf(t.left, n)
    else 1 + DepthOf(t.right, n)
  }

  lemma {:induction false} DepthBelowSize(t: Tree, n: Addr)
    requires n in Ids(t)
    ensures DepthOf(t, n) < Size(t)
  {
    if t.Node? && t.id != n {
      if n in Ids(t.left) {
        DepthBelowSize(t.left, n);
      } else {
        DepthBelowSize(t.right, n);
      }
    }
  }

  /** A child is one deeper than its router. */
  lemma {:induction false} ChildDeeper(h: Heap, t: Tree, k: int, n: Addr)
    requires Rep(h, t) && Distinct(t) && n in Path(t, k) && n in h && !h[n].leaf
    ensures n in Ids(t) && h[n].Next(k) in Ids(t) && DepthOf(t, h[n].Next(k)) == DepthOf(t, n) + 1
  {
    var c := Toward(t, k);
    assert c.id in Ids(c) && Ids(c) <= Ids(t);
    if n != t.id {
      ChildDeeper(h, c, k, n);
    } else {
      assert h[n].Next(k) == c.id && c.id != t.id;
    }
  }

  // ----- what is left to help

  /** The records that somebody is still working on */
  ghost function Unsettled(m: Memory): set<nat> {
    set o | o in m.ops && !Settled(m.ops[o])
  }

  lemma {:induction false} SubsetSize<T>(a: set<T>, b: set<T>)
    requires a <= b
    ensures |a| <= |b| && (a != b ==> |a| < |b|)
  {
    if a != {} {
      var x :| x in a;
      SubsetSize(a - {x}, b - {x});
      assert a != b ==> a - {x} != b - {x};
    } else if b != {} {
      var x :| x in b;
    }
  }

  function Weight(m: Memory, f: Frame): int
    requires m.hist != []
  {
    match f
    case HelpInsert(_, linked) => if linked then 1 else 2
    case HelpMarked(_, stage, _) => (match stage case ReadOther => 3 case SpliceCas => 2 case CleanCas => 1)
    case HelpDelete(o, back) =>
      if back then 1
      else if o in m.ops && m.ops[o].DOp? && m.ops[o].phase == Flagged then
        5 + 2 * (Size(Last(m.hist)) - DepthOf(Last(m.hist), m.ops[o].gp))
      else 4
  }

  predicate Backing(f: Frame) {
    f.HelpDelete? && f.back
  }

  /** The helping calls of a search: the innermost works, the others will back out; and either a record has been
      settled since the search began, or the outermost call's will be. */
  ghost predicate Helping(m: Memory, stack: seq<Frame>, budget: nat) {
    && stack != []
    && (forall i :: 1 <= i < |stack| ==> Backing(stack[i]))
    && (stack[0].HelpDelete? && !stack[0].back ==> stack[0].op in Unsettled(m))
    && |Unsettled(m)| <= budget
    && (|Unsettled(m)| < budget || stack[|stack| - 1].op in Unsettled(m))
  }

  // ----- one step of a helping call

  ghost predicate Lighter(m: Memory, f: Frame, m': Memory, fs: seq<Frame>) {
    && m.hist != [] && m'.hist != []
    && (fs == [] ==> Weight(m, f) >= 1)
    && (fs != [] ==> Weight(m', fs[0]) + |fs| < Weight(m, f) + 1)
    && (forall i :: 1 <= i < |fs| ==> Backing(fs[i]))
    && (fs != [] && fs[0].HelpDelete? && !fs[0].back ==> fs[0].op in Unsettled(m'))
  }

  lemma InsertLighter(m: Memory, o: nat, linked: bool)
    requires InsertRecord(m, o) && m.hist != []
    ensures Lighter(m, HelpInsert(o, linked), InsertFrame(m, o, linked).0, InsertFrame(m, o, linked).1)
  {
    hide Graft, End, Fork, Unsettled;
  }

  lemma MarkedLighter(m: Memory, o: nat, stage: Stage, other: Addr)
    requires DeleteRecord(m, o) && m.hist != [] && (stage == SpliceCas ==> other in m.cells)
    ensures Lighter(m, HelpMarked(o, stage, other), MarkedFrame(m, o, stage, other).0, MarkedFrame(m, o, stage, other).1)
  {
    hide Splice, Unsettled;
  }

  lemma BackLighter(m: Memory, o: nat)
    requires DeleteRecord(m, o) && m.hist != []
    ensures Lighter(m, HelpDelete(o, true), DeleteFrame(m, o, true).0, DeleteFrame(m, o, true).1)
  {
    hide Unsettled;
  }

  lemma MarkLighter(m: Memory, o: nat)
    requires DeleteRecord(m, o) && m.hist != [] && Weight(m, HelpDelete(o, false)) >= 4
    requires m.upd[m.ops[o].p] == m.ops[o].pupdate || m.upd[m.ops[o].p] == Word(o, Mark)
    ensures Lighter(m, HelpDelete(o, false), DeleteFrame(m, o, false).0, DeleteFrame(m, o, false).1)
  {
    hide Unsettled;
  }

  /** The record whose word stands on a node of the tree that is flagged or marked is not settled. */
  lemma WordUnsettled(m: Memory, n: Addr)
    requires MemInv(m) && n in m.upd && (InTree(m, n) || m.upd[n].flag != Mark) && m.upd[n].flag != Clean
    ensures m.upd[n].op in Unsettled(m)
  {
    hide MemInv, Settled, InTree;
    if IsFlag(m.upd[n]) {
      FlagUnsettled(m, n);
    } else {
      MarkedInTree(m, n);
    }
  }

  /** A deletion that is not marked is still flagged: p hangs below gp in the tree. */
  lemma FlaggedFacts(m: Memory, o: nat)
    requires MemInv(m) && DeleteRecord(m, o) && o in Unsettled(m) && m.upd[m.ops[o].p] != Word(o, Mark)
    ensures m.hist != [] && m.ops[o].phase == Flagged && m.ops[o].gp in Ids(Last(m.hist)) && InTree(m, m.ops[o].p)
    ensures var t := Last(m.hist);
            DepthOf(t, m.ops[o].p) == DepthOf(t, m.ops[o].gp) + 1 && DepthOf(t, m.ops[o].p) < Size(t)
  {
    var op := m.ops[o];
    RecordOk(m, o);
    TreeRep(m);
    hide MemInv, WordsOk, Tables, Effect, SameSide, Rep, Distinct;
    assert DOpOk(m, o, op);
    assert op.phase == Flagged;
    assert Leads(m, op.gp, op.k, op.p) && Router(m, op.gp);
    hide DOpOk;
    ChildDeeper(m.cells, Last(m.hist), op.k, op.gp);
    DepthBelowSize(Last(m.hist), op.p);
  }

  lemma TreeRep(m: Memory)
    requires MemInv(m)
    ensures m.hist != [] && Rep(m.cells, Last(m.hist)) && Distinct(Last(m.hist)) && Last(m.hist).Node?
            && Last(m.hist).id == ROOT
  {
    hide WordsOk, Tables, Live, OpsOk, AuthorsOk, Past, WalkClosed, GoneForGood;
  }

  lemma FlagRecord(m: Memory, n: Addr)
    requires MemInv(m) && n in m.upd && m.upd[n].flag == DFlag
    ensures m.upd[n].op in m.ops && m.ops[m.upd[n].op].DOp? && m.ops[m.upd[n].op].gp == n
  {
    hide TreeInv, Live, OpsOk, AuthorsOk;
    assert WordsOk(m) && Tables(m) && Fits(m.ops, n, m.upd[n]);
  }

  /** The calls that take its place weigh less. */
  lemma NestedFrames(m: Memory, o: nat, w: Word)
    requires m.hist != [] && o in m.ops && m.ops[o].DOp? && m.ops[o].phase == Flagged
    requires var t := Last(m.hist); DepthOf(t, m.ops[o].p) == DepthOf(t, m.ops[o].gp) + 1 && DepthOf(t, m.ops[o].p) < Size(t)
    requires w.flag != Clean ==> w.op in Unsettled(m)
    requires w.flag == DFlag ==> w.op in m.ops && m.ops[w.op].DOp? && m.ops[w.op].gp == m.ops[o].p
    ensures Lighter(m, HelpDelete(o, false), m, Help(w) + [HelpDelete(o, true)])
  {
    var fs := Help(w) + [HelpDelete(o, true)];
    hide DepthOf, Size, Unsettled;
    match w.flag
    case Clean => assert fs == [HelpDelete(o, true)];
    case IFlag => assert fs == [HelpInsert(w.op, false), HelpDelete(o, true)];
    case DFlag => assert fs == [HelpDelete(w.op, false), HelpDelete(o, true)];
    case Mark => assert fs == [HelpMarked(w.op, ReadOther, ROOT), HelpDelete(o, true)];
  }

  /** A deletion that meets another record's word on p helps that record first, which stands one deeper in the tree. */
  lemma NestedLighter(m: Memory, o: nat)
    requires MemInv(m) && DeleteRecord(m, o) && m.hist != [] && o in Unsettled(m)
    requires m.upd[m.ops[o].p] != m.ops[o].pupdate && m.upd[m.ops[o].p] != Word(o, Mark)
    ensures Lighter(m, HelpDelete(o, false), DeleteFrame(m, o, false).0, DeleteFrame(m, o, false).1)
  {
    var p := m.ops[o].p;
    var w := m.upd[p];
    hide MemInv, Unsettled, InTree;
    FlaggedFacts(m, o);
    if w.flag != Clean {
      WordUnsettled(m, p);
      if w.flag == DFlag {
        FlagRecord(m, p);
      }
    }
    hide DepthOf, Size, Ids, Lighter, Help;
    NestedFrames(m, o, w);
  }

  /** Every step of a helping call makes what is left of it smaller. */
  lemma FrameLighter(m: Memory, f: Frame)
    requires MemInv(m) && CanFrame(m, f) && (f.HelpDelete? && !f.back ==> f.op in Unsettled(m))
    ensures Lighter(m, f, FrameStep(m, f).0, FrameStep(m, f).1)
  {
    hide MemInv, Lighter, InsertFrame, DeleteFrame, MarkedFrame, Unsettled;
    match f
    case HelpInsert(o, linked) => InsertLighter(m, o, linked);
    case HelpMarked(o, stage, other) => MarkedLighter(m, o, stage, other);
    case HelpDelete(o, back) =>
      if back {
        BackLighter(m, o);
      } else if m.upd[m.ops[o].p] == m.ops[o].pupdate || m.upd[m.ops[o].p] == Word(o, Mark) {
        WeightAtLeast(m, o);
        MarkLighter(m, o);
      } else {
        NestedLighter(m, o);
      }
  }

  lemma WeightAtLeast(m: Memory, o: nat)
    requires MemInv(m) && DeleteRecord(m, o) && m.hist != []
    ensures Weight(m, HelpDelete(o, false)) >= 4
  {
    if m.ops[o].phase == Flagged {
      RecordOk(m, o);
      assert DOpOk(m, o, m.ops[o]) && Leads(m, m.ops[o].gp, m.ops[o].k, m.ops[o].p);
      hide MemInv, WordsOk, Tables, Effect, SameSide, DOpOk;
      PathInIds(Last(m.hist), m.ops[o].k);
      DepthBelowSize(Last(m.hist), m.ops[o].gp);
    }
  }

  // ----- the stack of helping calls

  lemma UnsettledShrinks(m: Memory, m': Memory, o: nat)
    requires OpsEvolve(m, m', o) && o in m.ops
    ensures Unsettled(m') <= Unsettled(m)
  {
    forall q | q in Unsettled(m') ensures q in Unsettled(m) {
      assert q in m.ops;
    }
  }

  ghost predicate Popped(m: Memory, stack: seq<Frame>, m': Memory, fs: seq<Frame>) {
    && stack != [] && Unsettled(m') <= Unsettled(m)
    && (if fs == [] then stack[0].op !in Unsettled(m') else fs[|fs| - 1].op == stack[0].op)
  }

  lemma StackShape(m: Memory, stack: seq<Frame>, m': Memory, fs: seq<Frame>, budget: nat)
    requires Helping(m, stack, budget) && Lighter(m, stack[0], m', fs) && Popped(m, stack, m', fs)
    ensures var stack' := fs + stack[1..];
            stack' != [] ==>
              && (forall i :: 1 <= i < |stack'| ==> Backing(stack'[i]))
              && (stack'[0].HelpDelete? && !stack'[0].back ==> stack'[0].op in Unsettled(m'))
              && Weight(m', stack'[0]) + |stack'| < Weight(m, stack[0]) + |stack|
  {
    var stack' := fs + stack[1..];
    hide Unsettled;
    forall i | 1 <= i < |stack'| ensures Backing(stack'[i]) {
      if i >= |fs| {
        assert stack'[i] == stack[i - |fs| + 1];
      }
    }
    if fs == [] && stack' != [] {
      assert stack'[0] == stack[1] && Backing(stack[1]);
    }
  }

  lemma StackBottom(m: Memory, stack: seq<Frame>, m': Memory, fs: seq<Frame>, budget: nat)
    requires Helping(m, stack, budget) && Popped(m, stack, m', fs)
    ensures var stack' := fs + stack[1..];
            && |Unsettled(m')| <= budget
            && (stack' == [] ==> |Unsettled(m')| < budget)
            && (stack' != [] ==> |Unsettled(m')| < budget || stack'[|stack'| - 1].op in Unsettled(m'))
  {
    var stack' := fs + stack[1..];
    SubsetSize(Unsettled(m'), Unsettled(m));
    hide Unsettled;
    if stack' != [] && |Unsettled(m)| == budget {
      var bottom := stack[|stack| - 1].op;
      assert stack'[|stack'| - 1].op == bottom;
      if bottom !in Unsettled(m') {
        assert Unsettled(m') != Unsettled(m);
      }
    }
  }

  lemma StackOn(m: Memory, stack: seq<Frame>, m': Memory, fs: seq<Frame>, budget: nat)
    requires Helping(m, stack, budget) && Lighter(m, stack[0], m', fs) && Popped(m, stack, m', fs)
    ensures var stack' := fs + stack[1..];
            && (stack' == [] ==> |Unsettled(m')| < budget)
            && (stack' != [] ==>
                  Helping(m', stack', budget) && m.hist != [] && m'.hist != []
                  && Weight(m', stack'[0]) + |stack'| < Weight(m, stack[0]) + |stack|)
  {
    StackShape(m, stack, m', fs, budget);
    StackBottom(m, stack, m', fs, budget);
    hide Unsettled, Popped, Weight;
  }

  lemma FramePops(m: Memory, f: Frame)
    requires MemInv(m) && FrameOk(m, f) && CanFrame(m, f)
    ensures Popped(m, [f], FrameStep(m, f).0, FrameStep(m, f).1)
  {
    hide MemInv, FrameOk, CanFrame, FrameStep, Settled, Evolves, TookEffect;
    FrameStepKeeps(m, f);
    var (m', fs) := FrameStep(m, f);
    EvolvesParts(m, m', f.op);
    hide OpsEvolve, WordsEvolve, CellsEvolve, HistEvolve, PreparedEvolve, MarkFair;
    UnsettledShrinks(m, m', f.op);
    if fs == [] {
      ReturnsSettled(m, f);
    }
  }

  lemma PoppedAny(m: Memory, f: Frame, stack: seq<Frame>, m': Memory, fs: seq<Frame>)
    requires stack != [] && stack[0] == f && Popped(m, [f], m', fs)
    ensures Popped(m, stack, m', fs)
  {
    hide Unsettled;
  }

  /** One step of helping during a search */
  lemma HelpsOn(m: Memory, stack: seq<Frame>, budget: nat)
    requires MemInv(m) && Helping(m, stack, budget) && FrameOk(m, stack[0]) && CanFrame(m, stack[0])
    ensures var (m', fs) := FrameStep(m, stack[0]);
            var stack' := fs + stack[1..];
            && (stack' == [] ==> |Unsettled(m')| < budget)
            && (stack' != [] ==>
                  Helping(m', stack', budget) && m.hist != [] && m'.hist != []
                  && Weight(m', stack'[0]) + |stack'| < Weight(m, stack[0]) + |stack|)
  {
    var f := stack[0];
    assert f.HelpDelete? && !f.back ==> f.op in Unsettled(m);
    hide *;
    FrameLighter(m, f);
    FramePops(m, f);
    var (m', fs) := FrameStep(m, f);
    PoppedAny(m, f, stack, m', fs);
    StackOn(m, stack, m', fs, budget);
  }

  // ----- a call that runs alone

  /** The search stands on the root of a subtree of the tree. */
  ghost predicate StandsOn(m: Memory, sub: Tree, n: Addr) {
    && m.hist != [] && sub.Node? && sub.id == n
    && Rep(m.cells, sub) && Distinct(sub) && Ids(sub) <= Ids(Last(m.hist))
  }

  /** The word read from n still stands there, and n is in the tree. */
  predicate Current(m: Memory, n: Addr, w: Word) {
    n in m.upd && m.upd[n] == w && InTree(m, n)
  }

  /** The helping call for the thread's own record, which nobody disturbs */
  predicate OwnCall(m: Memory, th: Thread) {
    && |th.stack| <= 1
    && (th.pc == AwaitInsert && th.stack != [] ==> th.stack[0].HelpInsert?)
    && (th.pc == AwaitDelete && th.stack == [] ==> th.ret)
    && (th.pc == AwaitDelete && th.stack != [] ==> th.stack[0].HelpMarked? || CanMark(m, th.stack[0]))
  }

  predicate CanMark(m: Memory, f: Frame) {
    && f.HelpDelete? && !f.back && f.op in m.ops && m.ops[f.op].DOp?
    && m.ops[f.op].p in m.upd && m.upd[m.ops[f.op].p] == m.ops[f.op].pupdate
  }

  ghost predicate AloneSearch(m: Memory, th: Thread, sub: Tree, budget: nat) {
    && |Unsettled(m)| <= budget && m.hist != []
    && (th.pc == ReadUpdate ==>
          StandsOn(m, sub, th.l) && (th.l != ROOT ==> th.p != th.l && Current(m, th.p, th.pu)))
    && (th.pc == ReadChild ==>
          && StandsOn(m, sub, th.p) && Current(m, th.p, th.pu)
          && (th.p != ROOT ==> th.gp != th.p && Current(m, th.gp, th.gpu)))
  }

  predicate Searches(pc: Pc) {
    pc == Start || pc == ReadUpdate || pc == ReadChild
  }

  /** What holds of a call that has run alone since it began to search. */
  ghost predicate Alone(m: Memory, th: Thread, sub: Tree, budget: nat) {
    && th.pc != Idle && m.hist != []
    && (th.stack != [] ==> th.pc == Start || Waiting(th))
    && (Searches(th.pc) && th.stack == [] ==> AloneSearch(m, th, sub, budget))
    && (th.pc == Start && th.stack != [] ==> Helping(m, th.stack, budget))
    && (th.pc == FlagCas ==>
          Current(m, th.p, th.pu) && (th.call.Delete? ==> th.gp != th.p && Current(m, th.gp, th.gpu)))
    && (Waiting(th) ==> OwnCall(m, th))
  }

  /** How many steps are left until the call is done or goes back to its start. */
  function Left(m: Memory, th: Thread, sub: Tree): int
    requires m.hist != []
  {
    var room := 2 * Size(Last(m.hist)) + 8;
    match th.pc
    case Start => if th.stack != [] then Weight(m, th.stack[0]) + |th.stack| else room + 2 * Depth(Last(m.hist), th.k) + 6
    case ReadUpdate => room + 2 * Depth(sub, th.k) + 5
    case ReadChild => room + 2 * Depth(sub, th.k) + 4
    case FlagCas => 8
    case AwaitInsert => 1 + OwnLeft(th.stack)
    case AwaitDelete => 1 + OwnLeft(th.stack)
    case Done => 0
    case Idle => 0
  }

  function OwnLeft(stack: seq<Frame>): nat {
    if stack == [] then 0
    else match stack[0]
         case HelpInsert(_, linked) => if linked then 1 else 2
         case HelpMarked(_, stage, _) => (match stage case ReadOther => 3 case SpliceCas => 2 case CleanCas => 1)
         case HelpDelete(_, _) => 4
  }

  /** The step got on: a record has been settled since the search began and it starts anew, or less is left to do. */
  ghost predicate GotOn(m: Memory, th: Thread, sub: Tree, b: nat, m': Memory, th': Thread, sub': Tree, b': nat) {
    && m.hist != [] && m'.hist != [] && Alone(m', th', sub', b')
    && (b' < b || (b' == b && Left(m', th', sub') < Left(m, th, sub)))
  }

  lemma StartsAlone(m: Memory, th: Thread, sub: Tree, b: nat)
    requires MemInv(m) && Alone(m, th, sub, b) && th.pc == Start && th.stack == []
    ensures GotOn(m, th, sub, b, m, SearchStep(m, th), Last(m.hist), b)
  {
    TreeRep(m);
    hide MemInv, Unsettled, Size, Rep, Distinct, Help;
  }

  lemma ReadsAlone(m: Memory, th: Thread, sub: Tree, b: nat)
    requires Alone(m, th, sub, b) && th.pc == ReadUpdate && th.stack == [] && CanStep(m, th)
    ensures GotOn(m, th, sub, b, m, SearchStep(m, th), sub, b)
  {
    assert th.l in Ids(sub);
    hide Unsettled, Size, Rep, Distinct, Help, Ids;
  }

  lemma ChildTree(m: Memory, sub: Tree, n: Addr, k: int)
    requires StandsOn(m, sub, n)
    ensures n in m.cells && m.cells[n].Next(k) == Toward(sub, k).id && n != Toward(sub, k).id
    ensures m.cells[n].Next(k) in m.cells
    ensures m.cells[Toward(sub, k).id].leaf <==> Toward(sub, k).Leaf?
    ensures Toward(sub, k).Node? ==> StandsOn(m, Toward(sub, k), Toward(sub, k).id)
  {
    var c := Toward(sub, k);
    assert c.id in Ids(c);
    assert Rep(m.cells, c) && Ids(c) <= Ids(sub);
  }

  lemma DescendsAlone(m: Memory, th: Thread, sub: Tree, b: nat)
    requires AloneSearch(m, th, sub, b) && th.pc == ReadChild && th.stack == [] && CanStep(m, th)
    requires !m.cells[m.cells[th.p].Next(th.k)].leaf
    ensures GotOn(m, th, sub, b, m, SearchStep(m, th), Toward(sub, th.k), b)
  {
    ChildTree(m, sub, th.p, th.k);
    hide Unsettled, Size, Rep, Distinct, Help, StandsOn;
  }

  /** A flag or a mark met at the end of a search is of a record that is not settled: helping it is not in vain. */
  lemma HelpsInTheWay(m: Memory, n: Addr, w: Word, b: nat)
    requires MemInv(m) && Current(m, n, w) && w.flag != Clean && |Unsettled(m)| <= b
    ensures Help(w) != [] && m.hist != [] && Helping(m, Help(w), b)
    ensures Weight(m, Help(w)[0]) + |Help(w)| <= 2 * Size(Last(m.hist)) + 6
  {
    hide MemInv, Unsettled, Size, DepthOf;
    WordUnsettled(m, n);
  }

  lemma LeafOutcome(th: Thread, leaf: Cell)
    requires th.stack == []
    ensures var th' := AtLeafStep(th, leaf);
            && th' == th.(pc := th'.pc, stack := th'.stack, found := th'.found, result := th'.result)
            && (th'.pc == Done || th'.pc == Start || th'.pc == FlagCas) && (th'.pc != Start ==> th'.stack == [])
            && (th'.pc == FlagCas && th.call.Delete? ==> leaf.key == th.k)
            && (th'.pc == Start ==>
                  || (th.call.Delete? && leaf.key == th.k && th.gpu.flag != Clean && th'.stack == Help(th.gpu))
                  || (th.pu.flag != Clean && th'.stack == Help(th.pu)))
  {
    hide Help;
  }

  lemma GoesToHelp(m: Memory, th: Thread, sub: Tree, b: nat, th': Thread, n: Addr, w: Word)
    requires MemInv(m) && AloneSearch(m, th, sub, b) && th.pc == ReadChild && th.stack == []
    requires th'.pc == Start && th'.stack == Help(w) && w.flag != Clean && Current(m, n, w)
    ensures GotOn(m, th, sub, b, m, th', sub, b)
  {
    hide MemInv, Unsettled, Size, StandsOn, Current, Depth, Weight, Helping, Help;
    HelpsInTheWay(m, n, w, b);
  }

  lemma GoesToFlag(m: Memory, th: Thread, sub: Tree, b: nat, th': Thread)
    requires AloneSearch(m, th, sub, b) && th.pc == ReadChild && th.stack == [] && th'.stack == []
    requires th' == th.(l := th'.l, pc := th'.pc, found := th'.found, result := th'.result)
    requires th'.pc == Done || (th'.pc == FlagCas && (th.call.Delete? ==> th.p != ROOT))
    ensures GotOn(m, th, sub, b, m, th', sub, b)
  {
    assert Depth(sub, th.k) >= 1;
    hide Unsettled, Size, StandsOn, Current, Depth, Weight, Helping, Help;
  }

  /** A leaf with a caller's key has a router above its own. */
  lemma DeleteHasGrand(m: Memory, th: Thread, sub: Tree, b: nat)
    requires MemInv(m) && GoodKey(th.k) && AloneSearch(m, th, sub, b) && th.pc == ReadChild
    requires th.p in m.cells && m.cells[th.p].Next(th.k) in m.cells
    ensures var c := m.cells[m.cells[th.p].Next(th.k)];
            c.leaf && c.key == th.k ==> th.p != ROOT && Current(m, th.gp, th.gpu)
    ensures Current(m, th.p, th.pu)
  {
    hide Unsettled, StandsOn, Current;
    if th.p == ROOT {
      NoKeyUnderRoot(m, th.k);
    }
    hide MemInv;
  }

  lemma LeafAlone(m: Memory, th: Thread, sub: Tree, b: nat)
    requires MemInv(m) && GoodKey(th.k) && AloneSearch(m, th, sub, b) && th.pc == ReadChild && th.stack == []
    requires CanStep(m, th) && m.cells[m.cells[th.p].Next(th.k)].leaf
    ensures GotOn(m, th, sub, b, m, SearchStep(m, th), sub, b)
  {
    var c := m.cells[th.p].Next(th.k);
    var th' := SearchStep(m, th);
    assert th' == AtLeafStep(th.(l := c), m.cells[c]) && th.p in m.cells && c in m.cells;
    LeafOutcome(th.(l := c), m.cells[c]);
    hide *;
    DeleteHasGrand(m, th, sub, b);
    if th'.pc == Start {
      if th.call.Delete? && m.cells[c].key == th.k && th.gpu.flag != Clean && th'.stack == Help(th.gpu) {
        GoesToHelp(m, th, sub, b, th', th.gp, th.gpu);
      } else {
        GoesToHelp(m, th, sub, b, th', th.p, th.pu);
      }
    } else {
      GoesToFlag(m, th, sub, b, th');
    }
  }

  lemma FlagsAlone(m: Memory, t: nat, th: Thread, sub: Tree, b: nat)
    requires Alone(m, th, sub, b) && th.pc == FlagCas && th.stack == [] && CanStep(m, th) && m.serial !in m.ops
    requires !th.call.Find?
    ensures GotOn(m, th, sub, b, FlagStep(m, t, th).0, FlagStep(m, t, th).1, sub, b)
  {
    hide Unsettled, Size, Help, InsertCells;
  }

  lemma OwnInsertAlone(m: Memory, t: nat, th: Thread, sub: Tree, b: nat)
    requires Alone(m, th, sub, b) && th.pc == AwaitInsert && th.stack != [] && CanStep(m, th)
    ensures GotOn(m, th, sub, b, Advance(m, t, th).0, Advance(m, t, th).1, sub, b)
  {
    hide Unsettled, Size, Help, Graft, Fork, End;
  }

  lemma OwnDeleteAlone(m: Memory, t: nat, th: Thread, sub: Tree, b: nat)
    requires Alone(m, th, sub, b) && th.pc == AwaitDelete && th.stack != [] && CanStep(m, th)
    ensures GotOn(m, th, sub, b, Advance(m, t, th).0, Advance(m, t, th).1, sub, b)
  {
    hide Unsettled, Size, Help, Splice;
  }

  lemma ReturnsAlone(m: Memory, t: nat, th: Thread, sub: Tree, b: nat)
    requires Alone(m, th, sub, b) && Waiting(th) && th.stack == []
    ensures CanStep(m, th) && GotOn(m, th, sub, b, Advance(m, t, th).0, Advance(m, t, th).1, sub, b)
  {
    hide Unsettled, Size, Help;
  }

  lemma HistStays(m: Memory, f: Frame)
    requires CanFrame(m, f)
    ensures FrameStep(m, f).0.hist != []
  {
    hide Help, Graft, Splice, End, Fork;
  }

  lemma HelpAlone(m: Memory, t: nat, th: Thread, sub: Tree, b: nat) returns (b': nat)
    requires MemInv(m) && FramesOk(m, th) && Alone(m, th, sub, b) && th.pc == Start && th.stack != [] && CanStep(m, th)
    ensures GotOn(m, th, sub, b, Advance(m, t, th).0, Advance(m, t, th).1, sub, b')
  {
    assert Helping(m, th.stack, b) && FrameOk(m, th.stack[0]) && m.hist != [];
    hide MemInv, FramesOk, FrameOk, CanStep, Alone, Advance, Unsettled, Helping, Size, Weight, FrameStep, CanFrame;
    HelpAdvance(m, t, th);
    HelpsOn(m, th.stack, b);
    HistStays(m, th.stack[0]);
    var (m', fs) := FrameStep(m, th.stack[0]);
    var th' := th.(stack := fs + th.stack[1..], ret := ReturnValue(th.stack[0]));
    b' := if th'.stack == [] then b - 1 else b;
    HelpedAlone(m, m', th, th', sub, b, b');
  }

  lemma HelpedAlone(m: Memory, m': Memory, th: Thread, th': Thread, sub: Tree, b: nat, b': nat)
    requires m.hist != [] && m'.hist != [] && th.pc == Start && th.stack != []
    requires th' == th.(stack := th'.stack, ret := th'.ret)
    requires th'.stack == [] ==> |Unsettled(m')| <= b' < b
    requires th'.stack != [] ==>
               b' == b && Helping(m', th'.stack, b)
               && Weight(m', th'.stack[0]) + |th'.stack| < Weight(m, th.stack[0]) + |th.stack|
    ensures GotOn(m, th, sub, b, m', th', sub, b')
  {
    hide Unsettled, Helping, Weight, Size;
  }

  /** What the invariants say that the steps need. */
  lemma CallFacts(m: Memory, t: nat, th: Thread)
    requires MemInv(m) && ThreadInv(m, t, th) && th.pc != Idle
    ensures GoodKey(th.k) && FramesOk(m, th) && m.serial !in m.ops && m.hist != []
    ensures th.pc == FlagCas ==> !th.call.Find?
  {
    MemParts(m);
    SerialIsNew(m);
    assert CallOk(m, th) && SearchOk(m, th);
    hide MemInv, TreeInv, Tables, WordsOk, Live, OpsOk, AuthorsOk, FramesOk, SettledOk, NoOtherWrite, WaitOk, ResultOk,
         EdgeRead;
  }

  /** Every step of a call that runs alone gets it on. */
  lemma AloneStep(m: Memory, t: nat, th: Thread, sub: Tree, b: nat) returns (sub': Tree, b': nat)
    requires MemInv(m) && ThreadInv(m, t, th) && Alone(m, th, sub, b) && th.pc != Done && CanStep(m, th)
    ensures GotOn(m, th, sub, b, Advance(m, t, th).0, Advance(m, t, th).1, sub', b')
  {
    assert th.pc != Idle && (th.stack != [] ==> th.pc == Start || Waiting(th)) && m.hist != [];
    assert Searches(th.pc) && th.stack == [] ==> AloneSearch(m, th, sub, b);
    hide MemInv, ThreadInv, CanStep, Alone, AloneSearch, GotOn, FramesOk, FlagStep;
    CallFacts(m, t, th);
    sub', b' := sub, b;
    if th.pc == Start && th.stack != [] {
      b' := HelpAlone(m, t, th, sub, b);
    } else if th.pc == Start {
      sub' := Last(m.hist);
      StartsAlone(m, th, sub, b);
    } else if th.pc == ReadUpdate {
      ReadsAlone(m, th, sub, b);
    } else if th.pc == ReadChild {
      sub' := ChildAlone(m, t, th, sub, b);
    } else if th.pc == FlagCas {
      FlagsAlone(m, t, th, sub, b);
    } else if th.stack == [] {
      ReturnsAlone(m, t, th, sub, b);
    } else if th.pc == AwaitInsert {
      OwnInsertAlone(m, t, th, sub, b);
    } else {
      OwnDeleteAlone(m, t, th, sub, b);
    }
  }

  lemma ChildAlone(m: Memory, t: nat, th: Thread, sub: Tree, b: nat) returns (sub': Tree)
    requires MemInv(m) && GoodKey(th.k) && AloneSearch(m, th, sub, b) && th.pc == ReadChild && th.stack == []
    requires CanStep(m, th)
    ensures GotOn(m, th, sub, b, Advance(m, t, th).0, Advance(m, t, th).1, sub', b)
  {
    assert sub.Node? && th.p in m.cells && m.cells[th.p].Next(th.k) in m.cells;
    assert Advance(m, t, th) == (m, SearchStep(m, th));
    hide *;
    if m.cells[m.cells[th.p].Next(th.k)].leaf {
      sub' := sub;
      LeafAlone(m, th, sub, b);
    } else {
      sub' := Toward(sub, th.k);
      DescendsAlone(m, th, sub, b);
    }
  }

  // ----- to the end of the call

  /** Within n steps of its own, with nobody else running, the thread's call is done. */
  ghost predicate ReachesDone(m: Memory, t: nat, th: Thread, n: nat)
    decreases n
  {
    || th.pc == Done
    || (n > 0 && CanStep(m, th) && ReachesDone(Advance(m, t, th).0, t, Advance(m, t, th).1, n - 1))
  }

  lemma WeightPositive(m: Memory, f: Frame)
    requires MemInv(m) && CanFrame(m, f)
    ensures m.hist != [] && Weight(m, f) >= 1
  {
    if f.HelpDelete? && !f.back {
      hide MemInv, Weight;
      WeightAtLeast(m, f.op);
    }
  }

  lemma LeftPositive(m: Memory, th: Thread, sub: Tree, b: nat)
    requires MemInv(m) && Alone(m, th, sub, b) && CanStep(m, th) && th.pc != Done
    ensures m.hist != [] && Left(m, th, sub) > 0
  {
    assert m.hist != [] && th.pc != Idle;
    hide MemInv, Alone, Size, Weight;
    if th.pc == Start && th.stack != [] {
      WeightPositive(m, th.stack[0]);
    }
  }

  lemma {:induction false} AloneGoesOn(m: Memory, t: nat, th: Thread, sub: Tree, b: nat) returns (n: nat)
    requires MemInv(m) && ThreadInv(m, t, th) && Alone(m, th, sub, b) && m.hist != []
    ensures ReachesDone(m, t, th, n)
    decreases b, if Left(m, th, sub) < 0 then 0 else Left(m, th, sub)
  {
    n := 0;
    if th.pc != Done {
      assert th.pc != Idle;
      hide MemInv, ThreadInv, Alone, Advance, CanStep, Left;
      AdvanceOk(m, t, th);
      LeftPositive(m, th, sub, b);
      var sub', b' := AloneStep(m, t, th, sub, b);
      var (m', th') := Advance(m, t, th);
      assert MemInv(m') && ThreadInv(m', t, th');
      n := AloneGoesOn(m', t, th', sub', b');
      n := n + 1;
    }
  }

  /** A call that begins to search in any reachable state, wherever the other threads have stopped, is done within a
      number of steps of its own if it runs alone from there: nothing that others left in the tree can hold it up. */
  lemma AloneReturns(run: seq<State>, b: nat, t: nat) returns (n: nat)
    requires Run(run) && b < |run| && t < |run[b].threads|
    requires run[b].threads[t].pc == Start && run[b].threads[t].stack == []
    ensures ReachesDone(run[b].mem, t, run[b].threads[t], n)
  {
    RunInv(run, b);
    var m, th := run[b].mem, run[b].threads[t];
    assert MemInv(m) && ThreadInv(m, t, th);
    hide Run, Inv, MemInv, ThreadInv;
    CallFacts(m, t, th);
    hide Unsettled;
    n := AloneGoesOn(m, t, th, Last(m.hist), |Unsettled(m)|);
  }

  /** From state b to state e only thread t takes steps. */
  ghost predicate RunsAlone(run: seq<State>, b: nat, e: nat, t: nat) {
    && b <= e < |run| && t < |run[b].threads|
    && forall j :: b <= j < e ==> t < |run[j].threads| && ThreadStep(run[j], t, run[j + 1])
  }

  /** So it is in every run in which it takes that many steps. */
  lemma {:induction false} DoneInRun(run: seq<State>, b: nat, e: nat, t: nat, n: nat) returns (j: nat)
    requires RunsAlone(run, b, e, t) && e - b >= n && run[b].threads[t].pc != Idle
    requires ReachesDone(run[b].mem, t, run[b].threads[t], n)
    ensures b <= j <= e && t < |run[j].threads| && run[j].threads[t].pc == Done
    decreases n
  {
    j := b;
    var s := run[b];
    if s.threads[t].pc != Done {
      assert n > 0 && ThreadStep(s, t, run[b + 1]);
      hide Advance, CanStep;
      assert (run[b + 1].mem, run[b + 1].threads[t]) == Advance(s.mem, t, s.threads[t]);
      StepNotIdle(s.mem, t, s.threads[t]);
      j := DoneInRun(run, b + 1, e, t, n - 1);
    }
  }

  lemma StepNotIdle(m: Memory, t: nat, th: Thread)
    requires CanStep(m, th) && th.pc != Done && th.pc != Idle
    ensures Advance(m, t, th).1.pc != Idle
  {
    hide FrameStep, FlagInsert, FlagDelete, Help;
  }
}
