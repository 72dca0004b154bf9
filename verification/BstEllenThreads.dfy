/** What the threads of the non-blocking tree know, and that no step of another thread takes it away. */
module BstEllenThreads {
  import opened Options
  import opened ExternalTree
  import opened TreeHistory
  import opened BstEllen
  import opened BstEllenInvariant

  // ----- helping calls

  predicate InsertFrameOk(m: Memory, f: Frame) {
    f.HelpInsert? ==> f.op in m.ops && m.ops[f.op].IOp? && (f.linked ==> m.ops[f.op].phase != Flagged)
  }

  predicate DeleteFrameOk(m: Memory, f: Frame) {
    f.HelpDelete? ==>
      && f.op in m.ops && m.ops[f.op].DOp?
      && (f.back ==> (m.ops[f.op].phase == Flagged || m.ops[f.op].phase == Aborted)
                     && m.ops[f.op].p in m.upd && m.upd[m.ops[f.op].p] != m.ops[f.op].pupdate)
  }

  predicate MarkedFrameOk(m: Memory, f: Frame) {
    f.HelpMarked? ==>
      && f.op in m.ops && m.ops[f.op].DOp? && HalfRemoved(m.ops[f.op].phase)
      && (f.stage == SpliceCas ==> IsOther(m, m.ops[f.op], f.other))
      && (f.stage == CleanCas ==> m.ops[f.op].phase == Spliced || m.ops[f.op].phase == Finished)
  }

  predicate FrameOk(m: Memory, f: Frame) {
    InsertFrameOk(m, f) && DeleteFrameOk(m, f) && MarkedFrameOk(m, f)
  }

  lemma RecordOk(m: Memory, o: nat)
    requires MemInv(m) && o in m.ops
    ensures OpOk(m, o, m.ops[o]) && Tables(m) && WordsOk(m) && m.hist != [] && |m.author| == |m.hist|
  {
  }

  lemma MemParts(m: Memory)
    requires MemInv(m)
    ensures TreeInv(m) && Tables(m) && WordsOk(m) && Live(m) && OpsOk(m) && AuthorsOk(m) && |m.author| == |m.hist|
            && m.hist != []
  {
    hide TreeInv, Tables, WordsOk, Live, OpsOk;
  }

  lemma EvolvesParts(m: Memory, m': Memory, o: nat)
    requires Evolves(m, m', o)
    ensures MarkFair(m, m', o) && OpsEvolve(m, m', o) && WordsEvolve(m, m', o) && CellsEvolve(m, m', o)
            && HistEvolve(m, m', o)
    ensures PreparedEvolve(m, m')
  {
    hide MarkFair, OpsEvolve, WordsEvolve, CellsEvolve, HistEvolve, PreparedEvolve;
  }

  lemma BackKept(m: Memory, m': Memory, o: nat, f: Frame)
    requires DeleteFrameOk(m, f) && OpsEvolve(m, m', o) && MarkFair(m, m', o) && WordsEvolve(m, m', o) && Tables(m)
    requires f.HelpDelete? ==> DOpOk(m, f.op, m.ops[f.op])
    ensures DeleteFrameOk(m', f)
  {
    if f.HelpDelete? && f.back {
      assert DStatic(m, m.ops[f.op]);
      WordGone(m, m', o, m.ops[f.op].p, m.ops[f.op].pupdate);
    }
  }

  lemma OtherKept(m: Memory, m': Memory, o: nat, f: Frame)
    requires MarkedFrameOk(m, f) && OpsEvolve(m, m', o) && WordsEvolve(m, m', o) && CellsEvolve(m, m', o)
    requires f.HelpMarked? ==> DOpOk(m, f.op, m.ops[f.op])
    ensures MarkedFrameOk(m', f)
  {
    if f.HelpMarked? {
      assert DMarked(m, f.op, m.ops[f.op]) && Router(m, m.ops[f.op].p);
      MarkPins(m, m', o, m.ops[f.op].p);
    }
  }

  lemma InsertFrameKept(m: Memory, m': Memory, o: nat, f: Frame)
    requires InsertFrameOk(m, f) && OpsEvolve(m, m', o)
    ensures InsertFrameOk(m', f)
  {
  }

  lemma FrameRecord(m: Memory, f: Frame)
    requires MemInv(m) && FrameOk(m, f)
    ensures Tables(m) && (f.HelpDelete? || f.HelpMarked? ==> f.op in m.ops && DOpOk(m, f.op, m.ops[f.op]))
  {
    hide MemInv, Tables, WordsOk, DOpOk, IOpOk;
    if f.HelpDelete? || f.HelpMarked? {
      RecordOk(m, f.op);
    } else {
      MemParts(m);
    }
  }

  lemma FrameKept(m: Memory, m': Memory, o: nat, f: Frame)
    requires MemInv(m) && Evolves(m, m', o) && FrameOk(m, f)
    ensures FrameOk(m', f)
  {
    hide MemInv, Evolves, MarkFair, OpsEvolve, WordsEvolve, CellsEvolve, DOpOk, Tables, InsertFrameOk, DeleteFrameOk, MarkedFrameOk;
    EvolvesParts(m, m', o);
    FrameRecord(m, f);
    InsertFrameKept(m, m', o, f);
    BackKept(m, m', o, f);
    OtherKept(m, m', o, f);
  }

  /** A word from the past of an update field is safe to help. */
  lemma HelpOk(m: Memory, n: Addr, w: Word)
    requires Appeared(m.ops, n, w)
    ensures forall i :: 0 <= i < |Help(w)| ==> FrameOk(m, Help(w)[i])
  {
  }

  lemma HelpThen(m: Memory, n: Addr, w: Word, f: Frame)
    requires Appeared(m.ops, n, w) && FrameOk(m, f)
    ensures var fs := Help(w) + [f]; fs[|fs| - 1] == f && forall i :: 0 <= i < |fs| ==> FrameOk(m, fs[i])
  {
    HelpOk(m, n, w);
    hide FrameOk, Appeared;
  }

  lemma SameEvolves(m: Memory, o: nat)
    requires o in m.ops && m.hist != []
    ensures Evolves(m, m, o)
  {
  }

  /** The record of the frame, the frames that replace it, and what it means when there are none. */
  ghost predicate FrameDone(m: Memory, m': Memory, f: Frame, fs: seq<Frame>) {
    && MemInv(m') && Evolves(m, m', f.op) && f.op in m'.ops && f.op in m.ops
    && (forall i :: 0 <= i < |fs| ==> FrameOk(m', fs[i]))
    && (fs != [] ==> fs[|fs| - 1].op == f.op && fs[|fs| - 1].HelpInsert? == f.HelpInsert?)
    && (fs == [] ==> if f.HelpDelete? then m'.ops[f.op].phase == Aborted else TookEffect(m'.ops[f.op]))
  }

  /** What an insertion record says about the two compare-and-swaps of bst_help_insert. */
  lemma InsertFacts(m: Memory, o: nat)
    requires MemInv(m) && o in m.ops && m.ops[o].IOp?
    ensures var op := m.ops[o];
            && InsertRecord(m, o) && m.hist != [] && CasSide(m.cells, op.p, op.ni) == m.cells[op.p].Side(op.k)
            && (op.phase == Flagged ==> CanLink(m, o)) && (op.phase != Flagged ==> TookEffect(op))
            && (op.phase == Flagged <==> m.cells[op.p].Next(op.k) == op.l)
            && (m.upd[op.p] == Word(o, IFlag) ==> op.phase == Flagged || op.phase == Linked)
  {
    hide MemInv;
    RecordOk(m, o);
    var op := m.ops[o];
    assert IStatic(m, o, op) && Fits(m.ops, op.p, m.upd[op.p]);
    hide Tables, WordsOk, Fits, Rep, Effect;
  }

  lemma InsertFrameStep(m: Memory, f: Frame)
    requires MemInv(m) && FrameOk(m, f) && f.HelpInsert?
    ensures CanFrame(m, f) && var (m', fs) := FrameStep(m, f); FrameDone(m, m', f, fs)
  {
    var o := f.op;
    hide MemInv, Evolves, CanLink, LinkMemory, WordStep;
    InsertFacts(m, o);
    SameEvolves(m, o);
    if !f.linked {
      if m.ops[o].phase == Flagged {
        LinkKeeps(m, o);
        assert LinkMemory(m, o).ops[o].phase == Linked && LinkMemory(m, o).ops.Keys == m.ops.Keys
               && LinkMemory(m, o).ops[o].IOp? by {
          LinkRecord(m, o);
        }
      }
    } else if m.upd[m.ops[o].p] == Word(o, IFlag) {
      SettleKeeps(m, o, Finished);
      WordStepRecord(m, m.ops[o].p, Word(o, Clean), o, Finished);
    }
  }

  lemma LinkRecord(m: Memory, o: nat)
    requires o in m.ops && m.ops[o].IOp? && m.ops[o].p in m.cells && m.ops[o].ni in m.cells && m.hist != []
    ensures LinkMemory(m, o).ops.Keys == m.ops.Keys && LinkMemory(m, o).ops[o].phase == Linked
            && LinkMemory(m, o).ops[o].IOp?
  {
  }

  lemma SpliceRecordPhase(m: Memory, o: nat, other: Addr)
    requires o in m.ops && m.ops[o].DOp? && m.ops[o].gp in m.cells && other in m.cells && m.hist != []
    ensures SpliceMemory(m, o, other).ops.Keys == m.ops.Keys && SpliceMemory(m, o, other).ops[o].phase == Spliced
    ensures SpliceMemory(m, o, other).ops[o].DOp?
  {
  }

  lemma WordStepRecord(m: Memory, n: Addr, w: Word, o: nat, phase: Phase)
    requires n in m.past && o in m.ops
    ensures WordStep(m, n, w, o, phase).ops.Keys == m.ops.Keys
            && WordStep(m, n, w, o, phase).ops[o] == m.ops[o].(phase := phase)
  {
  }

  /** What a deletion record says about the compare-and-swaps of bst_help_delete and bst_help_marked. */
  lemma DeleteFacts(m: Memory, o: nat)
    requires MemInv(m) && o in m.ops && m.ops[o].DOp?
    ensures var op := m.ops[o];
            && DeleteRecord(m, o) && m.hist != [] && Appeared(m.ops, op.p, m.upd[op.p])
            && (m.upd[op.p] == op.pupdate ==> op.phase == Flagged)
            && (HalfRemoved(op.phase) <==> m.upd[op.p] == Word(o, Mark))
            && (m.upd[op.gp] == Word(o, DFlag) <==> op.phase == Flagged || op.phase == Marked || op.phase == Spliced)
            && (op.phase == Marked ==> DOpOk(m, o, op)) && op.phase != Linked
  {
    hide MemInv;
    RecordOk(m, o);
    var op := m.ops[o];
    assert DStatic(m, op) && Fits(m.ops, op.p, m.upd[op.p]) && Fits(m.ops, op.gp, m.upd[op.gp]);
    hide Tables, WordsOk, Effect;
  }

  lemma MarkedFacts(m: Memory, o: nat)
    requires MemInv(m) && o in m.ops && m.ops[o].DOp? && HalfRemoved(m.ops[o].phase)
    ensures var op := m.ops[o];
            && op.p in m.cells && op.gp in m.cells
            && IsOther(m, op, if m.cells[op.p].right == op.l then m.cells[op.p].left else m.cells[op.p].right)
            && var other := m.cells[op.p].Child(!m.cells[op.p].Side(op.k));
               && other in m.cells && CasSide(m.cells, op.gp, other) == m.cells[op.gp].Side(op.k)
               && (op.phase == Marked <==> m.cells[op.gp].Next(op.k) == op.p)
  {
    hide MemInv;
    RecordOk(m, o);
    var op := m.ops[o];
    hide Tables, WordsOk, Effect;
    assert DMarked(m, o, op);
  }

  lemma BackStep(m: Memory, f: Frame)
    requires MemInv(m) && FrameOk(m, f) && f.HelpDelete? && f.back
    ensures CanFrame(m, f) && var (m', fs) := FrameStep(m, f); FrameDone(m, m', f, fs)
  {
    var o := f.op;
    hide MemInv, Evolves, WordStep, DOpOk;
    DeleteFacts(m, o);
    if m.upd[m.ops[o].gp] == Word(o, DFlag) {
      SettleKeeps(m, o, Aborted);
      WordStepRecord(m, m.ops[o].gp, Word(o, Clean), o, Aborted);
    } else {
      SameEvolves(m, o);
    }
  }

  lemma MarkCasStep(m: Memory, f: Frame)
    requires MemInv(m) && FrameOk(m, f) && f.HelpDelete? && !f.back && DeleteRecord(m, f.op)
    requires m.upd[m.ops[f.op].p] == m.ops[f.op].pupdate
    ensures CanFrame(m, f) && var (m', fs) := FrameStep(m, f); FrameDone(m, m', f, fs)
  {
    var o := f.op;
    hide MemInv, Evolves, WordStep, DOpOk, Appeared;
    DeleteFacts(m, o);
    MarkKeeps(m, o);
    WordStepRecord(m, m.ops[o].p, Word(o, Mark), o, Marked);
  }

  lemma MarkedAlreadyStep(m: Memory, f: Frame)
    requires MemInv(m) && FrameOk(m, f) && f.HelpDelete? && !f.back && DeleteRecord(m, f.op)
    requires m.upd[m.ops[f.op].p] == Word(f.op, Mark)
    ensures CanFrame(m, f) && var (m', fs) := FrameStep(m, f); FrameDone(m, m', f, fs)
  {
    hide MemInv, Evolves, WordStep, DOpOk, Appeared;
    DeleteFacts(m, f.op);
    SameEvolves(m, f.op);
  }

  lemma MarkFailsStep(m: Memory, f: Frame)
    requires MemInv(m) && FrameOk(m, f) && f.HelpDelete? && !f.back && DeleteRecord(m, f.op)
    requires m.upd[m.ops[f.op].p] != m.ops[f.op].pupdate && m.upd[m.ops[f.op].p] != Word(f.op, Mark)
    ensures CanFrame(m, f) && var (m', fs) := FrameStep(m, f); FrameDone(m, m', f, fs)
  {
    var o := f.op;
    hide MemInv, Evolves, WordStep, DOpOk, Appeared, Help;
    DeleteFacts(m, o);
    var back := HelpDelete(o, true);
    assert FrameOk(m, back);
    hide FrameOk;
    HelpThen(m, m.ops[o].p, m.upd[m.ops[o].p], back);
    SameEvolves(m, o);
  }

  lemma ReadOtherStep(m: Memory, f: Frame)
    requires MemInv(m) && FrameOk(m, f) && f.HelpMarked? && f.stage == ReadOther
    ensures CanFrame(m, f) && var (m', fs) := FrameStep(m, f); FrameDone(m, m', f, fs)
  {
    hide MemInv, Evolves, DOpOk, Appeared;
    DeleteFacts(m, f.op);
    MarkedFacts(m, f.op);
    SameEvolves(m, f.op);
  }

  lemma SpliceCasStep(m: Memory, f: Frame)
    requires MemInv(m) && FrameOk(m, f) && f.HelpMarked? && f.stage == SpliceCas
    ensures CanFrame(m, f) && var (m', fs) := FrameStep(m, f); FrameDone(m, m', f, fs)
  {
    var o := f.op;
    hide MemInv, Evolves, DOpOk, SpliceMemory, Appeared;
    DeleteFacts(m, o);
    MarkedFacts(m, o);
    if m.ops[o].phase == Marked {
      SpliceKeeps(m, o, f.other);
      SpliceRecordPhase(m, o, f.other);
    } else {
      SameEvolves(m, o);
    }
  }

  lemma CleanCasStep(m: Memory, f: Frame)
    requires MemInv(m) && FrameOk(m, f) && f.HelpMarked? && f.stage == CleanCas
    ensures CanFrame(m, f) && var (m', fs) := FrameStep(m, f); FrameDone(m, m', f, fs)
  {
    var o := f.op;
    hide MemInv, Evolves, WordStep, DOpOk, Appeared;
    DeleteFacts(m, o);
    if m.upd[m.ops[o].gp] == Word(o, DFlag) {
      SettleKeeps(m, o, Finished);
      WordStepRecord(m, m.ops[o].gp, Word(o, Clean), o, Finished);
    } else {
      SameEvolves(m, o);
    }
  }

  /** One step of a helping call keeps the invariant, wherever the helped record is. */
  lemma FrameStepKeeps(m: Memory, f: Frame)
    requires MemInv(m) && FrameOk(m, f)
    ensures CanFrame(m, f) && var (m', fs) := FrameStep(m, f); FrameDone(m, m', f, fs)
  {
    assert f.op in m.ops && (f.HelpDelete? ==> m.ops[f.op].DOp?);
    hide MemInv, FrameOk, CanFrame, FrameStep, FrameDone, DOpOk, Appeared;
    match f
    case HelpInsert(_, _) => InsertFrameStep(m, f);
    case HelpDelete(o, back) =>
      if back {
        BackStep(m, f);
      } else {
        DeleteFacts(m, o);
        if m.upd[m.ops[o].p] == m.ops[o].pupdate {
          MarkCasStep(m, f);
        } else if m.upd[m.ops[o].p] == Word(o, Mark) {
          MarkedAlreadyStep(m, f);
        } else {
          MarkFailsStep(m, f);
        }
      }
    case HelpMarked(_, stage, _) =>
      match stage
      case ReadOther => ReadOtherStep(m, f);
      case SpliceCas => SpliceCasStep(m, f);
      case CleanCas => CleanCasStep(m, f);
  }

  // ----- what a thread knows

  ghost predicate SeenBy(m: Memory, th: Thread, n: Addr) {
    Router(m, n) && Seen(m.hist, th.since, th.k, n)
  }

  /** n was on the search path, its word was w, and as long as a clean w is still there n still leads to c. */
  ghost predicate EdgeRead(m: Memory, th: Thread, n: Addr, w: Word, c: Addr) {
    && SeenBy(m, th, n) && w in m.past[n]
    && (w.flag == Clean && m.upd[n] == w ==> m.cells[n].Next(th.k) == c)
  }

  ghost predicate CallOk(m: Memory, th: Thread) {
    th.pc != Idle ==> th.since < |m.hist| && GoodKey(th.k)
  }

  ghost predicate FramesOk(m: Memory, th: Thread) {
    forall i :: 0 <= i < |th.stack| ==> FrameOk(m, th.stack[i])
  }

  predicate Waiting(th: Thread) {
    th.pc == AwaitInsert || th.pc == AwaitDelete
  }

  /** At most the record the thread is waiting for is unsettled. */
  ghost predicate SettledOk(m: Memory, t: nat, th: Thread) {
    forall o :: o in m.ops && m.ops[o].owner == t && !(Waiting(th) && o == th.mine) ==>
      m.ops[o].phase != Flagged && m.ops[o].phase != Marked
  }

  predicate OwnedBy(m: Memory, o: nat, t: nat) {
    o in m.ops && m.ops[o].owner == t
  }

  /** Since its call began the thread changed the tree only through the record it is waiting for. */
  ghost predicate NoOtherWrite(m: Memory, t: nat, th: Thread) {
    forall i :: th.since < i < |m.author| && OwnedBy(m, m.author[i], t) ==> Waiting(th) && m.author[i] == th.mine
  }

  ghost predicate SearchOk(m: Memory, th: Thread) {
    && (th.pc == ReadUpdate ==> SeenBy(m, th, th.l) && (th.l != ROOT ==> EdgeRead(m, th, th.p, th.pu, th.l)))
    && (th.pc == ReadChild ==>
          SeenBy(m, th, th.p) && th.pu in m.past[th.p] && (th.p != ROOT ==> EdgeRead(m, th, th.gp, th.gpu, th.p)))
    && (th.pc == FlagCas ==> AtLeaf(m, th))
  }

  ghost predicate AtLeaf(m: Memory, th: Thread) {
    && LeafAt(m, th.l) && EdgeRead(m, th, th.p, th.pu, th.l) && th.pu.flag == Clean
    && th.found == m.cells[th.l].val
    && !th.call.Find? && (th.call.Insert? <==> m.cells[th.l].key != th.k)
    && (th.call.Delete? ==> EdgeRead(m, th, th.gp, th.gpu, th.p) && th.gpu.flag == Clean)
  }

  /** The record a thread waits for is its own, for its call, and was published during the call. */
  ghost predicate OwnRecord(m: Memory, t: nat, th: Thread) {
    && OwnedBy(m, th.mine, t)
    && m.ops[th.mine].k == th.k
    && (TookEffect(m.ops[th.mine]) ==> th.since < m.ops[th.mine].at)
    && match th.call
       case Find => false
       case Insert(v) => m.ops[th.mine].IOp? && m.ops[th.mine].v == v
       case Delete => m.ops[th.mine].DOp? && m.ops[th.mine].l in m.cells && th.found == m.cells[m.ops[th.mine].l].val
  }

  ghost predicate WaitOk(m: Memory, t: nat, th: Thread) {
    Waiting(th) ==>
      && OwnRecord(m, t, th) && (th.call.Insert? <==> th.pc == AwaitInsert)
      && (th.stack != [] ==> var f := th.stack[|th.stack| - 1]; f.op == th.mine && f.HelpInsert? == th.call.Insert?)
      && (th.stack == [] ==>
            if th.call.Delete? && !th.ret then m.ops[th.mine].phase == Aborted else TookEffect(m.ops[th.mine]))
  }

  /** The thread changed the tree at entry i and nowhere else since its call began. */
  ghost predicate ChangedOnce(m: Memory, t: nat, th: Thread, i: int) {
    && th.since < i < |m.hist| && |m.author| == |m.hist| && OwnedBy(m, m.author[i], t)
    && (forall j :: th.since < j < |m.author| && OwnedBy(m, m.author[j], t) ==> j == i)
    && var before, after := Contents(m.hist[i - 1]), Contents(m.hist[i]);
       match th.call
       case Find => false
       case Insert(v) => th.result == Some(1) && th.k !in before && after == before[th.k := v]
       case Delete => th.result.Some? && Lookup(before, th.k) == th.result && after == before - {th.k}
  }

  /** The call did not change the tree and gives an answer that was true since it began. */
  ghost predicate ChangedNothing(m: Memory, t: nat, th: Thread) {
    && (forall j :: th.since < j < |m.author| ==> !OwnedBy(m, m.author[j], t))
    && match th.call
       case Find => AnswerHeld(m.hist, th.since, th.k, th.result)
       case Insert(_) => th.result == Some(0) && exists w :: AnswerHeld(m.hist, th.since, th.k, Some(w))
       case Delete => th.result == Some(0) && AnswerHeld(m.hist, th.since, th.k, None)
  }

  ghost predicate ResultOk(m: Memory, t: nat, th: Thread) {
    ChangedNothing(m, t, th) || exists i :: ChangedOnce(m, t, th, i)
  }

  ghost predicate ThreadInv(m: Memory, t: nat, th: Thread) {
    && CallOk(m, th) && FramesOk(m, th) && SettledOk(m, t, th)
    && (th.pc != Idle && th.pc != Done ==> NoOtherWrite(m, t, th))
    && SearchOk(m, th) && WaitOk(m, t, th)
    && (th.pc == Done ==> ResultOk(m, t, th))
    && (th.stack != [] ==> th.pc == Start || Waiting(th))
  }

  // ----- steps of other threads

  /** Record o evolves, and if it is new it is not t's. */
  ghost predicate EvolvesFor(m: Memory, m': Memory, o: nat, t: nat) {
    MemInv(m) && MemInv(m') && Evolves(m, m', o) && o in m'.ops && (o !in m.ops ==> m'.ops[o].owner != t)
  }

  lemma SeenKept(m: Memory, m': Memory, o: nat, since: nat, k: int, n: Addr)
    requires HistEvolve(m, m', o) && Seen(m.hist, since, k, n)
    ensures Seen(m'.hist, since, k, n)
  {
    if m'.hist != m.hist {
      SeenGrows(m.hist, Last(m'.hist), since, k, n);
    }
  }

  lemma SeenByKept(m: Memory, m': Memory, o: nat, th: Thread, n: Addr)
    requires Tables(m) && Evolves(m, m', o) && SeenBy(m, th, n)
    ensures SeenBy(m', th, n)
  {
    RouterKept(m, m', o, n);
    SeenKept(m, m', o, th.since, th.k, n);
  }

  lemma EdgeKept(m: Memory, m': Memory, o: nat, th: Thread, n: Addr, w: Word, c: Addr)
    requires Tables(m) && Evolves(m, m', o) && EdgeRead(m, th, n, w, c)
    ensures EdgeRead(m', th, n, w, c)
  {
    SeenByKept(m, m', o, th, n);
    assert WordsEvolve(m, m', o) && CellsEvolve(m, m', o);
    WordGone(m, m', o, n, w);
    if w.flag == Clean {
      CleanPins(m, m', o, n, w);
    }
  }

  lemma SearchKept(m: Memory, m': Memory, o: nat, th: Thread)
    requires Tables(m) && Evolves(m, m', o) && SearchOk(m, th)
    ensures SearchOk(m', th)
  {
    if th.pc == ReadUpdate {
      SeenByKept(m, m', o, th, th.l);
      if th.l != ROOT {
        EdgeKept(m, m', o, th, th.p, th.pu, th.l);
      }
    } else if th.pc == ReadChild {
      SeenByKept(m, m', o, th, th.p);
      assert WordsEvolve(m, m', o);
      WordGone(m, m', o, th.p, th.pu);
      if th.p != ROOT {
        EdgeKept(m, m', o, th, th.gp, th.gpu, th.p);
      }
    } else if th.pc == FlagCas {
      AtLeafKept(m, m', o, th);
    }
  }

  lemma AtLeafKept(m: Memory, m': Memory, o: nat, th: Thread)
    requires Tables(m) && Evolves(m, m', o) && AtLeaf(m, th)
    ensures AtLeaf(m', th)
  {
    LeafKept(m, m', o, th.l);
    EdgeKept(m, m', o, th, th.p, th.pu, th.l);
    if th.call.Delete? {
      EdgeKept(m, m', o, th, th.gp, th.gpu, th.p);
    }
    assert CellsEvolve(m, m', o);
    hide EdgeRead, Evolves;
  }

  lemma FramesKept(m: Memory, m': Memory, o: nat, th: Thread)
    requires MemInv(m) && Evolves(m, m', o) && FramesOk(m, th)
    ensures FramesOk(m', th)
  {
    hide MemInv, Evolves, FrameOk;
    forall i | 0 <= i < |th.stack| ensures FrameOk(m', th.stack[i]) {
      FrameKept(m, m', o, th.stack[i]);
    }
  }

  lemma EffectBound(m: Memory, o: nat)
    requires o in m.ops && OpOk(m, o, m.ops[o]) && TookEffect(m.ops[o])
    ensures 0 < m.ops[o].at < |m.hist|
  {
  }

  /** A new entry of the history is the work of a record that was not settled before. */
  lemma NewEntryUnsettled(m: Memory, m': Memory, o: nat)
    requires MemInv(m) && MemInv(m') && Evolves(m, m', o) && |m'.hist| != |m.hist|
    ensures o in m.ops && o in m'.ops && (m.ops[o].phase == Flagged || m.ops[o].phase == Marked)
    ensures m'.author == m.author + [o] && m'.ops[o].at == |m.hist|
  {
    hide MemInv, Evolves, TreeInv, Tables, WordsOk, Live, OpsOk, OpOk, MarkFair, WordsEvolve, CellsEvolve,
         PreparedEvolve, PathsKept;
    MemParts(m);
    MemParts(m');
    EvolvesParts(m, m', o);
    assert m'.author[|m.hist|] == o;
    AuthorKnown(m', |m.hist|);
    hide AuthorsOk, HistEvolve;
    if o in m.ops && TookEffect(m.ops[o]) {
      RecordOk(m, o);
      EffectBound(m, o);
    }
  }

  lemma AuthorKnown(m: Memory, i: int)
    requires MemInv(m) && 0 < i < |m.author|
    ensures m.author[i] in m.ops && TookEffect(m.ops[m.author[i]]) && m.ops[m.author[i]].at == i
  {
  }

  lemma SettledKept(m: Memory, m': Memory, o: nat, t: nat, th: Thread)
    requires EvolvesFor(m, m', o, t) && SettledOk(m, t, th)
    ensures SettledOk(m', t, th)
  {
    hide MemInv, MarkFair, WordsEvolve, CellsEvolve, HistEvolve, PreparedEvolve;
    assert OpsEvolve(m, m', o);
  }

  /** A new entry by a record of t means that t waits for that record. */
  lemma NewAuthor(m: Memory, m': Memory, o: nat, t: nat, th: Thread, i: int)
    requires EvolvesFor(m, m', o, t) && SettledOk(m, t, th) && 0 < i < |m'.author| && OwnedBy(m', m'.author[i], t)
    ensures i < |m.author| ==> m'.author[i] == m.author[i] && OwnedBy(m, m.author[i], t)
    ensures i >= |m.author| ==> Waiting(th) && m'.author[i] == th.mine
  {
    hide MemInv, Evolves, TreeInv, Tables, WordsOk, Live, OpsOk, AuthorsOk, MarkFair, WordsEvolve, CellsEvolve,
         PreparedEvolve, PathsKept;
    MemParts(m);
    MemParts(m');
    EvolvesParts(m, m', o);
    if i < |m.author| {
      AuthorKnown(m, i);
    } else {
      NewEntryUnsettled(m, m', o);
    }
  }

  lemma WritesKept(m: Memory, m': Memory, o: nat, t: nat, th: Thread)
    requires EvolvesFor(m, m', o, t) && SettledOk(m, t, th) && NoOtherWrite(m, t, th)
    ensures NoOtherWrite(m', t, th)
  {
    hide EvolvesFor, SettledOk;
    forall i | th.since < i < |m'.author| && OwnedBy(m', m'.author[i], t) ensures Waiting(th) && m'.author[i] == th.mine {
      NewAuthor(m, m', o, t, th, i);
    }
  }

  lemma OwnRecordKept(m: Memory, m': Memory, o: nat, t: nat, th: Thread)
    requires EvolvesFor(m, m', o, t) && OwnRecord(m, t, th) && th.since < |m.hist|
    ensures OwnRecord(m', t, th)
    ensures TookEffect(m.ops[th.mine]) ==> TookEffect(m'.ops[th.mine])
    ensures m.ops[th.mine].phase == Aborted ==> m'.ops[th.mine].phase == Aborted
  {
    hide MemInv, Evolves, MarkFair, WordsEvolve, HistEvolve, PreparedEvolve;
    EvolvesParts(m, m', o);
    if o == th.mine && TookEffect(m'.ops[o]) && !TookEffect(m.ops[o]) {
      hide CellsEvolve;
      EntryOfEffect(m, m', o);
    }
  }

  /** A record that takes effect writes the next entry of the history. */
  lemma EntryOfEffect(m: Memory, m': Memory, o: nat)
    requires MemInv(m) && MemInv(m') && Evolves(m, m', o) && o in m.ops && o in m'.ops
    requires TookEffect(m'.ops[o]) && !TookEffect(m.ops[o])
    ensures m'.ops[o].at == |m.hist|
  {
    hide MemInv, Evolves, TreeInv, Tables, WordsOk, Live, OpsOk, OpOk, MarkFair, WordsEvolve, CellsEvolve,
         PreparedEvolve, PathsKept;
    MemParts(m);
    EvolvesParts(m, m', o);
    RecordOk(m', o);
    RecordEntry(m', o);
    if m'.ops[o].at < |m.hist| {
      AuthorKnown(m, m'.ops[o].at);
    }
  }

  lemma RecordEntry(m: Memory, o: nat)
    requires o in m.ops && OpOk(m, o, m.ops[o]) && TookEffect(m.ops[o])
    ensures Effect(m, o, m.ops[o])
  {
  }

  lemma WaitKept(m: Memory, m': Memory, o: nat, t: nat, th: Thread)
    requires EvolvesFor(m, m', o, t) && WaitOk(m, t, th) && CallOk(m, th)
    ensures WaitOk(m', t, th)
  {
    hide EvolvesFor, OwnRecord;
    if Waiting(th) {
      assert th.mine in m.ops by { OwnRecordOwned(m, t, th); }
      OwnRecordKept(m, m', o, t, th);
      OwnRecordOwned(m', t, th);
    }
  }

  lemma OwnRecordOwned(m: Memory, t: nat, th: Thread)
    requires OwnRecord(m, t, th)
    ensures th.mine in m.ops
  {
  }

  lemma AnswerKept(m: Memory, m': Memory, o: nat, since: nat, k: int, answer: Option<int>)
    requires HistEvolve(m, m', o) && AnswerHeld(m.hist, since, k, answer)
    ensures AnswerHeld(m'.hist, since, k, answer)
  {
    if m'.hist != m.hist {
      AnswerGrows(m.hist, Last(m'.hist), since, k, answer);
    }
  }

  lemma NoNewAuthor(m: Memory, m': Memory, o: nat, t: nat, th: Thread)
    requires EvolvesFor(m, m', o, t) && SettledOk(m, t, th) && !Waiting(th)
    requires forall j :: th.since < j < |m.author| ==> !OwnedBy(m, m.author[j], t)
    ensures forall j :: th.since < j < |m'.author| ==> !OwnedBy(m', m'.author[j], t)
  {
    hide EvolvesFor, SettledOk;
    forall j | th.since < j < |m'.author| ensures !OwnedBy(m', m'.author[j], t) {
      if OwnedBy(m', m'.author[j], t) {
        NewAuthor(m, m', o, t, th, j);
      }
    }
  }

  lemma HistEvolvesFor(m: Memory, m': Memory, o: nat, t: nat)
    requires EvolvesFor(m, m', o, t)
    ensures HistEvolve(m, m', o)
  {
    hide HistEvolve;
  }

  lemma NothingKept(m: Memory, m': Memory, o: nat, t: nat, th: Thread)
    requires EvolvesFor(m, m', o, t) && SettledOk(m, t, th) && !Waiting(th) && ChangedNothing(m, t, th)
    ensures ChangedNothing(m', t, th)
  {
    hide EvolvesFor, SettledOk, HistEvolve, AnswerHeld;
    HistEvolvesFor(m, m', o, t);
    NoNewAuthor(m, m', o, t, th);
    hide OwnedBy, Waiting;
    match th.call
    case Find => AnswerKept(m, m', o, th.since, th.k, th.result);
    case Insert(_) =>
      var w :| AnswerHeld(m.hist, th.since, th.k, Some(w));
      AnswerKept(m, m', o, th.since, th.k, Some(w));
    case Delete => AnswerKept(m, m', o, th.since, th.k, None);
  }

  lemma OnceKept(m: Memory, m': Memory, o: nat, t: nat, th: Thread, i: int)
    requires EvolvesFor(m, m', o, t) && SettledOk(m, t, th) && !Waiting(th) && ChangedOnce(m, t, th, i)
    ensures ChangedOnce(m', t, th, i)
  {
    hide MemInv, TreeInv, Tables, WordsOk, Live, OpsOk, AuthorsOk, MarkFair, WordsEvolve, CellsEvolve, PreparedEvolve,
         PathsKept;
    MemParts(m');
    EvolvesParts(m, m', o);
    assert m'.author[i] == m.author[i] && m'.hist[i] == m.hist[i] && m'.hist[i - 1] == m.hist[i - 1];
    assert OwnedBy(m', m'.author[i], t);
    hide EvolvesFor, SettledOk, HistEvolve, OpsEvolve, Evolves;
    forall j | th.since < j < |m'.author| && OwnedBy(m', m'.author[j], t) ensures j == i {
      NewAuthor(m, m', o, t, th, j);
    }
  }

  lemma ResultKept(m: Memory, m': Memory, o: nat, t: nat, th: Thread)
    requires EvolvesFor(m, m', o, t) && SettledOk(m, t, th) && !Waiting(th) && ResultOk(m, t, th)
    ensures ResultOk(m', t, th)
  {
    hide EvolvesFor, SettledOk, ChangedNothing, ChangedOnce;
    if ChangedNothing(m, t, th) {
      NothingKept(m, m', o, t, th);
    } else {
      var i :| ChangedOnce(m, t, th, i);
      OnceKept(m, m', o, t, th, i);
    }
  }

  lemma CallKept(m: Memory, m': Memory, o: nat, th: Thread)
    requires HistEvolve(m, m', o) && CallOk(m, th)
    ensures CallOk(m', th)
  {
  }

  /** No thread loses what it knows when another record, or its own one by another's help, evolves. */
  lemma ThreadKept(m: Memory, m': Memory, o: nat, t: nat, th: Thread)
    requires EvolvesFor(m, m', o, t) && ThreadInv(m, t, th)
    ensures ThreadInv(m', t, th)
  {
    assert MemInv(m) && Evolves(m, m', o);
    hide MemInv, Evolves, EvolvesFor, CallOk, FramesOk, SettledOk, NoOtherWrite, SearchOk, WaitOk, ResultOk;
    MemParts(m);
    EvolvesParts(m, m', o);
    hide Tables, TreeInv, WordsOk, Live, OpsOk, AuthorsOk, MarkFair, OpsEvolve, WordsEvolve, CellsEvolve, HistEvolve,
         PreparedEvolve;
    CallKept(m, m', o, th);
    FramesKept(m, m', o, th);
    SettledKept(m, m', o, t, th);
    SearchKept(m, m', o, th);
    WaitKept(m, m', o, t, th);
    if th.pc != Idle && th.pc != Done {
      WritesKept(m, m', o, t, th);
    }
    if th.pc == Done {
      ResultKept(m, m', o, t, th);
    }
  }
}
