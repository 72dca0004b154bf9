/** No flag of the non-blocking tree is left behind (src/bst/bst_ellen.c).

    A flag on a node stands for a record that is being worked on. In every reachable state the
    thread that made the record is still in the helping call for it, so that a node is flagged
    only while its flag's owner is; with nobody there, every update field in the tree is clean.
 */
module BstEllenFlags {
  import opened Options
  import opened ExternalTree
  import opened TreeHistory
  import opened BstEllen
  import opened BstEllenInvariant
  import opened BstEllenThreads
  import opened BstEllenSafety
  import opened BstEllenRuns

  predicate Settled(op: Op) {
    op.phase == Finished || op.phase == Aborted
  }

  /** The thread is inside the helping call for its own record o. */
  predicate WorksOn(th: Thread, o: nat) {
    (th.pc == AwaitInsert || th.pc == AwaitDelete) && th.mine == o && th.stack != []
  }

  ghost predicate OwnerThere(s: State, o: nat)
    requires o in s.mem.ops
  {
    s.mem.ops[o].owner < |s.threads| && WorksOn(s.threads[s.mem.ops[o].owner], o)
  }

  ghost predicate Attended(s: State) {
    forall o :: o in s.mem.ops && !Settled(s.mem.ops[o]) ==> OwnerThere(s, o)
  }

  lemma InsertSettled(m: Memory, o: nat)
    requires InsertRecord(m, o) && m.hist != [] && IOpOk(m, o, m.ops[o]) && m.ops[o].phase != Flagged
    ensures o in InsertFrame(m, o, true).0.ops && Settled(InsertFrame(m, o, true).0.ops[o])
  {
    hide Effect, Leads, Rep, Router, LeafAt, SameSide, GoodKey, IDone;
  }

  lemma BackedOutSettled(m: Memory, o: nat)
    requires DeleteRecord(m, o) && DOpOk(m, o, m.ops[o]) && (m.ops[o].phase == Flagged || m.ops[o].phase == Aborted)
    ensures o in DeleteFrame(m, o, true).0.ops && Settled(DeleteFrame(m, o, true).0.ops[o])
  {
    hide Effect, Leads, Rep, Router, LeafAt, SameSide, GoodKey, DDone;
  }

  lemma MarkedSettled(m: Memory, o: nat, other: Addr)
    requires DeleteRecord(m, o) && m.hist != [] && DOpOk(m, o, m.ops[o])
    requires m.ops[o].phase == Spliced || m.ops[o].phase == Finished
    ensures o in MarkedFrame(m, o, CleanCas, other).0.ops && Settled(MarkedFrame(m, o, CleanCas, other).0.ops[o])
  {
    hide Effect, Leads, Rep, Router, LeafAt, SameSide, GoodKey, DDone;
  }

  lemma OpenInsert(m: Memory, o: nat)
    requires InsertRecord(m, o) && m.hist != []
    ensures InsertFrame(m, o, false).1 != []
  {
    hide LinkMemory;
  }

  lemma OpenMarked(m: Memory, o: nat, stage: Stage, other: Addr)
    requires DeleteRecord(m, o) && m.hist != [] && (stage == SpliceCas ==> other in m.cells) && stage != CleanCas
    ensures MarkedFrame(m, o, stage, other).1 != []
  {
    hide SpliceMemory;
  }

  lemma InsertReturns(m: Memory, o: nat, linked: bool)
    requires MemInv(m) && FrameOk(m, HelpInsert(o, linked)) && InsertRecord(m, o) && m.hist != []
    requires InsertFrame(m, o, linked).1 == []
    ensures o in InsertFrame(m, o, linked).0.ops && Settled(InsertFrame(m, o, linked).0.ops[o])
  {
    assert linked ==> m.ops[o].phase != Flagged;
    hide FrameOk, MemInv, InsertFrame, Settled;
    RecordOk(m, o);
    if linked {
      hide OpOk;
      assert IOpOk(m, o, m.ops[o]) by {
        RecordIs(m, o);
      }
      hide *;
      InsertSettled(m, o);
    } else {
      OpenInsert(m, o);
    }
  }

  lemma RecordIs(m: Memory, o: nat)
    requires o in m.ops && OpOk(m, o, m.ops[o])
    ensures m.ops[o].IOp? ==> IOpOk(m, o, m.ops[o])
    ensures m.ops[o].DOp? ==> DOpOk(m, o, m.ops[o])
  {
    hide IOpOk, DOpOk;
  }

  lemma DeleteReturns(m: Memory, o: nat, back: bool)
    requires MemInv(m) && FrameOk(m, HelpDelete(o, back)) && DeleteRecord(m, o)
    requires DeleteFrame(m, o, back).1 == []
    ensures o in DeleteFrame(m, o, back).0.ops && Settled(DeleteFrame(m, o, back).0.ops[o])
  {
    OpenDelete(m, o);
    assert back ==> m.ops[o].phase == Flagged || m.ops[o].phase == Aborted;
    hide *;
    RecordOk(m, o);
    RecordIs(m, o);
    DeleteKind(m, o);
    BackedOutSettled(m, o);
  }

  lemma DeleteKind(m: Memory, o: nat)
    requires DeleteRecord(m, o)
    ensures o in m.ops && m.ops[o].DOp?
  {
  }

  lemma OpenDelete(m: Memory, o: nat)
    requires DeleteRecord(m, o)
    ensures DeleteFrame(m, o, false).1 != []
  {
  }

  lemma MarkedReturns(m: Memory, o: nat, stage: Stage, other: Addr)
    requires MemInv(m) && FrameOk(m, HelpMarked(o, stage, other)) && DeleteRecord(m, o) && m.hist != []
    requires (stage == SpliceCas ==> other in m.cells) && MarkedFrame(m, o, stage, other).1 == []
    ensures o in MarkedFrame(m, o, stage, other).0.ops && Settled(MarkedFrame(m, o, stage, other).0.ops[o])
  {
    assert stage == CleanCas ==> m.ops[o].phase == Spliced || m.ops[o].phase == Finished;
    hide *;
    RecordOk(m, o);
    RecordIs(m, o);
    DeleteKind(m, o);
    if stage == CleanCas {
      MarkedSettled(m, o, other);
    } else {
      OpenMarked(m, o, stage, other);
    }
  }

  /** When a helping call returns, its record is settled: the last compare-and-swap has taken the flag away, or
      finds that somebody else has. */
  lemma ReturnsSettled(m: Memory, f: Frame)
    requires MemInv(m) && FrameOk(m, f) && CanFrame(m, f) && FrameStep(m, f).1 == []
    ensures f.op in FrameStep(m, f).0.ops && Settled(FrameStep(m, f).0.ops[f.op])
  {
    hide MemInv, FrameOk, Settled, InsertFrame, DeleteFrame, MarkedFrame, InsertRecord, DeleteRecord;
    match f
    case HelpInsert(o, linked) => InsertReturns(m, o, linked);
    case HelpDelete(o, back) => DeleteReturns(m, o, back);
    case HelpMarked(o, stage, other) => MarkedReturns(m, o, stage, other);
  }

  /** A new record is that of the thread that takes the step, which goes on to help it. */
  lemma FlagWorks(m: Memory, t: nat, th: Thread, o: nat)
    requires CanStep(m, th) && th.stack == [] && th.pc == FlagCas
    requires o in FlagStep(m, t, th).0.ops && o !in m.ops
    ensures FlagStep(m, t, th).0.ops[o].owner == t && WorksOn(FlagStep(m, t, th).1, o)
  {
    hide Help;
  }

  lemma FrameSameOps(m: Memory, f: Frame)
    requires CanFrame(m, f)
    ensures FrameStep(m, f).0.ops.Keys == m.ops.Keys
  {
    hide Help, Graft, Splice, End;
  }

  lemma NewWorks(m: Memory, t: nat, th: Thread, o: nat)
    requires CanStep(m, th) && o in Advance(m, t, th).0.ops && o !in m.ops
    ensures Advance(m, t, th).0.ops[o].owner == t && WorksOn(Advance(m, t, th).1, o)
  {
    hide FrameStep, FlagStep, SearchStep;
    if th.stack != [] {
      FrameSameOps(m, th.stack[0]);
    } else if th.pc == FlagCas {
      FlagWorks(m, t, th, o);
    }
  }

  lemma WorkFacts(m: Memory, t: nat, th: Thread, o: nat)
    requires ThreadInv(m, t, th) && WorksOn(th, o)
    ensures FrameOk(m, th.stack[0]) && th.stack[|th.stack| - 1].op == o
  {
    assert FramesOk(m, th) && WaitOk(m, t, th);
    hide CallOk, SettledOk, NoOtherWrite, SearchOk, ResultOk, FrameOk;
  }

  lemma HelpAdvance(m: Memory, t: nat, th: Thread)
    requires CanStep(m, th) && th.stack != []
    ensures CanFrame(m, th.stack[0])
    ensures var (m', fs) := FrameStep(m, th.stack[0]);
            Advance(m, t, th) == (m', th.(stack := fs + th.stack[1..], ret := ReturnValue(th.stack[0])))
  {
    hide FrameStep;
  }

  /** The owner of a record keeps at it until the record is settled. */
  lemma OwnWorks(m: Memory, t: nat, th: Thread, o: nat)
    requires MemInv(m) && ThreadInv(m, t, th) && CanStep(m, th) && WorksOn(th, o)
    requires o in Advance(m, t, th).0.ops && !Settled(Advance(m, t, th).0.ops[o])
    ensures WorksOn(Advance(m, t, th).1, o)
  {
    hide *;
    WorkFacts(m, t, th, o);
    WorkStack(th, o);
    HelpAdvance(m, t, th);
    var (m', fs) := FrameStep(m, th.stack[0]);
    if fs == [] && |th.stack| == 1 {
      ReturnsSettled(m, th.stack[0]);
    }
    StillWorks(th, o, fs, ReturnValue(th.stack[0]));
  }

  lemma WorkStack(th: Thread, o: nat)
    requires WorksOn(th, o)
    ensures th.stack != []
  {
  }

  lemma StillWorks(th: Thread, o: nat, fs: seq<Frame>, ret: bool)
    requires WorksOn(th, o)
    ensures fs != [] || |th.stack| > 1 ==> WorksOn(th.(stack := fs + th.stack[1..], ret := ret), o)
  {
  }

  lemma RecordKept(a: Op, b: Op)
    requires PhaseStep(a, b)
    ensures b.owner == a.owner && (Settled(a) ==> Settled(b))
  {
  }

  lemma AttendedBegin(s: State, s': State, t: nat)
    requires Attended(s) && s'.mem == s.mem && t < |s.threads| && s.threads[t].pc == Idle
    requires |s'.threads| == |s.threads| && s'.threads == s.threads[t := s'.threads[t]]
    ensures Attended(s')
  {
    hide Settled;
    forall o | o in s'.mem.ops && !Settled(s'.mem.ops[o]) ensures OwnerThere(s', o) {
      assert OwnerThere(s, o);
    }
  }

  lemma AttendedAdvance(s: State, s': State, t: nat, o: nat)
    requires Attended(s) && t < |s.threads| && MemInv(s.mem) && ThreadInv(s.mem, t, s.threads[t])
    requires CanStep(s.mem, s.threads[t]) && |s'.threads| == |s.threads| && s'.threads == s.threads[t := s'.threads[t]]
    requires (s'.mem, s'.threads[t]) == Advance(s.mem, t, s.threads[t])
    requires o in s'.mem.ops && !Settled(s'.mem.ops[o])
    requires o in s.mem.ops ==> PhaseStep(s.mem.ops[o], s'.mem.ops[o])
    ensures OwnerThere(s', o)
  {
    var m, th := s.mem, s.threads[t];
    hide MemInv, ThreadInv, CanStep, Advance, PhaseStep, Settled, WorksOn;
    if o in m.ops {
      RecordKept(m.ops[o], s'.mem.ops[o]);
      assert OwnerThere(s, o);
      if m.ops[o].owner == t {
        OwnWorks(m, t, th, o);
      }
    } else {
      NewWorks(m, t, th, o);
    }
  }

  lemma AttendedStep(s: State, s': State, t: nat)
    requires Inv(s) && Attended(s) && t < |s.threads| && ThreadStep(s, t, s')
    ensures Attended(s')
  {
    var m, th := s.mem, s.threads[t];
    assert MemInv(m) && ThreadInv(m, t, th) && Next(s, s');
    hide Inv, MemInv, ThreadInv, Attended, Next;
    var th' :| && s'.threads == s.threads[t := th']
               && ((Begin(m, th, th') && s'.mem == m) || (CanStep(m, th) && (s'.mem, th') == Advance(m, t, th)));
    hide CanStep, Advance, ThreadStep;
    if Begin(m, th, th') && s'.mem == m {
      AttendedBegin(s, s', t);
    } else {
      hide Begin;
      forall o | o in s'.mem.ops && !Settled(s'.mem.ops[o]) ensures OwnerThere(s', o) {
        if o in m.ops {
          RecordStep(s, s', o);
        }
        AttendedAdvance(s, s', t, o);
      }
      AllAttended(s');
    }
  }

  lemma AllAttended(s: State)
    requires forall o :: o in s.mem.ops && !Settled(s.mem.ops[o]) ==> OwnerThere(s, o)
    ensures Attended(s)
  {
  }

  lemma {:induction false} RunAttended(run: seq<State>, i: nat)
    requires Run(run) && i < |run|
    ensures Inv(run[i]) && Attended(run[i])
  {
    RunInv(run, i);
    if i > 0 {
      RunAttended(run, i - 1);
      assert Next(run[i - 1], run[i - 1 + 1]);
      var t: nat :| 0 <= t < |run[i - 1].threads| && ThreadStep(run[i - 1], t, run[i]);
      hide Run, Inv, Attended, Next, ThreadStep;
      AttendedStep(run[i - 1], run[i], t);
    }
  }

  // ----- what the words say

  predicate IsFlag(w: Word) {
    w.flag == IFlag || w.flag == DFlag
  }

  lemma FlagUnsettled(m: Memory, n: Addr)
    requires MemInv(m) && n in m.upd && IsFlag(m.upd[n])
    ensures m.upd[n].op in m.ops && !Settled(m.ops[m.upd[n].op])
  {
    hide TreeInv, Live, OpsOk, AuthorsOk, Appeared;
    assert WordsOk(m) && Tables(m) && Fits(m.ops, n, m.upd[n]);
  }

  lemma OwnedHere(m: Memory, t: nat, th: Thread, o: nat)
    requires ThreadInv(m, t, th) && WorksOn(th, o)
    ensures o in m.ops && m.ops[o].owner == t
  {
    assert WaitOk(m, t, th);
    hide CallOk, FramesOk, SettledOk, NoOtherWrite, SearchOk, ResultOk;
  }

  /** In every reachable state a flagged node is being worked on by exactly one thread that has made the flag's record:
      that thread is inside its helping call. */
  lemma FlagHasOwner(run: seq<State>, i: nat, n: Addr) returns (t: nat)
    requires Run(run) && i < |run| && n in run[i].mem.upd && IsFlag(run[i].mem.upd[n])
    ensures t < |run[i].threads| && WorksOn(run[i].threads[t], run[i].mem.upd[n].op)
    ensures forall u :: 0 <= u < |run[i].threads| && WorksOn(run[i].threads[u], run[i].mem.upd[n].op) ==> u == t
  {
    var s := run[i];
    RunAttended(run, i);
    assert MemInv(s.mem) && forall u :: 0 <= u < |s.threads| ==> ThreadInv(s.mem, u, s.threads[u]);
    hide Run, Inv, MemInv, ThreadInv, IsFlag, Settled, WorksOn;
    FlagUnsettled(s.mem, n);
    var o := s.mem.upd[n].op;
    assert OwnerThere(s, o);
    t := s.mem.ops[o].owner;
    forall u | 0 <= u < |s.threads| && WorksOn(s.threads[u], o) ensures u == t {
      OwnedHere(s.mem, u, s.threads[u], o);
    }
  }

  lemma MarkedInTree(m: Memory, n: Addr)
    requires MemInv(m) && n in m.upd && InTree(m, n) && m.upd[n].flag == Mark
    ensures m.upd[n].op in m.ops && !Settled(m.ops[m.upd[n].op])
  {
    var o := m.upd[n].op;
    assert WordsOk(m) && Appeared(m.ops, n, m.upd[n]);
    RecordOk(m, o);
    hide MemInv, TreeInv, WordsOk, Tables, Effect, Leads, Router, LeafAt, SameSide;
  }

  lemma NotThere(s: State, o: nat)
    requires o in s.mem.ops && forall t :: 0 <= t < |s.threads| ==> !WorksOn(s.threads[t], o)
    ensures !OwnerThere(s, o)
  {
    hide WorksOn;
  }

  lemma AllSettled(s: State)
    requires Attended(s)
    requires forall t, o :: 0 <= t < |s.threads| && o in s.mem.ops ==> !WorksOn(s.threads[t], o)
    ensures forall o :: o in s.mem.ops ==> Settled(s.mem.ops[o])
  {
    hide Settled, WorksOn;
    forall o | o in s.mem.ops ensures Settled(s.mem.ops[o]) {
      NotThere(s, o);
    }
  }

  /** Once no thread is inside a helping call for its own record, nothing in the tree is flagged or marked: every
      update field there is clean. */
  lemma NothingLeftFlagged(run: seq<State>, i: nat, n: Addr)
    requires Run(run) && i < |run| && n in run[i].mem.upd && InTree(run[i].mem, n)
    requires forall t, o :: 0 <= t < |run[i].threads| && o in run[i].mem.ops ==> !WorksOn(run[i].threads[t], o)
    ensures run[i].mem.upd[n].flag == Clean
  {
    var m := run[i].mem;
    RunAttended(run, i);
    assert MemInv(m);
    hide Run, Inv, MemInv, Settled, InTree, WorksOn, Attended;
    AllSettled(run[i]);
    if IsFlag(m.upd[n]) {
      FlagUnsettled(m, n);
    } else if m.upd[n].flag == Mark {
      MarkedInTree(m, n);
    }
  }
}
