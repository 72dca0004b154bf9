/** Every lock of BST-TK is given back (src/bst-tk).

    In every reachable state an edge whose version and ticket differ belongs to exactly one thread
    that stands between taking it and giving it back; only the two edges of a removed router
    differ for ever, and those are on their way out of the tree. Stated on the words and on where
    the threads stand.
 */
module BstTkLocks {
  import opened Options
  import opened ExternalTree
  import opened TreeHistory
  import opened BstTk

  predicate Removed(e: Edge) {
    e.version == 0 && e.ticket == 0xFFFF
  }

  /** A lock word that somebody has to give back */
  predicate Locked(e: Edge) {
    e.version != e.ticket && !Removed(e)
  }

  predicate HasPredEdge(pc: Pc) {
    pc == Link || pc == UnlockPred
  }

  predicate HasGrandEdge(pc: Pc) {
    pc == LockBoth || pc == RevertGrand || pc == ReadSibling || pc == SpliceWrite || pc == UnlockGrand
  }

  /** The thread is between taking the lock of this edge and giving it back. */
  predicate Between(th: Thread, a: Addr, side: bool) {
    || (HasPredEdge(th.pc) && th.pred == a && th.right == side)
    || (HasGrandEdge(th.pc) && th.ppred == a && th.pright == side)
  }

  predicate Takes(th: Thread) {
    HasPredEdge(th.pc) || HasGrandEdge(th.pc)
  }

  /** The thread has removed router a and has not yet spliced it out. */
  predicate Removes(th: Thread, a: Addr) {
    (th.pc == ReadSibling || th.pc == SpliceWrite) && th.pred == a
  }

  // ----- the invariant

  predicate Owned(e: Edge) {
    e.phase.Held? || e.phase.Dirty?
  }

  predicate EdgeAttended(threads: seq<Thread>, e: Edge, a: Addr, side: bool) {
    Owned(e) ==> e.phase.owner < |threads| && Between(threads[e.phase.owner], a, side)
  }

  ghost predicate Attended(s: State) {
    forall a, side {:trigger s.mem.locks[a].Get(side)} ::
      a in s.mem.locks ==> EdgeAttended(s.threads, s.mem.locks[a].Get(side), a, side)
  }

  ghost predicate OnItsWayOut(s: State, a: Addr) {
    exists t :: 0 <= t < |s.threads| && Removes(s.threads[t], a)
  }

  ghost predicate Leaving(s: State) {
    && s.mem.hist != []
    && forall a :: a in s.mem.locks && s.mem.locks[a].l.phase.Gone? && a in Ids(Last(s.mem.hist)) ==> OnItsWayOut(s, a)
  }

  /** One step leaves an edge to its owner, or leaves it unowned, or makes the thread its owner. */
  ghost predicate EdgeMoves(m: Memory, m': Memory, t: nat, th: Thread, th': Thread, a: Addr, side: bool)
    requires a in m'.locks
  {
    var e' := m'.locks[a].Get(side);
    || !Owned(e')
    || (a in m.locks && e' == m.locks[a].Get(side) && (Between(th, a, side) ==> Between(th', a, side)))
    || (e'.phase.owner == t && Between(th', a, side))
  }

  lemma InsertEdge(m: Memory, t: nat, th: Thread, a: Addr, side: bool)
    requires CanStep(m, th) && IsInsert(th.pc) && a in InsertStep(m, t, th).0.locks
    ensures EdgeMoves(m, InsertStep(m, t, th).0, t, th, InsertStep(m, t, th).1, a, side)
  {
  }

  lemma DeleteEdge(m: Memory, t: nat, th: Thread, a: Addr, side: bool)
    requires CanStep(m, th) && IsDelete(th.pc) && a in DeleteStep(m, t, th).0.locks
    ensures EdgeMoves(m, DeleteStep(m, t, th).0, t, th, DeleteStep(m, t, th).1, a, side)
  {
  }

  lemma EdgeStep(m: Memory, t: nat, th: Thread, a: Addr, side: bool)
    requires CanStep(m, th) && a in Advance(m, t, th).0.locks
    ensures EdgeMoves(m, Advance(m, t, th).0, t, th, Advance(m, t, th).1, a, side)
  {
    hide CanStep, InsertStep, DeleteStep;
    if IsInsert(th.pc) {
      hide EdgeMoves;
      InsertEdge(m, t, th, a, side);
    } else if IsDelete(th.pc) {
      hide EdgeMoves;
      DeleteEdge(m, t, th, a, side);
    }
  }

  lemma AttendedStep(s: State, s': State, t: nat)
    requires Attended(s) && t < |s.threads| && ThreadStep(s, t, s')
    ensures Attended(s')
  {
    var th := s.threads[t];
    var th' :| && s'.threads == s.threads[t := th']
               && ((Begin(s.mem, th, th') && s'.mem == s.mem)
                   || (CanStep(s.mem, th) && NoWrap(s.mem, th) && (s'.mem, th') == Advance(s.mem, t, th)));
    hide NoWrap, Advance;
    forall a, side | a in s'.mem.locks ensures EdgeAttended(s'.threads, s'.mem.locks[a].Get(side), a, side) {
      if CanStep(s.mem, th) {
        EdgeStep(s.mem, t, th, a, side);
      }
      if a in s.mem.locks {
        assert EdgeAttended(s.threads, s.mem.locks[a].Get(side), a, side);
      }
    }
  }

  ghost predicate GoneMoves(m: Memory, m': Memory, th': Thread, a: Addr) {
    a in m'.locks && m'.locks[a].l.phase.Gone? ==> (a in m.locks && m.locks[a].l.phase.Gone?) || Removes(th', a)
  }

  lemma InsertGone(m: Memory, t: nat, th: Thread, a: Addr)
    requires CanStep(m, th) && IsInsert(th.pc)
    ensures GoneMoves(m, InsertStep(m, t, th).0, InsertStep(m, t, th).1, a)
  {
  }

  lemma DeleteGone(m: Memory, t: nat, th: Thread, a: Addr)
    requires CanStep(m, th) && IsDelete(th.pc)
    ensures GoneMoves(m, DeleteStep(m, t, th).0, DeleteStep(m, t, th).1, a)
  {
  }

  /** Only LockBoth removes a router. */
  lemma GoneStep(m: Memory, t: nat, th: Thread, a: Addr)
    requires CanStep(m, th)
    ensures GoneMoves(m, Advance(m, t, th).0, Advance(m, t, th).1, a)
  {
    hide CanStep, InsertStep, DeleteStep, ParseStep;
    if IsInsert(th.pc) {
      InsertGone(m, t, th, a);
    } else if IsDelete(th.pc) {
      DeleteGone(m, t, th, a);
    }
  }

  /** A thread that has removed a router still has, or is just splicing it out. */
  lemma RemoverStep(m: Memory, t: nat, th: Thread, a: Addr)
    requires CanStep(m, th) && Removes(th, a)
    ensures th.pc == SpliceWrite || Removes(Advance(m, t, th).1, a)
  {
  }

  lemma SpliceFacts(m: Memory, t: nat, th: Thread)
    requires MemInv(m) && ThreadInv(m, t, th) && th.pc == SpliceWrite
    ensures m.hist != [] && th.since < |m.hist| && GoodCall(th.op, th.k) && Removing(m, t, th)
    ensures th.pred in m.cells && th.sibling == m.cells[th.pred].Child(!th.right)
  {
    hide TreeInv, LocksOk, GoodCall, NoWriteYet, Seen, Snapshot, StillLinks, Unwritten;
  }

  lemma SpliceAdvance(m: Memory, t: nat, th: Thread)
    requires th.pc == SpliceWrite && CanStep(m, th)
    ensures Advance(m, t, th).0 == SpliceMemory(m, t, th)
  {
    hide SpliceMemory;
  }

  lemma NextSpliced(m: Memory, t: nat, th: Thread)
    requires MemInv(m) && ThreadInv(m, t, th) && th.pc == SpliceWrite && CanStep(m, th)
    ensures var m' := Advance(m, t, th).0;
            && m.hist != [] && m'.hist != [] && Ids(Last(m'.hist)) == Ids(Last(m.hist)) - {th.pred, th.curr}
  {
    SpliceAdvance(m, t, th);
    hide *;
    SpliceFacts(m, t, th);
    SpliceTree(m, t, th);
  }

  lemma GraftGains(t: Tree, k: int, sub: Tree)
    ensures Ids(Graft(t, k, sub)) <= Ids(t) + Ids(sub)
  {
  }

  lemma LinkGains(m: Memory, t: nat, th: Thread)
    requires th.pred in m.cells && th.pred in m.locks && th.curr in m.cells && m.hist != []
    requires End(Last(m.hist), th.k).id == th.curr
    ensures var m' := LinkMemory(m, t, th);
            && m'.hist != []
            && Ids(Last(m'.hist)) <= Ids(Last(m.hist)) + {Made(m.serial, 0), Made(m.serial, 1)}
  {
    var tree := Last(m.hist);
    var leaf, router := Made(m.serial, 0), Made(m.serial, 1);
    var v := if th.op.Insert? then th.op.v else 0;
    var sub := Fork(router, leaf, th.curr, th.k, v, End(tree, th.k));
    assert Ids(sub) == {leaf, router, th.curr};
    GraftGains(tree, th.k, sub);
    assert Last(LinkMemory(m, t, th).hist) == Graft(tree, th.k, sub);
  }

  lemma LinkFacts(m: Memory, t: nat, th: Thread)
    requires MemInv(m) && ThreadInv(m, t, th) && th.pc == Link
    ensures m.hist != [] && th.since < |m.hist| && AtLeaf(m, th) && Holds(m, t, th.pred, th.right, th.predVer)
    ensures th.pred in m.cells && th.pred in m.locks && th.curr in m.cells
  {
    hide TreeInv, LocksOk, GoodCall, NoWriteYet, Seen, Snapshot, StillLinks, Unwritten;
  }

  lemma NextLinked(m: Memory, t: nat, th: Thread, a: Addr)
    requires MemInv(m) && ThreadInv(m, t, th) && th.pc == Link
    ensures th.pred in m.cells && th.pred in m.locks && th.curr in m.cells
    ensures var m' := LinkMemory(m, t, th);
            && m.hist != [] && m'.hist != []
            && (a in Ids(Last(m'.hist)) && a in m'.locks && m'.locks[a].l.phase.Gone? ==> a in Ids(Last(m.hist)))
  {
    LinkFacts(m, t, th);
    MemLocks(m);
    hide MemInv, ThreadInv, LocksOk, AtLeaf, Holds, LinkMemory;
    InsertionPoint(m, t, th);
    LinkShape(m, t, th);
    LinkGains(m, t, th);
  }

  lemma LeavingStep(s: State, s': State, t: nat)
    requires Inv(s) && Leaving(s) && t < |s.threads| && ThreadStep(s, t, s')
    ensures Leaving(s')
  {
    var m, th := s.mem, s.threads[t];
    var th' :| && s'.threads == s.threads[t := th']
               && ((Begin(m, th, th') && s'.mem == m)
                   || (CanStep(m, th) && NoWrap(m, th) && (s'.mem, th') == Advance(m, t, th)));
    assert MemInv(m) && ThreadInv(m, t, th);
    if CanStep(m, th) {
      hide MemInv, ThreadInv, NoWrap;
      LeavingAdvance(s, s', t, th');
    } else {
      hide MemInv, ThreadInv, NoWrap, CanStep;
      forall a | a in m.locks && m.locks[a].l.phase.Gone? && a in Ids(Last(m.hist)) ensures OnItsWayOut(s', a) {
        var u :| 0 <= u < |s.threads| && Removes(s.threads[u], a);
        assert u != t && Removes(s'.threads[u], a);
      }
    }
  }

  lemma HistAfter(m: Memory, t: nat, th: Thread, a: Addr)
    requires MemInv(m) && ThreadInv(m, t, th) && CanStep(m, th)
    ensures var m' := Advance(m, t, th).0;
            && m.hist != [] && m'.hist != []
            && (a in Ids(Last(m'.hist)) && a in m'.locks && m'.locks[a].l.phase.Gone? ==> a in Ids(Last(m.hist)))
            && (th.pc == SpliceWrite ==> th.pred !in Ids(Last(m'.hist)))
  {
    MemLocks(m);
    hide MemInv, ThreadInv, Advance, CanStep;
    StepShape(m, t, th);
    if th.pc == Link {
      NextLinked(m, t, th, a);
    } else if th.pc == SpliceWrite {
      NextSpliced(m, t, th);
    }
  }

  lemma LeavingAdvance(s: State, s': State, t: nat, th': Thread)
    requires MemInv(s.mem) && Leaving(s) && t < |s.threads| && ThreadInv(s.mem, t, s.threads[t])
    requires CanStep(s.mem, s.threads[t]) && s'.threads == s.threads[t := th']
    requires (s'.mem, th') == Advance(s.mem, t, s.threads[t])
    ensures Leaving(s')
  {
    var m, m', th := s.mem, s'.mem, s.threads[t];
    hide MemInv, ThreadInv, Advance, CanStep, Removes;
    HistAfter(m, t, th, HEAD);
    forall a | a in m'.locks && m'.locks[a].l.phase.Gone? && a in Ids(Last(m'.hist)) ensures OnItsWayOut(s', a) {
      HistAfter(m, t, th, a);
      GoneStep(m, t, th, a);
      if Removes(th', a) {
        assert Removes(s'.threads[t], a);
      } else {
        var u :| 0 <= u < |s.threads| && Removes(s.threads[u], a);
        if u == t {
          RemoverStep(m, t, th, a);
          RemoverNamed(th, a);
          assert false;
        }
        assert Removes(s'.threads[u], a);
      }
    }
  }

  lemma RemoverNamed(th: Thread, a: Addr)
    requires Removes(th, a)
    ensures th.pred == a
  {
  }

  ghost predicate LocksInv(s: State) {
    Inv(s) && Attended(s) && Leaving(s)
  }

  lemma InitLocks(s: State)
    requires Init(s)
    ensures LocksInv(s)
  {
    InitInv(s);
    hide Inv;
    assert forall a :: a in s.mem.locks ==> s.mem.locks[a] == FREE_LOCK;
  }

  lemma NextLocks(s: State, s': State)
    requires LocksInv(s) && Next(s, s')
    ensures LocksInv(s')
  {
    hide Inv, Attended, Leaving, ThreadStep;
    NextInv(s, s');
    var t: nat :| 0 <= t < |s.threads| && ThreadStep(s, t, s');
    AttendedStep(s, s', t);
    LeavingStep(s, s', t);
  }

  lemma {:induction false} RunLocks(run: seq<State>, i: nat)
    requires Run(run) && i < |run|
    ensures LocksInv(run[i])
  {
    if i == 0 {
      hide LocksInv;
      InitLocks(run[0]);
    } else {
      RunLocks(run, i - 1);
      assert Next(run[i - 1], run[i - 1 + 1]);
      hide LocksInv, Run, Next;
      NextLocks(run[i - 1], run[i]);
    }
  }

  // ----- what the words say

  /** What a thread between lock and unlock has. */
  lemma BetweenOwns(m: Memory, t: nat, th: Thread, a: Addr, side: bool)
    requires ThreadInv(m, t, th) && Between(th, a, side)
    ensures a in m.locks && Owned(m.locks[a].Get(side)) && m.locks[a].Get(side).phase.owner == t
  {
    hide NoWriteYet, TookEffect, AtLeaf, GrandOk, GoodCall, ResultOk, Unwritten, Seen;
  }

  lemma LockedIffOwned(e: Edge)
    requires EdgeOk(e)
    ensures Locked(e) <==> Owned(e)
    ensures Removed(e) <==> e.phase.Gone?
  {
  }

  lemma EdgesOk(m: Memory, a: Addr, side: bool)
    requires MemInv(m) && a in m.locks
    ensures EdgeOk(m.locks[a].Get(side)) && (m.locks[a].l.phase.Gone? <==> m.locks[a].r.phase.Gone?)
  {
    hide TreeInv, EdgeOk;
    assert LockOk(m.cells, m.locks[a], a, Last(m.hist));
  }

  /** In every reachable state an edge is locked exactly while a thread stands between taking its lock and
      giving it back, and that is one thread only. */
  lemma LockedIffHeld(run: seq<State>, i: nat, a: Addr, side: bool)
    requires Run(run) && i < |run| && a in run[i].mem.locks
    ensures Locked(run[i].mem.locks[a].Get(side)) <==>
            exists t :: 0 <= t < |run[i].threads| && Between(run[i].threads[t], a, side)
    ensures forall t, u :: 0 <= t < |run[i].threads| && 0 <= u < |run[i].threads| ==>
              Between(run[i].threads[t], a, side) && Between(run[i].threads[u], a, side) ==> t == u
  {
    var s := run[i];
    RunLocks(run, i);
    hide Run;
    assert MemInv(s.mem) && EdgeAttended(s.threads, s.mem.locks[a].Get(side), a, side);
    assert forall t :: 0 <= t < |s.threads| ==> ThreadInv(s.mem, t, s.threads[t]);
    hide LocksInv, MemInv, ThreadInv, Between;
    EdgesOk(s.mem, a, side);
    LockedIffOwned(s.mem.locks[a].Get(side));
    forall t | 0 <= t < |s.threads| && Between(s.threads[t], a, side)
      ensures Owned(s.mem.locks[a].Get(side)) && s.mem.locks[a].Get(side).phase.owner == t
    {
      BetweenOwns(s.mem, t, s.threads[t], a, side);
    }
  }

  /** A removed router that is still in the tree is about to be spliced out: the two words that stay locked for
      ever are never left behind in it. */
  lemma RemovedLeaves(run: seq<State>, i: nat, a: Addr, side: bool)
    requires Run(run) && i < |run| && run[i].mem.hist != [] && a in Ids(TreeAt(run, i))
    ensures a in run[i].mem.locks
    ensures Removed(run[i].mem.locks[a].Get(side)) ==>
              exists t :: 0 <= t < |run[i].threads| && Removes(run[i].threads[t], a)
  {
    var s := run[i];
    AlwaysASearchTree(run, i, TreeAt(run, i));
    RunLocks(run, i);
    RepIds(s.mem.cells, TreeAt(run, i));
    MemLocks(s.mem);
    EdgesOk(s.mem, a, side);
    LockedIffOwned(s.mem.locks[a].Get(side));
    hide Run, Inv, Rep, Attended, Removes;
    if Removed(s.mem.locks[a].Get(side)) {
      assert OnItsWayOut(s, a);
    }
  }

  /** Once no thread holds a lock, every edge of every node of the tree has version equal to ticket: nothing that
      stays in the tree was left locked or removed. */
  lemma NothingLeftLocked(run: seq<State>, i: nat, a: Addr, side: bool)
    requires Run(run) && i < |run| && run[i].mem.hist != [] && a in Ids(TreeAt(run, i))
    requires forall t :: 0 <= t < |run[i].threads| ==> !Takes(run[i].threads[t])
    ensures a in run[i].mem.locks
    ensures run[i].mem.locks[a].Get(side).version == run[i].mem.locks[a].Get(side).ticket
  {
    hide Run;
    RemovedLeaves(run, i, a, side);
    LockedIffHeld(run, i, a, side);
  }
}
