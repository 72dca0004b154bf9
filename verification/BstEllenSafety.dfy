/** Every step of every thread of the non-blocking tree keeps the invariant. */
module BstEllenSafety {
  import opened Options
  import opened ExternalTree
  import opened TreeHistory
  import opened BstEllen
  import opened BstEllenInvariant
  import opened BstEllenThreads

  /** What a step of thread t owes: the invariant, and to the other threads that it changed one record at most. */
  ghost predicate StepOk(m: Memory, t: nat, m': Memory, th': Thread) {
    && MemInv(m') && ThreadInv(m', t, th')
    && (m' == m || exists o :: Evolves(m, m', o) && o in m'.ops && (o !in m.ops ==> m'.ops[o].owner == t))
  }

  // ----- helping

  lemma FramesReplaced(m: Memory, th: Thread, th': Thread, fs: seq<Frame>)
    requires FramesOk(m, th) && th.stack != [] && th'.stack == fs + th.stack[1..]
    requires forall i :: 0 <= i < |fs| ==> FrameOk(m, fs[i])
    ensures FramesOk(m, th')
  {
    hide FrameOk;
    forall i | 0 <= i < |th'.stack| ensures FrameOk(m, th'.stack[i]) {
      if i >= |fs| {
        assert th'.stack[i] == th.stack[i - |fs| + 1];
      }
    }
  }

  lemma WaitReplaced(m: Memory, m': Memory, t: nat, th: Thread, th': Thread, fs: seq<Frame>)
    requires WaitOk(m', t, th) && th.stack != [] && th' == th.(stack := fs
             + th.stack[1..], ret := th.stack[0].HelpMarked?)
    requires FrameDone(m, m', th.stack[0], fs)
    ensures WaitOk(m', t, th')
  {
    hide MemInv, Evolves, FrameOk;
    if Waiting(th) {
      var last := th.stack[|th.stack| - 1];
      if |th.stack| > 1 {
        assert th'.stack[|th'.stack| - 1] == last;
      } else {
        assert th'.stack == fs && th.stack[0] == last;
      }
      OwnSame(m', t, th, th');
    }
  }

  lemma OwnSame(m: Memory, t: nat, th: Thread, th': Thread)
    requires OwnRecord(m, t, th) && th' == th.(stack := th'.stack, ret := th'.ret)
    ensures OwnRecord(m, t, th')
  {
  }

  lemma RestSame(m: Memory, t: nat, th: Thread, th': Thread)
    requires ThreadInv(m, t, th) && th.stack != [] && th' == th.(stack := th'.stack, ret := th'.ret)
    ensures CallOk(m, th') && SettledOk(m, t, th') && SearchOk(m, th')
    ensures th'.pc != Idle && th'.pc != Done ==> NoOtherWrite(m, t, th')
    ensures th'.pc == Start || Waiting(th')
  {
  }

  lemma HelpStep(m: Memory, t: nat, th: Thread)
    requires MemInv(m) && ThreadInv(m, t, th) && th.stack != []
    ensures CanStep(m, th) && var (m', th') := Advance(m, t, th); StepOk(m, t, m', th')
  {
    var f := th.stack[0];
    assert FramesOk(m, th) && FrameOk(m, f);
    hide MemInv, FrameOk, FrameStep, CanFrame, Evolves;
    FrameStepKeeps(m, f);
    var (m', fs) := FrameStep(m, f);
    var th' := th.(stack := fs + th.stack[1..], ret := f.HelpMarked?);
    assert Advance(m, t, th) == (m', th');
    assert EvolvesFor(m, m', f.op, t);
    hide ThreadInv, EvolvesFor, Advance;
    ThreadKept(m, m', f.op, t, th);
    HelpedInv(m, m', t, th, th', fs);
  }

  lemma HelpedInv(m: Memory, m': Memory, t: nat, th: Thread, th': Thread, fs: seq<Frame>)
    requires ThreadInv(m', t, th) && th.stack != [] && th' == th.(stack := fs
             + th.stack[1..], ret := th.stack[0].HelpMarked?)
    requires FrameDone(m, m', th.stack[0], fs)
    ensures ThreadInv(m', t, th')
  {
    assert FramesOk(m', th) && WaitOk(m', t, th) && forall i :: 0 <= i < |fs| ==> FrameOk(m', fs[i]);
    hide FrameDone, FramesOk, WaitOk, CallOk, SettledOk, NoOtherWrite, SearchOk, ResultOk, FrameOk;
    RestSame(m', t, th, th');
    hide ThreadInv;
    FramesReplaced(m', th, th', fs);
    WaitReplaced(m, m', t, th, th', fs);
  }

  // ----- searching

  /** A node that was in the tree is not waiting to be linked. */
  lemma SeenIsLinked(m: Memory, since: nat, k: int, n: Addr)
    requires MemInv(m) && Seen(m.hist, since, k, n)
    ensures !Unlinked(m.ops, n)
  {
    hide TreeInv, Tables, WordsOk, OpsOk, AuthorsOk;
    var i :| since <= i < |m.hist| && n in Path(m.hist[i], k);
    PathInIds(m.hist[i], k);
  }

  /** A seen router that is not marked is on the search path now. */
  lemma UnmarkedOnPath(m: Memory, th: Thread, n: Addr)
    requires MemInv(m) && SeenBy(m, th, n) && m.upd[n].flag != Mark
    ensures n in Path(Last(m.hist), th.k)
  {
    hide WordsOk, OpsOk, AuthorsOk, Tables;
    assert InTree(m, n);
    WalkStep(m.cells, m.hist, KEY_MIN, INF2 + 1, th.since, th.k, n);
  }

  lemma RootSeen(m: Memory, th: Thread)
    requires MemInv(m) && th.since < |m.hist|
    ensures SeenBy(m, th, ROOT)
  {
    hide WordsOk, OpsOk, AuthorsOk, Live;
    assert ROOT in Path(Last(m.hist), th.k);
    SeenNow(m.hist, th.since, th.k, ROOT);
  }

  /** The pointer a search follows leads to a node that was on its path. */
  lemma ChildSeen(m: Memory, th: Thread, n: Addr)
    requires MemInv(m) && SeenBy(m, th, n) && th.since < |m.hist|
    ensures var c := m.cells[n].Next(th.k);
            && c in m.cells && Seen(m.hist, th.since, th.k, c)
            && (if m.cells[c].leaf then LeafAt(m, c) else SeenBy(m, th, c))
  {
    assert TreeInv(m) && Tables(m);
    WalkStep(m.cells, m.hist, KEY_MIN, INF2 + 1, th.since, th.k, n);
    var c := m.cells[n].Next(th.k);
    hide HistOk, WordsOk, OpsOk, AuthorsOk, Live, Seen;
    SeenIsLinked(m, th.since, th.k, c);
  }

  /** Directly under the root hangs no leaf with a caller's key. */
  lemma NoKeyUnderRoot(m: Memory, k: int)
    requires MemInv(m) && GoodKey(k) && ROOT in m.cells && m.cells[ROOT].Next(k) in m.cells
    ensures m.cells[m.cells[ROOT].Next(k)].leaf ==> m.cells[m.cells[ROOT].Next(k)].key != k
  {
    hide WordsOk, OpsOk, AuthorsOk, Live, Tables;
    var t := Last(m.hist);
    assert Rep(m.cells, t) && RootOk(t) && Ordered(t, KEY_MIN, INF2 + 1);
    ContentsBounds(t.right, t.key, INF2 + 1);
    hide HistOk;
    assert m.cells[ROOT].Next(k) == t.left.id && Rep(m.cells, t.left);
    assert Contents(t) == Contents(t.left) + Contents(t.right);
    assert INF1 in Contents(t.left);
    assert t.left.Leaf? ==> t.left.key == INF1;
  }

  /** What holds of a thread that is only searching, whatever its position. */
  ghost predicate Searching(m: Memory, t: nat, th: Thread) {
    && MemInv(m) && th.since < |m.hist| && GoodKey(th.k) && SettledOk(m, t, th) && NoOtherWrite(m, t, th)
    && !Waiting(th) && th.pc != Idle && th.pc != Done
  }

  lemma SearchingNow(m: Memory, t: nat, th: Thread)
    requires MemInv(m) && ThreadInv(m, t, th) && !Waiting(th) && th.pc != Idle && th.pc != Done
    ensures Searching(m, t, th)
  {
    hide MemInv, SettledOk, NoOtherWrite, FramesOk, SearchOk, WaitOk, ResultOk;
  }

  predicate SameCallAs(th: Thread, th': Thread) {
    th'.call == th.call && th'.k == th.k && th'.since == th.since
  }

  /** Moving on within a search: only the search facts have to be shown anew. */
  lemma SearchOn(m: Memory, t: nat, th: Thread, th': Thread)
    requires Searching(m, t, th) && SameCallAs(th, th') && FramesOk(m, th') && SearchOk(m, th')
    requires th'.pc == Start || th'.pc == ReadUpdate || th'.pc == ReadChild || th'.pc == FlagCas
    requires th'.stack != [] ==> th'.pc == Start
    ensures StepOk(m, t, m, th')
  {
    hide MemInv, FramesOk, SearchOk;
  }

  lemma Answered(m: Memory, t: nat, th: Thread, th': Thread)
    requires Searching(m, t, th) && SameCallAs(th, th') && th'.pc == Done && th'.stack == []
    requires match th.call
             case Find => AnswerHeld(m.hist, th.since, th.k, th'.result)
             case Insert(_) => th'.result == Some(0) && exists w :: AnswerHeld(m.hist, th.since, th.k, Some(w))
             case Delete => th'.result == Some(0) && AnswerHeld(m.hist, th.since, th.k, None)
    ensures StepOk(m, t, m, th')
  {
    hide MemInv, AnswerHeld;
    assert ChangedNothing(m, t, th');
  }

  lemma StartStep(m: Memory, t: nat, th: Thread)
    requires MemInv(m) && ThreadInv(m, t, th) && th.stack == [] && th.pc == Start
    ensures CanStep(m, th) && var (m', th') := Advance(m, t, th); StepOk(m, t, m', th')
  {
    hide MemInv, ThreadInv;
    SearchingNow(m, t, th);
    assert th.since < |m.hist|;
    RootSeen(m, th);
    var th' := th.(l := ROOT, pc := ReadUpdate);
    assert SeenBy(m, th', ROOT);
    hide Searching, StepOk, SeenBy;
    SearchOn(m, t, th, th');
  }

  lemma ReadUpdateStep(m: Memory, t: nat, th: Thread)
    requires MemInv(m) && ThreadInv(m, t, th) && th.stack == [] && th.pc == ReadUpdate
    ensures CanStep(m, th) && var (m', th') := Advance(m, t, th); StepOk(m, t, m', th')
  {
    assert SearchOk(m, th) && SeenBy(m, th, th.l);
    hide MemInv, ThreadInv;
    MemParts(m);
    assert m.upd[th.l] in m.past[th.l];
    SearchingNow(m, t, th);
    hide TreeInv, Tables, WordsOk, Live, OpsOk, AuthorsOk;
    var th' := th.(gp := th.p, p := th.l, gpu := th.pu, pu := m.upd[th.l], pc := ReadChild);
    assert SearchOk(m, th');
    hide Searching, StepOk, SearchOk, SeenBy;
    SearchOn(m, t, th, th');
  }

  /** The step of a search that ends it at leaf c. */
  lemma LeafStep(m: Memory, t: nat, th: Thread, c: Addr)
    requires Searching(m, t, th) && th.pc == ReadChild && th.stack == [] && SearchOk(m, th)
    requires c == m.cells[th.p].Next(th.k) && LeafAt(m, c) && Seen(m.hist, th.since, th.k, c)
    ensures StepOk(m, t, m, AtLeafStep(th.(l := c), m.cells[c]))
  {
    var leaf := m.cells[c];
    var th' := AtLeafStep(th.(l := c), leaf);
    var answer := if leaf.key == th.k then Some(leaf.val) else None;
    LeafAnswers(m, th, c);
    if th.call.Find? || (leaf.key == th.k) == th.call.Insert? {
      hide Searching, StepOk, SearchOk, AnswerHeld, LeafAt, Seen;
      Answered(m, t, th, th');
    } else {
      hide AnswerHeld, Seen, StepOk;
      LeafGoesOn(m, t, th, c);
    }
  }

  lemma LeafAnswers(m: Memory, th: Thread, c: Addr)
    requires MemInv(m) && GoodKey(th.k) && LeafAt(m, c) && Seen(m.hist, th.since, th.k, c)
    ensures AnswerHeld(m.hist, th.since, th.k, if m.cells[c].key == th.k then Some(m.cells[c].val) else None)
  {
    hide WordsOk, OpsOk, AuthorsOk, Live, Tables, HistOk, Seen, AnswerHeld;
    SeenLeafAnswers(m.cells, m.hist, KEY_MIN, INF2 + 1, th.since, th.k, c);
  }

  lemma PastHelpOk(m: Memory, n: Addr, w: Word)
    requires MemInv(m) && n in m.past && w in m.past[n]
    ensures forall i :: 0 <= i < |Help(w)| ==> FrameOk(m, Help(w)[i])
  {
    hide MemInv;
    MemParts(m);
    assert Appeared(m.ops, n, w);
    hide TreeInv, Tables, WordsOk, Live, OpsOk, AuthorsOk, Appeared;
    HelpOk(m, n, w);
  }

  /** A search that ended at a leaf the update can work on has both of its last two routers at hand. */
  ghost predicate Ready(m: Memory, th: Thread, c: Addr) {
    && MemInv(m) && th.pc == ReadChild && th.stack == [] && LeafAt(m, c) && SeenBy(m, th, th.p)
    && c == m.cells[th.p].Next(th.k) && th.pu in m.past[th.p]
    && !th.call.Find? && (m.cells[c].key == th.k) != th.call.Insert?
    && (th.call.Delete? ==> EdgeRead(m, th, th.gp, th.gpu, th.p))
  }

  lemma LeafIsReady(m: Memory, t: nat, th: Thread, c: Addr)
    requires Searching(m, t, th) && th.pc == ReadChild && th.stack == [] && SearchOk(m, th)
    requires c == m.cells[th.p].Next(th.k) && LeafAt(m, c)
    requires !th.call.Find? && (m.cells[c].key == th.k) != th.call.Insert?
    ensures Ready(m, th, c)
  {
    assert SeenBy(m, th, th.p) && (th.p != ROOT ==> EdgeRead(m, th, th.gp, th.gpu, th.p));
    hide EdgeRead, MemInv;
    if th.call.Delete? && th.p == ROOT {
      NoKeyUnderRoot(m, th.k);
    }
  }

  lemma LeafFlags(m: Memory, th: Thread, c: Addr)
    requires Ready(m, th, c)
    ensures var th' := AtLeafStep(th.(l := c), m.cells[c]); th'.pc == FlagCas ==> AtLeaf(m, th')
  {
    hide MemInv, Help;
  }

  lemma ReadyPast(m: Memory, th: Thread, c: Addr)
    requires Ready(m, th, c)
    ensures MemInv(m) && c in m.cells && th.stack == [] && th.p in m.past && th.pu in m.past[th.p]
    ensures th.call.Delete? ==> th.gp in m.past && th.gpu in m.past[th.gp]
  {
  }

  /** Helping an operation whose word was read */
  lemma HelpsRead(m: Memory, th: Thread, n: Addr, w: Word, th': Thread)
    requires MemInv(m) && n in m.past && w in m.past[n] && th'.stack == Help(w)
    ensures FramesOk(m, th')
  {
    hide MemInv, FrameOk, Help;
    PastHelpOk(m, n, w);
  }

  lemma LeafHelps(m: Memory, th: Thread, c: Addr)
    requires Ready(m, th, c)
    ensures c in m.cells && FramesOk(m, AtLeafStep(th.(l := c), m.cells[c]))
  {
    ReadyPast(m, th, c);
    var th' := AtLeafStep(th.(l := c), m.cells[c]);
    hide MemInv, Help, Ready, FramesOk;
    if th.call.Delete? && th'.stack == Help(th.gpu) {
      HelpsRead(m, th, th.gp, th.gpu, th');
    } else if th'.stack == Help(th.pu) {
      HelpsRead(m, th, th.p, th.pu, th');
    } else {
      NoFrames(m, th');
    }
  }

  lemma NoFrames(m: Memory, th: Thread)
    requires th.stack == []
    ensures FramesOk(m, th)
  {
  }

  lemma LeafGoesOn(m: Memory, t: nat, th: Thread, c: Addr)
    requires Searching(m, t, th) && th.pc == ReadChild && th.stack == [] && SearchOk(m, th)
    requires c == m.cells[th.p].Next(th.k) && LeafAt(m, c)
    requires !th.call.Find? && (m.cells[c].key == th.k) != th.call.Insert?
    ensures StepOk(m, t, m, AtLeafStep(th.(l := c), m.cells[c]))
  {
    assert c in m.cells;
    var th' := AtLeafStep(th.(l := c), m.cells[c]);
    hide Ready, MemInv, LeafAt, EdgeRead, AtLeaf, FramesOk, Help, SeenBy, Searching, StepOk;
    LeafIsReady(m, t, th, c);
    hide SearchOk;
    LeafFlags(m, th, c);
    LeafHelps(m, th, c);
    AfterLeaf(m, th, c);
    SearchOn(m, t, th, th');
  }

  lemma AfterLeaf(m: Memory, th: Thread, c: Addr)
    requires c in m.cells && th.stack == [] && !th.call.Find? && (m.cells[c].key == th.k) != th.call.Insert?
    requires var th' := AtLeafStep(th.(l := c), m.cells[c]); th'.pc == FlagCas ==> AtLeaf(m, th')
    ensures var th' := AtLeafStep(th.(l := c), m.cells[c]);
            SearchOk(m, th') && SameCallAs(th, th') && (th'.pc == Start || th'.pc == FlagCas) && (th'.stack != [] ==> th'.pc == Start)
  {
    hide AtLeaf, Help;
  }

  lemma DescendStep(m: Memory, t: nat, th: Thread, c: Addr)
    requires Searching(m, t, th) && th.pc == ReadChild && th.stack == [] && SearchOk(m, th)
    requires c == m.cells[th.p].Next(th.k) && SeenBy(m, th, c)
    ensures StepOk(m, t, m, th.(l := c, pc := ReadUpdate))
  {
    var th' := th.(l := c, pc := ReadUpdate);
    hide MemInv, Router, Seen;
    assert SearchOk(m, th');
    hide Searching, StepOk, SearchOk;
    SearchOn(m, t, th, th');
  }

  lemma ReadChildStep(m: Memory, t: nat, th: Thread)
    requires MemInv(m) && ThreadInv(m, t, th) && th.stack == [] && th.pc == ReadChild
    ensures CanStep(m, th) && var (m', th') := Advance(m, t, th); StepOk(m, t, m', th')
  {
    assert SearchOk(m, th) && SeenBy(m, th, th.p) && th.pu in m.past[th.p];
    hide MemInv, ThreadInv;
    SearchingNow(m, t, th);
    assert th.since < |m.hist|;
    hide SearchOk, Searching, Seen, StepOk, AtLeafStep;
    ChildSeen(m, th, th.p);
    var c := m.cells[th.p].Next(th.k);
    if m.cells[c].leaf {
      LeafStep(m, t, th, c);
    } else {
      DescendStep(m, t, th, c);
    }
  }

  // ----- publishing a record

  lemma CanFlagInsert(m: Memory, th: Thread)
    requires MemInv(m) && CallOk(m, th) && th.pc == FlagCas && AtLeaf(m, th) && th.call.Insert? && m.upd[th.p] == th.pu
    ensures InsertReady(m, th)
  {
    MemParts(m);
    hide MemInv, TreeInv, Tables, WordsOk, Live, OpsOk, AuthorsOk;
    UnmarkedOnPath(m, th, th.p);
  }

  lemma CanFlagDelete(m: Memory, th: Thread)
    requires MemInv(m) && CallOk(m, th) && th.pc == FlagCas && AtLeaf(m, th) && th.call.Delete? && m.upd[th.gp] == th.gpu
    ensures DeleteReady(m, th)
  {
    MemParts(m);
    hide MemInv, TreeInv, Tables, WordsOk, Live, OpsOk, AuthorsOk;
    UnmarkedOnPath(m, th, th.gp);
  }

  /** The thread that published record o now waits for it and for nothing else. */
  lemma PublishedInv(m: Memory, m': Memory, t: nat, th: Thread, th': Thread)
    requires MemInv(m) && Searching(m, t, th) && th.pc == FlagCas && AtLeaf(m, th)
    requires m.serial in m'.ops && m'.ops == m.ops[m.serial := m'.ops[m.serial]] && m'.hist == m.hist
             && m'.author == m.author
    requires forall a :: a in m.cells ==> a in m'.cells && m'.cells[a] == m.cells[a]
    requires var op := m'.ops[m.serial];
             && op.owner == t && op.k == th.k && op.phase == Flagged
             && (if th.call.Insert? then op.IOp? && op.v == th.call.v else op.DOp? && op.l == th.l)
    requires th' == th.(pc := if th.call.Insert? then AwaitInsert else AwaitDelete, mine := m.serial,
                        stack := if th.call.Insert? then [HelpInsert(m.serial, false)] else [HelpDelete(m.serial, false)])
    ensures ThreadInv(m', t, th')
  {
    hide MemInv;
    forall i | th'.since < i < |m'.author| && OwnedBy(m', m'.author[i], t) ensures m'.author[i] == th'.mine {
      AuthorKnown(m, i);
    }
    assert NoOtherWrite(m', t, th');
    hide NoOtherWrite;
    assert SettledOk(m', t, th');
    hide SettledOk;
    assert OwnRecord(m', t, th');
    hide OwnRecord;
    assert FramesOk(m', th');
  }

  lemma FlagFails(m: Memory, t: nat, th: Thread, n: Addr)
    requires MemInv(m) && Searching(m, t, th) && Router(m, n)
    ensures StepOk(m, t, m, th.(pc := Start, stack := Help(m.upd[n])))
  {
    MemParts(m);
    hide MemInv, TreeInv, Tables, Live, OpsOk, AuthorsOk, Help, FrameOk;
    PastHelpOk(m, n, m.upd[n]);
    var th' := th.(pc := Start, stack := Help(m.upd[n]));
    assert FramesOk(m, th') && SearchOk(m, th');
    hide Searching, StepOk, SearchOk, FramesOk, WordsOk;
    SearchOn(m, t, th, th');
  }

  lemma NewInsertRecord(m: Memory, t: nat, th: Thread)
    requires th.p in m.past && th.l in m.cells && th.call.Insert?
    ensures FlagInsert(m, t, th).ops == m.ops[m.serial := IOp(th.p, Made(m.serial, 0), th.l, th.k, th.call.v, t,
            Flagged, 0)]
  {
  }

  /** What the successful compare-and-swap of an insertion does. */
  lemma FlagInsertAdvance(m: Memory, t: nat, th: Thread)
    requires th.stack == [] && th.pc == FlagCas && th.call.Insert? && th.p in m.upd && th.p in m.past && th.l in m.cells
    requires m.upd[th.p] == th.pu
    ensures CanStep(m, th)
    ensures Advance(m, t, th)
         == (FlagInsert(m, t, th), th.(pc := AwaitInsert, mine := m.serial, stack := [HelpInsert(m.serial, false)]))
  {
    hide FlagInsert, FlagDelete, Help;
  }

  lemma FlagDeleteAdvance(m: Memory, t: nat, th: Thread)
    requires th.stack == [] && th.pc == FlagCas && th.call.Delete? && th.p in m.upd && th.p in m.past && th.l in m.cells
    requires th.gp in m.upd && th.gp in m.past && m.upd[th.gp] == th.gpu
    ensures CanStep(m, th)
    ensures Advance(m, t, th)
         == (FlagDelete(m, t, th), th.(pc := AwaitDelete, mine := m.serial, stack := [HelpDelete(m.serial, false)]))
  {
    hide FlagInsert, FlagDelete, Help;
  }

  lemma FlagInsertStep(m: Memory, t: nat, th: Thread)
    requires MemInv(m) && Searching(m, t, th) && th.stack == [] && th.pc == FlagCas && AtLeaf(m, th) && th.call.Insert?
    requires m.upd[th.p] == th.pu
    ensures CanStep(m, th) && var (m', th') := Advance(m, t, th); StepOk(m, t, m', th')
  {
    hide MemInv, FlagInsert, Advance, CanStep;
    assert CallOk(m, th);
    CanFlagInsert(m, th);
    assert th.p in m.past && th.l in m.cells && th.p in m.upd;
    hide InsertReady, AtLeaf, Searching;
    MemParts(m);
    hide TreeInv, Tables, WordsOk, Live, OpsOk, AuthorsOk, Evolves;
    InsertPublished(m, t, th);
    NewInsertRecord(m, t, th);
    FlagInsertAdvance(m, t, th);
    SerialIsNew(m);
    FlagInsertKeeps(m, t, th);
    var (m', th') := Advance(m, t, th);
    PublishedInv(m, m', t, th, th');
    hide ThreadInv, Published;
  }

  lemma SerialIsNew(m: Memory)
    requires Tables(m)
    ensures m.serial !in m.ops
  {
  }

  lemma NewDeleteRecord(m: Memory, t: nat, th: Thread)
    requires th.gp in m.past
    ensures FlagDelete(m, t, th).ops == m.ops[m.serial := DOp(th.gp, th.p, th.l, th.pu, th.k, t, Flagged, 0)]
  {
  }

  lemma FlagDeleteStep(m: Memory, t: nat, th: Thread)
    requires MemInv(m) && Searching(m, t, th) && th.stack == [] && th.pc == FlagCas && AtLeaf(m, th) && th.call.Delete?
    requires m.upd[th.gp] == th.gpu
    ensures CanStep(m, th) && var (m', th') := Advance(m, t, th); StepOk(m, t, m', th')
  {
    hide MemInv, FlagDelete, Advance, CanStep;
    assert CallOk(m, th);
    CanFlagDelete(m, th);
    assert th.gp in m.past && th.l in m.cells && th.p in m.upd && th.p in m.past && th.gp in m.upd;
    hide DeleteReady, AtLeaf, Searching;
    MemParts(m);
    hide TreeInv, Tables, WordsOk, Live, OpsOk, AuthorsOk, NewWords, Evolves;
    DeletePublished(m, t, th);
    NewDeleteRecord(m, t, th);
    FlagDeleteAdvance(m, t, th);
    SerialIsNew(m);
    FlagDeleteKeeps(m, t, th);
    var (m', th') := Advance(m, t, th);
    PublishedInv(m, m', t, th, th');
    hide ThreadInv, Published;
  }

  lemma FlagCasStep(m: Memory, t: nat, th: Thread)
    requires MemInv(m) && ThreadInv(m, t, th) && th.stack == [] && th.pc == FlagCas
    ensures CanStep(m, th) && var (m', th') := Advance(m, t, th); StepOk(m, t, m', th')
  {
    assert SearchOk(m, th) && AtLeaf(m, th) && Router(m, th.p) && m.upd.Keys == m.past.Keys && !th.call.Find?;
    assert th.call.Delete? ==> Router(m, th.gp);
    hide MemInv, ThreadInv;
    SearchingNow(m, t, th);
    hide Searching, SearchOk, StepOk, FlagInsert, FlagDelete;
    if th.call.Insert? {
      if m.upd[th.p] == th.pu {
        FlagInsertStep(m, t, th);
      } else {
        FlagFails(m, t, th, th.p);
      }
    } else {
      if m.upd[th.gp] == th.gpu {
        FlagDeleteStep(m, t, th);
      } else {
        FlagFails(m, t, th, th.gp);
      }
    }
  }

  // ----- returning

  /** The record the thread waited for took effect: the call made its one change at that moment. */
  lemma EffectReturns(m: Memory, t: nat, th: Thread, th': Thread)
    requires MemInv(m) && ThreadInv(m, t, th) && Waiting(th) && TookEffect(m.ops[th.mine])
    requires th' == th.(pc := Done, result := if th.call.Insert? then Some(1) else Some(th.found)) && th'.stack == []
    ensures ThreadInv(m, t, th')
  {
    hide MemInv, ThreadInv;
    WaitParts(m, t, th);
    RecordOk(m, th.mine);
    RecordEntry(m, th.mine);
    hide Tables, WordsOk, OpOk;
    var i := m.ops[th.mine].at;
    forall j | th.since < j < |m.author| && OwnedBy(m, m.author[j], t) ensures j == i {
      AuthorKnown(m, j);
    }
    assert ChangedOnce(m, t, th', i);
    hide ChangedOnce, OwnRecord, Effect, NoOtherWrite;
    assert ResultOk(m, t, th');
    SettledAfter(m, t, th, th');
    hide SettledOk, ResultOk;
    ReturnedInv(m, t, th, th');
  }

  lemma WaitParts(m: Memory, t: nat, th: Thread)
    requires ThreadInv(m, t, th) && Waiting(th)
    ensures OwnRecord(m, t, th) && NoOtherWrite(m, t, th) && SettledOk(m, t, th) && CallOk(m, th)
    ensures th.mine in m.ops && !th.call.Find?
  {
    hide NoOtherWrite, SettledOk, SearchOk, FramesOk;
  }

  lemma ReturnedInv(m: Memory, t: nat, th: Thread, th': Thread)
    requires CallOk(m, th) && Waiting(th) && th' == th.(pc := Done, result := th'.result) && th'.stack == []
    requires SettledOk(m, t, th') && ResultOk(m, t, th')
    ensures ThreadInv(m, t, th')
  {
    hide SettledOk, ResultOk;
  }

  /** An unsettled record has not taken effect. */
  lemma SettledAfter(m: Memory, t: nat, th: Thread, th': Thread)
    requires SettledOk(m, t, th) && th.mine in m.ops
    requires m.ops[th.mine].phase != Flagged && m.ops[th.mine].phase != Marked
    ensures SettledOk(m, t, th')
  {
  }

  lemma AbortReturns(m: Memory, t: nat, th: Thread, th': Thread)
    requires MemInv(m) && ThreadInv(m, t, th) && Waiting(th) && m.ops[th.mine].phase == Aborted
    requires th' == th.(pc := Start) && th'.stack == []
    ensures ThreadInv(m, t, th')
  {
    hide MemInv, ThreadInv;
    WaitParts(m, t, th);
    forall i | th.since < i < |m.author| ensures !OwnedBy(m, m.author[i], t) {
      AuthorKnown(m, i);
    }
    assert NoOtherWrite(m, t, th');
    hide NoOtherWrite, OwnRecord;
    SettledAfter(m, t, th, th');
    hide SettledOk;
    RetryInv(m, t, th, th');
  }

  lemma RetryInv(m: Memory, t: nat, th: Thread, th': Thread)
    requires CallOk(m, th) && Waiting(th) && th' == th.(pc := Start) && th'.stack == []
    requires SettledOk(m, t, th') && NoOtherWrite(m, t, th')
    ensures ThreadInv(m, t, th')
  {
    hide SettledOk, NoOtherWrite;
  }

  lemma AwaitStep(m: Memory, t: nat, th: Thread)
    requires MemInv(m) && ThreadInv(m, t, th) && th.stack == [] && Waiting(th)
    ensures CanStep(m, th) && var (m', th') := Advance(m, t, th); StepOk(m, t, m', th')
  {
    assert WaitOk(m, t, th) && OwnRecord(m, t, th) && th.mine in m.ops && !th.call.Find?;
    var (m', th') := Advance(m, t, th);
    hide MemInv, ThreadInv, OwnRecord;
    if th.pc == AwaitDelete && !th.ret {
      AbortReturns(m, t, th, th');
    } else {
      EffectReturns(m, t, th, th');
    }
  }

  lemma DoneStep(m: Memory, t: nat, th: Thread)
    requires MemInv(m) && ThreadInv(m, t, th) && th.stack == [] && th.pc == Done
    ensures CanStep(m, th) && var (m', th') := Advance(m, t, th); StepOk(m, t, m', th')
  {
    hide MemInv, ResultOk;
    assert FramesOk(m, th.(pc := Idle));
    assert SettledOk(m, t, th.(pc := Idle));
  }

  lemma BeginStep(m: Memory, t: nat, th: Thread, th': Thread)
    requires MemInv(m) && ThreadInv(m, t, th) && Begin(m, th, th')
    ensures StepOk(m, t, m, th')
  {
    MemParts(m);
    hide MemInv, TreeInv, Tables, WordsOk, Live, OpsOk, AuthorsOk;
    assert FramesOk(m, th');
    assert SettledOk(m, t, th');
  }

  /** No step of any thread breaks the invariant, and a thread in a call can always take its step. */
  lemma AdvanceOk(m: Memory, t: nat, th: Thread)
    requires MemInv(m) && ThreadInv(m, t, th) && th.pc != Idle
    ensures CanStep(m, th) && var (m', th') := Advance(m, t, th); StepOk(m, t, m', th')
  {
    hide MemInv, ThreadInv, StepOk, CanStep, Advance;
    if th.stack != [] {
      HelpStep(m, t, th);
    } else {
      match th.pc
      case Start => StartStep(m, t, th);
      case ReadUpdate => ReadUpdateStep(m, t, th);
      case ReadChild => ReadChildStep(m, t, th);
      case FlagCas => FlagCasStep(m, t, th);
      case AwaitInsert => AwaitStep(m, t, th);
      case AwaitDelete => AwaitStep(m, t, th);
      case Done => DoneStep(m, t, th);
    }
  }
}
