/** The non-blocking external tree of Ellen et al. as src/bst/bst_ellen.c has it: flag, mark, helping.

    Threads interleave one shared access at a time; every compare-and-swap is a step of its own and
    may be performed by any thread that helps, any number of times and arbitrarily late. A thread's
    helping calls are a stack of frames, because bst_help and bst_help_delete call each other.
    The records (iinfo_t, dinfo_t) are published by the compare-and-swap that flags a node; beside
    each one stands its phase, which the program does not have.
 */
module BstEllen {
  import opened Options
  import opened ExternalTree
  import opened TreeHistory

  const KEY_MIN := -0x8000_0000
  const KEY_MAX := 0x7FFF_FFFD
  const INF1 := KEY_MAX
  const INF2 := KEY_MAX + 1

  const ROOT := Base(1)
  const LEAF1 := Base(2)
  const LEAF2 := Base(3)

  // ----- update words and records

  datatype Flag = Clean | DFlag | IFlag | Mark

  /** An update field: a record and a flag in its low bits. Record 0 is NULL. */
  datatype Word = Word(op: nat, flag: Flag)

  const NULL_WORD := Word(0, Clean)

  datatype Phase = Flagged | Linked | Marked | Spliced | Aborted | Finished

  /** Bookkeeping: k, v and owner (the call's key and value, and the thread that made it), phase (how far
      the record is) and at (which entry of the history it wrote). */
  datatype Op =
    | IOp(p: Addr, ni: Addr, l: Addr, k: int, v: int, owner: nat, phase: Phase, at: nat)
    | DOp(gp: Addr, p: Addr, l: Addr, pupdate: Word, k: int, owner: nat, phase: Phase, at: nat)

  /** author lists which record wrote each entry of the history; entry 0 is the initial tree. */
  datatype Memory = Memory(
    cells: Heap, upd: map<Addr, Word>, past: map<Addr, set<Word>>, ops: map<nat, Op>,
    hist: History, author: seq<nat>, serial: nat)

  function Max(a: int, b: int): int {
    if a > b then a else b
  }

  // ----- threads

  datatype Call = Find | Insert(v: int) | Delete

  datatype Stage = ReadOther | SpliceCas | CleanCas

  /** bst_help_insert, bst_help_delete and bst_help_marked, at their next compare-and-swap. */
  datatype Frame =
    | HelpInsert(op: nat, linked: bool)
    | HelpDelete(op: nat, back: bool)
    | HelpMarked(op: nat, stage: Stage, other: Addr)

  datatype Pc = Idle | Start | ReadUpdate | ReadChild | FlagCas | AwaitInsert | AwaitDelete | Done

  /** stack[0] is the innermost helping call; ret is the result of the helping call that returned last.
      result is what the call returned: the found node's value or NULL for a find, TRUE or FALSE for an
      insertion, the removed value or 0 for a deletion. */
  datatype Thread = Thread(
    pc: Pc, call: Call, k: int, since: nat,
    gp: Addr, p: Addr, l: Addr, gpu: Word, pu: Word,
    stack: seq<Frame>, ret: bool, mine: nat, found: int, result: Option<int>)

  datatype State = State(mem: Memory, threads: seq<Thread>)

  const FIRST_TREE := Node(ROOT, INF2, Leaf(LEAF1, INF1, 0), Leaf(LEAF2, INF2, 0))

  /** bst_initialize */
  const FIRST_MEMORY := Memory(
    map[ROOT := Cell(INF2, 0, false, LEAF1, LEAF2),
        LEAF1 := Cell(INF1, 0, true, ROOT, ROOT),
        LEAF2 := Cell(INF2, 0, true, ROOT, ROOT)],
    map[ROOT := NULL_WORD], map[ROOT := {NULL_WORD}], map[], [FIRST_TREE], [0], 1)

  predicate Init(s: State) {
    s.mem == FIRST_MEMORY && forall t :: 0 <= t < |s.threads| ==> s.threads[t].pc == Idle && s.threads[t].stack == []
  }

  // ----- memory operations

  function SetWord(m: Memory, n: Addr, w: Word): Memory
    requires n in m.past
  {
    m.(upd := m.upd[n := w], past := m.past[n := m.past[n] + {w}])
  }

  function SetPhase(m: Memory, o: nat, phase: Phase): Memory
    requires o in m.ops
  {
    m.(ops := m.ops[o := m.ops[o].(phase := phase)])
  }

  /** A compare-and-swap that writes w into n's update field and takes record o to phase. */
  function WordStep(m: Memory, n: Addr, w: Word, o: nat, phase: Phase): Memory
    requires n in m.past && o in m.ops
  {
    SetPhase(SetWord(m, n, w), o, phase)
  }

  /** bst_cas_child chooses the side by the key of the new child. */
  function CasSide(h: Heap, parent: Addr, child: Addr): bool
    requires parent in h && child in h
  {
    h[parent].Side(h[child].key)
  }

  function PushTree(m: Memory, o: nat, u: Tree): Memory
    requires o in m.ops
  {
    m.(hist := m.hist + [u], author := m.author + [o], ops := m.ops[o := m.ops[o].(at := |m.hist|)])
  }

  /** The child write of an insertion record, wherever it is performed from. */
  function LinkMemory(m: Memory, o: nat): Memory
    requires o in m.ops && m.ops[o].IOp? && m.ops[o].p in m.cells && m.ops[o].ni in m.cells && m.hist != []
  {
    var op := m.ops[o];
    var side := CasSide(m.cells, op.p, op.ni);
    var tree := Last(m.hist);
    SetPhase(
      PushTree(m.(cells := m.cells[op.p := m.cells[op.p].SetChild(side, op.ni)]), o,
               Graft(tree, op.k, Fork(op.ni, Made(o, 1), Made(o, 2), op.k, op.v, End(tree, op.k)))),
      o, Linked)
  }

  /** The child write of a deletion record. */
  function SpliceMemory(m: Memory, o: nat, other: Addr): Memory
    requires o in m.ops && m.ops[o].DOp? && m.ops[o].gp in m.cells && other in m.cells && m.hist != []
  {
    var op := m.ops[o];
    var side := CasSide(m.cells, op.gp, other);
    var tree := Last(m.hist);
    SetPhase(
      PushTree(m.(cells := m.cells[op.gp := m.cells[op.gp].SetChild(side, other)]), o,
               if tree.Node? then Splice(tree, op.k) else tree),
      o, Spliced)
  }

  // ----- steps

  /** bst_help */
  function Help(w: Word): seq<Frame> {
    match w.flag
    case Clean => []
    case IFlag => [HelpInsert(w.op, false)]
    case DFlag => [HelpDelete(w.op, false)]
    case Mark => [HelpMarked(w.op, ReadOther, ROOT)]
  }

  predicate InsertRecord(m: Memory, o: nat) {
    o in m.ops && m.ops[o].IOp? && m.ops[o].p in m.cells && m.ops[o].p in m.upd && m.ops[o].p in m.past
        && m.ops[o].ni in m.cells
  }

  predicate DeleteRecord(m: Memory, o: nat) {
    && o in m.ops && m.ops[o].DOp?
    && m.ops[o].p in m.cells && m.ops[o].p in m.upd && m.ops[o].p in m.past
    && m.ops[o].gp in m.cells && m.ops[o].gp in m.upd && m.ops[o].gp in m.past
  }

  predicate CanFrame(m: Memory, f: Frame) {
    && m.hist != []
    && match f
       case HelpInsert(o, _) => InsertRecord(m, o)
       case HelpDelete(o, _) => DeleteRecord(m, o)
       case HelpMarked(o, stage, other) => DeleteRecord(m, o) && (stage == SpliceCas ==> other in m.cells)
  }

  function InsertFrame(m: Memory, o: nat, linked: bool): (Memory, seq<Frame>)
    requires InsertRecord(m, o) && m.hist != []
  {
    var op := m.ops[o];
    if !linked then
      (if m.cells[op.p].Child(CasSide(m.cells, op.p, op.ni)) == op.l then LinkMemory(m, o) else m,
       [HelpInsert(o, true)])
    else
      (if m.upd[op.p] == Word(o, IFlag) then WordStep(m, op.p, Word(o, Clean), o, Finished) else m, [])
  }

  function DeleteFrame(m: Memory, o: nat, back: bool): (Memory, seq<Frame>)
    requires DeleteRecord(m, o)
  {
    var op := m.ops[o];
    if back then
      (if m.upd[op.gp] == Word(o, DFlag) then WordStep(m, op.gp, Word(o, Clean), o, Aborted) else m, [])
    else if m.upd[op.p] == op.pupdate then
      (WordStep(m, op.p, Word(o, Mark), o, Marked), [HelpMarked(o, ReadOther, ROOT)])
    else if m.upd[op.p] == Word(o, Mark) then (m, [HelpMarked(o, ReadOther, ROOT)])
    else (m, Help(m.upd[op.p]) + [HelpDelete(o, true)])
  }

  function MarkedFrame(m: Memory, o: nat, stage: Stage, other: Addr): (Memory, seq<Frame>)
    requires DeleteRecord(m, o) && m.hist != [] && (stage == SpliceCas ==> other in m.cells)
  {
    var op := m.ops[o];
    match stage
    case ReadOther =>
      (m, [HelpMarked(o, SpliceCas, if m.cells[op.p].right == op.l then m.cells[op.p].left else m.cells[op.p].right)])
    case SpliceCas =>
      (if m.cells[op.gp].Child(CasSide(m.cells, op.gp, other)) == op.p then SpliceMemory(m, o, other) else m,
       [HelpMarked(o, CleanCas, other)])
    case CleanCas =>
      (if m.upd[op.gp] == Word(o, DFlag) then WordStep(m, op.gp, Word(o, Clean), o, Finished) else m, [])
  }

  /** One step of the innermost helping call: the new memory and the frames that replace it. */
  function FrameStep(m: Memory, f: Frame): (Memory, seq<Frame>)
    requires CanFrame(m, f)
  {
    match f
    case HelpInsert(o, linked) => InsertFrame(m, o, linked)
    case HelpDelete(o, back) => DeleteFrame(m, o, back)
    case HelpMarked(o, stage, other) => MarkedFrame(m, o, stage, other)
  }

  /** bst_help_delete returns whether it went through bst_help_marked, which is its last call there. */
  predicate ReturnValue(f: Frame) {
    f.HelpMarked?
  }

  predicate CanStep(m: Memory, th: Thread) {
    if th.stack != [] then CanFrame(m, th.stack[0])
    else match th.pc
         case Idle => false
         case ReadUpdate => th.l in m.cells && th.l in m.upd
         case ReadChild => th.p in m.cells && m.cells[th.p].Next(th.k) in m.cells
         case FlagCas => th.p in m.upd && th.p in m.past && th.l in m.cells && (!th.call.Insert? ==> th.gp in m.upd && th.gp in m.past)
         case _ => true
  }

  /** The three nodes an insertion prepares; published together with its record. */
  function InsertCells(m: Memory, th: Thread): Heap
    requires th.l in m.cells
  {
    var o, leaf := m.serial, m.cells[th.l];
    var nn, sib := Made(o, 1), Made(o, 2);
    var v := if th.call.Insert? then th.call.v else 0;
    var ni := if th.k < leaf.key then Cell(Max(th.k, leaf.key), 0, false, nn, sib)
              else Cell(Max(th.k, leaf.key), 0, false, sib, nn);
    m.cells[nn := Cell(th.k, v, true, ROOT, ROOT)][sib := Cell(leaf.key, leaf.val, true, ROOT, ROOT)][Made(o, 0) := ni]
  }

  /** The compare-and-swap that flags p and so publishes the insertion record. */
  function FlagInsert(m: Memory, t: nat, th: Thread): Memory
    requires th.p in m.past && th.l in m.cells
  {
    var o := m.serial;
    var v := if th.call.Insert? then th.call.v else 0;
    var m1 := SetWord(m, th.p, Word(o, IFlag));
    m1.(cells := InsertCells(m, th),
        upd := m1.upd[Made(o, 0) := NULL_WORD],
        past := m1.past[Made(o, 0) := {NULL_WORD}],
        ops := m.ops[o := IOp(th.p, Made(o, 0), th.l, th.k, v, t, Flagged, 0)],
        serial := o + 1)
  }

  /** The compare-and-swap that flags gp and so publishes the deletion record. */
  function FlagDelete(m: Memory, t: nat, th: Thread): Memory
    requires th.gp in m.past
  {
    var o := m.serial;
    SetWord(m, th.gp, Word(o, DFlag)).(
      ops := m.ops[o := DOp(th.gp, th.p, th.l, th.pu, th.k, t, Flagged, 0)], serial := o + 1)
  }

  function FlagStep(m: Memory, t: nat, th: Thread): (Memory, Thread)
    requires th.pc == FlagCas && th.stack == [] && CanStep(m, th)
  {
    if th.call.Insert? then
      if m.upd[th.p] == th.pu then
        (FlagInsert(m, t, th), th.(pc := AwaitInsert, mine := m.serial, stack := [HelpInsert(m.serial, false)]))
      else (m, th.(pc := Start, stack := Help(m.upd[th.p])))
    else
      if m.upd[th.gp] == th.gpu then
        (FlagDelete(m, t, th), th.(pc := AwaitDelete, mine := m.serial, stack := [HelpDelete(m.serial, false)]))
      else (m, th.(pc := Start, stack := Help(m.upd[th.gp])))
  }

  /** What an update does when its search has ended at leaf th.l. */
  function AtLeafStep(th: Thread, leaf: Cell): Thread {
    if th.call.Find? then th.(pc := Done, result := if leaf.key == th.k then Some(leaf.val) else None)
    else if (leaf.key == th.k) == th.call.Insert? then th.(pc := Done, result := Some(0))
    else if th.call.Delete? && th.gpu.flag != Clean then th.(pc := Start, found := leaf.val, stack := Help(th.gpu))
    else if th.pu.flag != Clean then th.(pc := Start, found := leaf.val, stack := Help(th.pu))
    else th.(pc := FlagCas, found := leaf.val)
  }

  /** One step of bst_search. */
  function SearchStep(m: Memory, th: Thread): Thread
    requires (th.pc == Start || th.pc == ReadUpdate || th.pc == ReadChild) && th.stack == [] && CanStep(m, th)
  {
    match th.pc
    case Start => th.(l := ROOT, pc := ReadUpdate)
    case ReadUpdate => th.(gp := th.p, p := th.l, gpu := th.pu, pu := m.upd[th.l], pc := ReadChild)
    case ReadChild =>
      var c := m.cells[th.p].Next(th.k);
      var th1 := th.(l := c);
      if m.cells[c].leaf then AtLeafStep(th1, m.cells[c]) else th1.(pc := ReadUpdate)
  }

  /** One step of thread t. */
  function Advance(m: Memory, t: nat, th: Thread): (Memory, Thread)
    requires CanStep(m, th)
  {
    if th.stack != [] then
      var (m', fs) := FrameStep(m, th.stack[0]);
      (m', th.(stack := fs + th.stack[1..], ret := ReturnValue(th.stack[0])))
    else match th.pc
         case FlagCas => FlagStep(m, t, th)
         case AwaitInsert => (m, th.(pc := Done, result := Some(1)))
         case AwaitDelete => (m, if th.ret then th.(pc := Done, result := Some(th.found)) else th.(pc := Start))
         case Done => (m, th.(pc := Idle))
         case Idle => (m, th)
         case _ => (m, SearchStep(m, th))
  }

  predicate GoodKey(k: int) {
    KEY_MIN <= k < INF1
  }

  predicate Begin(m: Memory, th: Thread, th': Thread) {
    && th.pc == Idle && th.stack == [] && GoodKey(th'.k) && m.hist != []
    && th' == th.(pc := Start, call := th'.call, k := th'.k, since := |m.hist| - 1)
  }

  ghost predicate ThreadStep(s: State, t: nat, s': State)
    requires t < |s.threads|
  {
    exists th' ::
      && s'.threads == s.threads[t := th']
      && ((Begin(s.mem, s.threads[t], th') && s'.mem == s.mem)
          || (CanStep(s.mem, s.threads[t]) && (s'.mem, th') == Advance(s.mem, t, s.threads[t])))
  }

  ghost predicate Next(s: State, s': State) {
    exists t :: 0 <= t < |s.threads| && ThreadStep(s, t, s')
  }
}
