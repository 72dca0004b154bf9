/** BST-TK: an external tree with a version/ticket lock on each edge (src/bst-tk).

    Threads interleave one shared access at a time. Searches and the parse phase of updates
    take no locks. The 16-bit lock words and the compare-and-swap on them are modelled as the
    code has them; beside each word stand two values the program does not have: how often the
    child pointer was written, and who holds the edge.
 */
module BstTk {
  import opened Options
  import opened ExternalTree
  import opened TreeHistory
  import opened HistoryRuns

  const WORD := 0x1_0000
  const INT_MIN := -0x8000_0000
  const INT_MAX := 0x7FFF_FFFF

  const NULL := Base(0)
  const HEAD := Base(1)
  const MIN_LEAF := Base(2)
  const MAX_LEAF := Base(3)

  // ----- edge locks

  datatype Phase = Free | Held(owner: nat) | Dirty(owner: nat) | Gone

  /** version and ticket are the lock word; writes and phase are bookkeeping of the model. */
  datatype Edge = Edge(version: int, ticket: int, writes: nat, phase: Phase)

  datatype Lock = Lock(l: Edge, r: Edge) {
    function Get(side: bool): Edge {
      if side then r else l
    }

    function Set(side: bool, e: Edge): Lock {
      if side then this.(r := e) else this.(l := e)
    }
  }

  const FREE_EDGE := Edge(0, 0, 0, Free)
  const FREE_LOCK := Lock(FREE_EDGE, FREE_EDGE)

  predicate SameBits(e: Edge, f: Edge) {
    e.version == f.version && e.ticket == f.ticket
  }

  /** tl_trylock_version: None when the compare-and-swap is not tried or fails. */
  function TryLock(e: Edge, was: Edge, t: nat): Option<Edge> {
    if was.version != was.ticket then None
    else if e.version == was.version && e.ticket == was.version
    then Some(e.(ticket := (was.version + 1) % WORD, phase := Held(t)))
    else None
  }

  /** tl_trylock_version_both: on success both words become TLN_REMOVED, which no later attempt can take. */
  function TryLockBoth(lock: Lock, was: Lock): Option<Lock> {
    if was.l.version != was.l.ticket || was.r.version != was.r.ticket then None
    else if SameBits(lock.l, was.l) && SameBits(lock.r, was.r)
    then Some(Lock(lock.l.(version := 0, ticket := 0xFFFF, phase := Gone),
                   lock.r.(version := 0, ticket := 0xFFFF, phase := Gone)))
    else None
  }

  /** tl_unlock */
  function Unlock(e: Edge): Edge {
    e.(version := (e.version + 1) % WORD, phase := Free)
  }

  /** tl_revert */
  function Revert(e: Edge): Edge {
    e.(ticket := (e.ticket - 1) % WORD, phase := Free)
  }

  // ----- state

  datatype Op = Find | Insert(v: int) | Delete

  datatype Pc =
    | Idle
    | Start        // curr = set->head
    | Walk         // bst_tk_find: follow one pointer
    | ReadVer      // curr_ver = curr->lock; shift curr into pred
    | ReadChild    // follow one pointer, then test for a leaf
    | LockPred     // insert: tl_trylock_version(pred)
    | Link         // insert: write pred's child
    | UnlockPred
    | LockGrand    // delete: tl_trylock_version(ppred)
    | LockBoth     // delete: tl_trylock_version_both(pred)
    | RevertGrand
    | ReadSibling  // delete: read pred's other child
    | SpliceWrite  // delete: write ppred's child
    | UnlockGrand
    | Done

  datatype Thread = Thread(
    pc: Pc, op: Op, k: int, since: nat,
    curr: Addr, pred: Addr, ppred: Addr, sibling: Addr,
    predVer: Lock, ppredVer: Lock, right: bool, pright: bool,
    result: int)

  /** hist lists the abstract trees so far and author who wrote each of them. */
  datatype Memory = Memory(cells: Heap, locks: map<Addr, Lock>, hist: History, author: seq<Option<nat>>, serial: nat)

  datatype State = State(mem: Memory, threads: seq<Thread>)

  const FIRST_TREE := Node(HEAD, INT_MAX, Leaf(MIN_LEAF, INT_MIN, 1), Leaf(MAX_LEAF, INT_MAX, 1))

  /** set_new */
  const FIRST_MEMORY := Memory(
    map[HEAD := Cell(INT_MAX, 0, false, MIN_LEAF, MAX_LEAF),
        MIN_LEAF := Cell(INT_MIN, 1, true, NULL, NULL),
        MAX_LEAF := Cell(INT_MAX, 1, true, NULL, NULL)],
    map[HEAD := FREE_LOCK, MIN_LEAF := FREE_LOCK, MAX_LEAF := FREE_LOCK],
    [FIRST_TREE], [None], 0)

  predicate Init(s: State) {
    s.mem == FIRST_MEMORY && forall t :: 0 <= t < |s.threads| ==> s.threads[t].pc == Idle
  }

  predicate Allocated(m: Memory, a: Addr) {
    a in m.cells && a in m.locks
  }

  /** The addresses the next step of a thread dereferences are allocated. */
  predicate CanStep(m: Memory, th: Thread) {
    match th.pc
    case Idle => false
    case Start => true
    case Walk => Allocated(m, th.curr) && m.cells[th.curr].Next(th.k) in m.cells
    case ReadVer => Allocated(m, th.curr)
    case ReadChild => Allocated(m, th.curr) && m.cells[th.curr].Next(th.k) in m.cells
    case LockPred => Allocated(m, th.pred)
    case UnlockPred => Allocated(m, th.pred)
    case Link => Allocated(m, th.pred) && Allocated(m, th.curr)
    case LockGrand => Allocated(m, th.ppred)
    case RevertGrand => Allocated(m, th.ppred)
    case SpliceWrite => Allocated(m, th.ppred) && Allocated(m, th.curr) && m.hist != []
    case UnlockGrand => Allocated(m, th.ppred)
    case LockBoth => Allocated(m, th.pred) && Allocated(m, th.ppred)
    case ReadSibling => Allocated(m, th.pred) && Allocated(m, th.ppred)
    case Done => true
  }

  function SetEdge(m: Memory, a: Addr, side: bool, e: Edge): Memory
    requires a in m.locks
  {
    m.(locks := m.locks[a := m.locks[a].Set(side, e)])
  }

  predicate IsParse(pc: Pc) {
    pc == Start || pc == Walk || pc == ReadVer || pc == ReadChild
  }

  predicate IsInsert(pc: Pc) {
    pc == LockPred || pc == Link || pc == UnlockPred
  }

  predicate IsDelete(pc: Pc) {
    pc == LockGrand || pc == LockBoth || pc == RevertGrand || pc == ReadSibling || pc == SpliceWrite || pc == UnlockGrand
  }

  /** One step of thread t after its call has begun. */
  function Advance(m: Memory, t: nat, th: Thread): (Memory, Thread)
    requires CanStep(m, th)
  {
    if IsParse(th.pc) then (m, ParseStep(m, th))
    else if IsInsert(th.pc) then InsertStep(m, t, th)
    else if IsDelete(th.pc) then DeleteStep(m, t, th)
    else (m, th.(pc := Idle))
  }

  /** The lock-free search, and the parse phase that both updates begin with. */
  function ParseStep(m: Memory, th: Thread): Thread
    requires CanStep(m, th) && IsParse(th.pc)
  {
    match th.pc
    case Start => th.(curr := HEAD, pc := if th.op.Find? then Walk else ReadVer)
    case Walk =>
      var c := m.cells[th.curr].Next(th.k);
      if !m.cells[c].leaf then th.(curr := c)
      else th.(curr := c, pc := Done, result := if m.cells[c].key == th.k then m.cells[c].val else 0)
    case ReadVer =>
      th.(ppred := th.pred, ppredVer := th.predVer, pright := th.right,
          pred := th.curr, predVer := m.locks[th.curr], pc := ReadChild)
    case ReadChild =>
      var c := m.cells[th.curr].Next(th.k);
      var pc := if !m.cells[c].leaf then ReadVer
                else if (m.cells[c].key == th.k) == th.op.Insert? then Done
                else if th.op.Insert? then LockPred else LockGrand;
      th.(curr := c, right := m.cells[th.curr].Side(th.k), pc := pc, result := 0)
  }

  function InsertStep(m: Memory, t: nat, th: Thread): (Memory, Thread)
    requires CanStep(m, th) && IsInsert(th.pc)
  {
    match th.pc
    case LockPred =>
      (match TryLock(m.locks[th.pred].Get(th.right), th.predVer.Get(th.right), t)
       case None => (m, th.(pc := Start))
       case Some(e) => (SetEdge(m, th.pred, th.right, e), th.(pc := Link)))
    case Link => (LinkMemory(m, t, th), th.(pc := UnlockPred, result := 1))
    case UnlockPred =>
      (SetEdge(m, th.pred, th.right, Unlock(m.locks[th.pred].Get(th.right))), th.(pc := Done))
  }

  function DeleteStep(m: Memory, t: nat, th: Thread): (Memory, Thread)
    requires CanStep(m, th) && IsDelete(th.pc)
  {
    match th.pc
    case LockGrand =>
      (match TryLock(m.locks[th.ppred].Get(th.pright), th.ppredVer.Get(th.pright), t)
       case None => (m, th.(pc := Start))
       case Some(e) => (SetEdge(m, th.ppred, th.pright, e), th.(pc := LockBoth)))
    case LockBoth =>
      (match TryLockBoth(m.locks[th.pred], th.predVer)
       case None => (m, th.(pc := RevertGrand))
       case Some(both) => (m.(locks := m.locks[th.pred := both]), th.(pc := ReadSibling)))
    case RevertGrand =>
      (SetEdge(m, th.ppred, th.pright, Revert(m.locks[th.ppred].Get(th.pright))), th.(pc := Start))
    case ReadSibling => (m, th.(sibling := m.cells[th.pred].Child(!th.right), pc := SpliceWrite))
    case SpliceWrite => (SpliceMemory(m, t, th), th.(pc := UnlockGrand, result := m.cells[th.curr].val))
    case UnlockGrand =>
      (SetEdge(m, th.ppred, th.pright, Unlock(m.locks[th.ppred].Get(th.pright))), th.(pc := Done))
  }

  function Write(e: Edge, t: nat): Edge {
    e.(writes := e.writes + 1, phase := Dirty(t))
  }

  /** The insertion's two new nodes and the write of pred's child pointer. */
  function LinkMemory(m: Memory, t: nat, th: Thread): Memory
    requires th.pred in m.cells && th.pred in m.locks && th.curr in m.cells
  {
    var v := if th.op.Insert? then th.op.v else 0;
    var nn, nr, leaf := Made(m.serial, 0), Made(m.serial, 1), m.cells[th.curr];
    var router := if th.k < leaf.key then Cell(leaf.key, 0, false, nn, th.curr) else Cell(th.k, 0, false, th.curr, nn);
    m.(cells := m.cells[nn := Cell(th.k, v, true, NULL, NULL)][nr := router]
                       [th.pred := m.cells[th.pred].SetChild(th.right, nr)],
       locks := m.locks[nn := FREE_LOCK][nr := FREE_LOCK]
                       [th.pred := m.locks[th.pred].Set(th.right, Write(m.locks[th.pred].Get(th.right), t))],
       hist := if m.hist == [] then [] else
                 var tree := Last(m.hist);
                 m.hist + [Graft(tree, th.k, Fork(nr, nn, th.curr, th.k, v, End(tree, th.k)))],
       author := m.author + [Some(t)],
       serial := m.serial + 1)
  }

  /** The deletion's write of ppred's child pointer. */
  function SpliceMemory(m: Memory, t: nat, th: Thread): Memory
    requires th.ppred in m.cells && th.ppred in m.locks && m.hist != []
  {
    m.(cells := m.cells[th.ppred := m.cells[th.ppred].SetChild(th.pright, th.sibling)],
       locks := m.locks[th.ppred := m.locks[th.ppred].Set(th.pright, Write(m.locks[th.ppred].Get(th.pright), t))],
       hist := var tree := Last(m.hist); m.hist + [if tree.Node? then Splice(tree, th.k) else tree],
       author := m.author + [Some(t)])
  }

  /** What callers must respect: keys strictly between the two sentinels, and a value other than
      0, because the value of a node doubles as its leaf flag. */
  predicate GoodCall(op: Op, k: int) {
    INT_MIN < k < INT_MAX && (op.Insert? ==> op.v != 0)
  }

  predicate Begin(m: Memory, th: Thread, th': Thread) {
    && th.pc == Idle && GoodCall(th'.op, th'.k) && m.hist != []
    && th' == th.(pc := Start, op := th'.op, k := th'.k, since := |m.hist| - 1)
  }

  /** The 16-bit version of an edge does not wrap around between a parse and the lock attempt that follows. */
  predicate NoWrap(m: Memory, th: Thread) {
    && (th.pc == LockPred && th.pred in m.locks ==>
          m.locks[th.pred].Get(th.right).writes < th.predVer.Get(th.right).writes + WORD)
    && (th.pc == LockGrand && th.ppred in m.locks ==>
          m.locks[th.ppred].Get(th.pright).writes < th.ppredVer.Get(th.pright).writes + WORD)
    && (th.pc == LockBoth && th.pred in m.locks ==>
          && m.locks[th.pred].l.writes < th.predVer.l.writes + WORD
          && m.locks[th.pred].r.writes < th.predVer.r.writes + WORD)
  }

  ghost predicate ThreadStep(s: State, t: nat, s': State)
    requires t < |s.threads|
  {
    exists th' ::
      && s'.threads == s.threads[t := th']
      && ((Begin(s.mem, s.threads[t], th') && s'.mem == s.mem)
          || (CanStep(s.mem, s.threads[t]) && NoWrap(s.mem, s.threads[t])
              && (s'.mem, th') == Advance(s.mem, t, s.threads[t])))
  }

  ghost predicate Next(s: State, s': State) {
    exists t :: 0 <= t < |s.threads| && ThreadStep(s, t, s')
  }

  // ----- the invariant

  function VersionOf(e: Edge): int {
    match e.phase
    case Free => e.writes % WORD
    case Held(_) => e.writes % WORD
    case Dirty(_) => (e.writes - 1) % WORD
    case Gone => 0
  }

  function TicketOf(e: Edge): int {
    match e.phase
    case Free => e.writes % WORD
    case Held(_) => (e.writes + 1) % WORD
    case Dirty(_) => e.writes % WORD
    case Gone => 0xFFFF
  }

  /** The lock word of an edge: version and ticket are equal exactly while the edge is free. */
  predicate EdgeOk(e: Edge) {
    e.version == VersionOf(e) && e.ticket == TicketOf(e)
  }

  ghost predicate LocksOk(m: Memory) {
    && m.hist != [] && m.locks.Keys == m.cells.Keys
    && forall a :: a in m.locks ==> LockOk(m.cells, m.locks[a], a, Last(m.hist))
  }

  /** A router that is not locked for good is in the tree. */
  ghost predicate LockOk(h: Heap, lock: Lock, a: Addr, tree: Tree) {
    && a in h && EdgeOk(lock.l) && EdgeOk(lock.r)
    && (lock.l.phase.Gone? <==> lock.r.phase.Gone?)
    && (!h[a].leaf && !lock.l.phase.Gone? ==> a in Ids(tree))
  }

  /** The represented tree is an external search tree under the head router, with both sentinels. */
  ghost predicate TreeInv(h: Heap, hist: History) {
    && HistOk(h, hist, INT_MIN, INT_MAX + 1)
    && RootOk(Last(hist))
    && (forall a :: a in h ==> (h[a].leaf <==> h[a].val != 0))
  }

  predicate RootOk(tree: Tree) {
    tree.Node? && tree.id == HEAD && tree.key == INT_MAX && INT_MIN in Contents(tree) && INT_MAX in Contents(tree)
  }

  ghost predicate MemInv(m: Memory) {
    && TreeInv(m.cells, m.hist)
    && LocksOk(m)
    && |m.author| == |m.hist|
    && (forall a :: a in m.cells && a.Made? ==> a.maker < m.serial)
  }

  ghost predicate SeenBy(m: Memory, th: Thread, a: Addr) {
    a in m.cells && Seen(m.hist, th.since, th.k, a)
  }

  ghost predicate Router(m: Memory, th: Thread, a: Addr) {
    SeenBy(m, th, a) && !m.cells[a].leaf && a in m.locks
  }

  /** was is a lock word that was read from a earlier. */
  predicate Snapshot(m: Memory, a: Addr, was: Lock) {
    && a in m.locks && EdgeOk(was.l) && EdgeOk(was.r)
    && was.l.writes <= m.locks[a].l.writes && was.r.writes <= m.locks[a].r.writes
  }

  predicate Unwritten(m: Memory, a: Addr, side: bool, was: Lock) {
    a in m.locks && m.locks[a].Get(side).writes == was.Get(side).writes
  }

  /** If the edge was not written since was was read, it still points to b. */
  predicate StillLinks(m: Memory, a: Addr, side: bool, was: Lock, b: Addr) {
    a in m.cells && (Unwritten(m, a, side, was) ==> m.cells[a].Child(side) == b)
  }

  ghost predicate PredOk(m: Memory, th: Thread) {
    Router(m, th, th.pred) && Snapshot(m, th.pred, th.predVer)
  }

  ghost predicate CurrOk(m: Memory, th: Thread) {
    && PredOk(m, th) && SeenBy(m, th, th.curr)
    && th.right == m.cells[th.pred].Side(th.k)
    && StillLinks(m, th.pred, th.right, th.predVer, th.curr)
  }

  ghost predicate GrandOk(m: Memory, th: Thread) {
    && Router(m, th, th.ppred) && Snapshot(m, th.ppred, th.ppredVer)
    && th.pright == m.cells[th.ppred].Side(th.k)
    && StillLinks(m, th.ppred, th.pright, th.ppredVer, th.pred)
  }

  /** The parse ended at leaf curr, with the key there absent (insert) or present (delete). */
  ghost predicate AtLeaf(m: Memory, th: Thread) {
    CurrOk(m, th) && m.cells[th.curr].leaf && ((m.cells[th.curr].key == th.k) == th.op.Delete?)
  }

  predicate Holds(m: Memory, t: nat, a: Addr, side: bool, was: Lock) {
    a in m.locks && m.locks[a].Get(side).phase == Held(t) && Unwritten(m, a, side, was)
  }

  ghost predicate NoWriteYet(m: Memory, t: nat, th: Thread) {
    forall i :: th.since < i < |m.author| ==> m.author[i] != Some(t)
  }

  /** The thread made exactly one of the changes to the tree since its call began, and this one. */
  ghost predicate OneWriteAt(m: Memory, t: nat, th: Thread, i: int) {
    && th.since < i < |m.hist| && |m.author| == |m.hist|
    && m.author[i] == Some(t)
    && (forall j :: th.since < j < |m.author| && m.author[j] == Some(t) ==> j == i)
    && var before, after := Contents(m.hist[i - 1]), Contents(m.hist[i]);
       match th.op
       case Find => false
       case Insert(v) => th.result == 1 && th.k !in before && after == before[th.k := v]
       case Delete => th.k in before && th.result == before[th.k] && after == before - {th.k}
  }

  ghost predicate TookEffect(m: Memory, t: nat, th: Thread) {
    exists i :: OneWriteAt(m, t, th, i)
  }

  /** What a finished call may claim. */
  ghost predicate ResultOk(m: Memory, t: nat, th: Thread) {
    match th.op
    case Find =>
      && NoWriteYet(m, t, th)
      && AnswerHeld(m.hist, th.since, th.k, if th.result != 0 then Some(th.result) else None)
    case Insert(_) =>
      if th.result == 0
      then NoWriteYet(m, t, th) && exists w :: w != 0 && AnswerHeld(m.hist, th.since, th.k, Some(w))
      else TookEffect(m, t, th)
    case Delete =>
      if th.result == 0
      then NoWriteYet(m, t, th) && AnswerHeld(m.hist, th.since, th.k, None)
      else TookEffect(m, t, th)
  }

  ghost predicate ThreadInv(m: Memory, t: nat, th: Thread) {
    th.pc != Idle ==>
      && th.since < |m.hist| && GoodCall(th.op, th.k)
      && (IsParse(th.pc) ==> Parsing(m, t, th))
      && (IsInsert(th.pc) ==> Inserting(m, t, th))
      && (IsDelete(th.pc) ==> Deleting(m, t, th))
      && (th.pc == Done ==> ResultOk(m, t, th))
  }

  ghost predicate Parsing(m: Memory, t: nat, th: Thread) {
    && NoWriteYet(m, t, th)
    && (th.pc == Walk ==> th.op.Find? && Router(m, th, th.curr))
    && (th.pc == ReadVer ==> !th.op.Find? && Router(m, th, th.curr) && (th.curr != HEAD ==> CurrOk(m, th)))
    && (th.pc == ReadChild ==>
          !th.op.Find? && PredOk(m, th) && th.curr == th.pred && (th.pred != HEAD ==> GrandOk(m, th)))
  }

  ghost predicate Inserting(m: Memory, t: nat, th: Thread) {
    && th.op.Insert?
    && (th.pc == LockPred ==> NoWriteYet(m, t, th) && AtLeaf(m, th))
    && (th.pc == Link ==> NoWriteYet(m, t, th) && AtLeaf(m, th) && Holds(m, t, th.pred, th.right, th.predVer))
    && (th.pc == UnlockPred ==>
          TookEffect(m, t, th) && th.result != 0 && WroteEdge(m, t, th.pred, th.right))
  }

  ghost predicate Deleting(m: Memory, t: nat, th: Thread) {
    && th.op.Delete? && SeenBy(m, th, th.curr)
    && (th.pc == LockGrand ==> NoWriteYet(m, t, th) && AtLeaf(m, th) && GrandOk(m, th))
    && (th.pc == LockBoth ==>
          NoWriteYet(m, t, th) && AtLeaf(m, th) && GrandOk(m, th) && Holds(m, t, th.ppred, th.pright, th.ppredVer))
    && (th.pc == RevertGrand ==> NoWriteYet(m, t, th) && Holds(m, t, th.ppred, th.pright, th.ppredVer))
    && (th.pc == ReadSibling ==> NoWriteYet(m, t, th) && Removing(m, t, th))
    && (th.pc == SpliceWrite ==>
          NoWriteYet(m, t, th) && Removing(m, t, th) && th.sibling == m.cells[th.pred].Child(!th.right))
    && (th.pc == UnlockGrand ==>
          TookEffect(m, t, th) && th.result != 0 && WroteEdge(m, t, th.ppred, th.pright))
  }

  predicate WroteEdge(m: Memory, t: nat, a: Addr, side: bool) {
    a in m.locks && a in m.cells && m.locks[a].Get(side).phase == Dirty(t)
  }

  /** A deletion that has both locks: ppred's edge is held and pred is locked for good. */
  ghost predicate Removing(m: Memory, t: nat, th: Thread) {
    && th.op.Delete? && AtLeaf(m, th) && GrandOk(m, th) && Holds(m, t, th.ppred, th.pright, th.ppredVer)
    && m.locks[th.pred].l.phase.Gone? && m.locks[th.pred].r.phase.Gone?
    && Unwritten(m, th.pred, th.right, th.predVer)
  }

  ghost predicate Inv(s: State) {
    MemInv(s.mem) && forall t :: 0 <= t < |s.threads| ==> ThreadInv(s.mem, t, s.threads[t])
  }

  // ----- what one step of a thread may do to the others

  predicate EdgeEvolves(e: Edge, e': Edge, t: nat) {
    && e.writes <= e'.writes
    && (e.phase.Gone? ==> e' == e)
    && ((e.phase.Held? || e.phase.Dirty?) && e.phase.owner != t ==> e' == e)
  }

  ghost predicate HistEvolves(m: Memory, m': Memory, t: nat) {
    || (m'.hist == m.hist && m'.author == m.author)
    || (exists u :: m'.hist == m.hist + [u] && m'.author == m.author + [Some(t)])
  }

  ghost predicate Evolves(m: Memory, m': Memory, t: nat) {
    && Grows(m.cells, m'.cells)
    && m.locks.Keys == m.cells.Keys && m'.locks.Keys == m'.cells.Keys && |m.author| == |m.hist|
    && HistEvolves(m, m', t)
    && forall a :: a in m.locks ==> AddressEvolves(m, m', t, a)
  }

  predicate AddressEvolves(m: Memory, m': Memory, t: nat, a: Addr) {
    && a in m.locks && a in m'.locks && a in m.cells && a in m'.cells
    && EdgeEvolves(m.locks[a].l, m'.locks[a].l, t) && EdgeEvolves(m.locks[a].r, m'.locks[a].r, t)
    && (m'.locks[a].l.writes == m.locks[a].l.writes ==> m'.cells[a].left == m.cells[a].left)
    && (m'.locks[a].r.writes == m.locks[a].r.writes ==> m'.cells[a].right == m.cells[a].right)
  }

  lemma SeenByEvolves(m: Memory, m': Memory, t: nat, th: Thread, a: Addr)
    requires Evolves(m, m', t) && SeenBy(m, th, a)
    ensures SeenBy(m', th, a)
  {
    if m'.hist != m.hist {
      var u :| m'.hist == m.hist + [u];
      SeenGrows(m.hist, u, th.since, th.k, a);
    }
  }

  lemma AnswerEvolves(m: Memory, m': Memory, t: nat, th: Thread, x: Option<int>)
    requires Evolves(m, m', t) && AnswerHeld(m.hist, th.since, th.k, x)
    ensures AnswerHeld(m'.hist, th.since, th.k, x)
  {
    if m'.hist != m.hist {
      var u :| m'.hist == m.hist + [u];
      AnswerGrows(m.hist, u, th.since, th.k, x);
    }
  }

  lemma EffectEvolves(m: Memory, m': Memory, t: nat, u: nat, th: Thread)
    requires Evolves(m, m', t) && u != t && TookEffect(m, u, th)
    ensures TookEffect(m', u, th)
  {
    var i :| OneWriteAt(m, u, th, i);
    assert OneWriteAt(m', u, th, i);
  }

  lemma CurrEvolves(m: Memory, m': Memory, t: nat, th: Thread)
    requires Evolves(m, m', t) && PredOk(m, th)
    ensures PredOk(m', th)
    ensures CurrOk(m, th) ==> CurrOk(m', th)
    ensures GrandOk(m, th) ==> GrandOk(m', th)
  {
    SeenByEvolves(m, m', t, th, th.pred);
    assert AddressEvolves(m, m', t, th.pred);
    if CurrOk(m, th) {
      SeenByEvolves(m, m', t, th, th.curr);
    }
    if GrandOk(m, th) {
      SeenByEvolves(m, m', t, th, th.ppred);
      assert AddressEvolves(m, m', t, th.ppred);
    }
  }

  lemma HoldsEvolves(m: Memory, m': Memory, t: nat, u: nat, a: Addr, side: bool, was: Lock)
    requires Evolves(m, m', t) && u != t && Holds(m, u, a, side, was)
    ensures Holds(m', u, a, side, was)
  {
    assert AddressEvolves(m, m', t, a);
  }

  lemma WroteEvolves(m: Memory, m': Memory, t: nat, u: nat, a: Addr, side: bool)
    requires Evolves(m, m', t) && u != t && WroteEdge(m, u, a, side)
    ensures WroteEdge(m', u, a, side)
  {
    assert AddressEvolves(m, m', t, a);
  }

  lemma ParsingEvolves(m: Memory, m': Memory, t: nat, u: nat, th: Thread)
    requires Evolves(m, m', t) && u != t && Parsing(m, u, th) && th.since < |m.hist|
    ensures Parsing(m', u, th)
  {
    if th.pc == Walk || th.pc == ReadVer {
      SeenByEvolves(m, m', t, th, th.curr);
    }
    if (th.pc == ReadVer && th.curr != HEAD) || th.pc == ReadChild {
      CurrEvolves(m, m', t, th);
    }
  }

  lemma InsertingEvolves(m: Memory, m': Memory, t: nat, u: nat, th: Thread)
    requires Evolves(m, m', t) && u != t && Inserting(m, u, th) && th.since < |m.hist|
    ensures Inserting(m', u, th)
  {
    if th.pc == LockPred || th.pc == Link {
      CurrEvolves(m, m', t, th);
      if th.pc == Link {
        HoldsEvolves(m, m', t, u, th.pred, th.right, th.predVer);
      }
    } else if th.pc == UnlockPred {
      EffectEvolves(m, m', t, u, th);
      WroteEvolves(m, m', t, u, th.pred, th.right);
    }
  }

  lemma DeletingEvolves(m: Memory, m': Memory, t: nat, u: nat, th: Thread)
    requires Evolves(m, m', t) && u != t && Deleting(m, u, th) && th.since < |m.hist|
    ensures Deleting(m', u, th)
  {
    SeenByEvolves(m, m', t, th, th.curr);
    if th.pc == LockGrand {
      CurrEvolves(m, m', t, th);
    } else if th.pc == LockBoth || th.pc == RevertGrand {
      HoldsEvolves(m, m', t, u, th.ppred, th.pright, th.ppredVer);
      if th.pc == LockBoth {
        CurrEvolves(m, m', t, th);
      }
    } else if th.pc == ReadSibling || th.pc == SpliceWrite {
      RemovingEvolves(m, m', t, u, th);
    } else if th.pc == UnlockGrand {
      EffectEvolves(m, m', t, u, th);
      WroteEvolves(m, m', t, u, th.ppred, th.pright);
    }
  }

  /** Whatever thread t does, the invariant of every other thread stays. */
  lemma OthersKept(m: Memory, m': Memory, t: nat, u: nat, th: Thread)
    requires Evolves(m, m', t) && u != t && ThreadInv(m, u, th)
    ensures ThreadInv(m', u, th)
  {
    assert |m.hist| <= |m'.hist|;
    hide Parsing, Inserting, Deleting, ResultOk, Evolves;
    if IsParse(th.pc) {
      ParsingEvolves(m, m', t, u, th);
    } else if IsInsert(th.pc) {
      InsertingEvolves(m, m', t, u, th);
    } else if IsDelete(th.pc) {
      DeletingEvolves(m, m', t, u, th);
    } else if th.pc == Done {
      ResultEvolves(m, m', t, u, th);
    }
  }

  lemma RemovingEvolves(m: Memory, m': Memory, t: nat, u: nat, th: Thread)
    requires Evolves(m, m', t) && u != t && Removing(m, u, th)
    ensures Removing(m', u, th)
    ensures m'.cells[th.pred].Child(!th.right) == m.cells[th.pred].Child(!th.right)
  {
    CurrEvolves(m, m', t, th);
    HoldsEvolves(m, m', t, u, th.ppred, th.pright, th.ppredVer);
    assert AddressEvolves(m, m', t, th.pred);
  }

  lemma ResultEvolves(m: Memory, m': Memory, t: nat, u: nat, th: Thread)
    requires Evolves(m, m', t) && u != t && ResultOk(m, u, th)
    ensures ResultOk(m', u, th)
  {
    match th.op
    case Find => AnswerEvolves(m, m', t, th, if th.result != 0 then Some(th.result) else None);
    case Insert(_) =>
      if th.result == 0 {
        var w :| w != 0 && AnswerHeld(m.hist, th.since, th.k, Some(w));
        AnswerEvolves(m, m', t, th, Some(w));
      } else {
        EffectEvolves(m, m', t, u, th);
      }
    case Delete =>
      if th.result == 0 {
        AnswerEvolves(m, m', t, th, None);
      } else {
        EffectEvolves(m, m', t, u, th);
      }
  }

  // ----- the steps of one thread

  ghost predicate Kept(m: Memory, t: nat, m': Memory, th': Thread) {
    MemInv(m') && Evolves(m, m', t) && ThreadInv(m', t, th')
  }

  ghost predicate StepOk(m: Memory, t: nat, th: Thread) {
    CanStep(m, th) && var (m', th') := Advance(m, t, th); Kept(m, t, m', th')
  }

  /** No thread ever follows a wild pointer. */
  lemma NoWildPointer(m: Memory, t: nat, th: Thread)
    requires MemInv(m) && ThreadInv(m, t, th) && th.pc != Idle
    ensures CanStep(m, th)
  {
    assert m.locks.Keys == m.cells.Keys && m.hist != [];
    if th.pc == Walk || th.pc == ReadChild {
      WalkStep(m.cells, m.hist, INT_MIN, INT_MAX + 1, th.since, th.k, th.curr);
    }
    hide MemInv, Snapshot, StillLinks, Unwritten, ResultOk, TookEffect, NoWriteYet;
  }

  lemma SelfKept(m: Memory, t: nat, th': Thread)
    requires MemInv(m) && ThreadInv(m, t, th')
    ensures Kept(m, t, m, th')
  {
    SelfEvolves(m, t);
  }

  predicate SamePlace(th: Thread, th': Thread) {
    th' == th.(pc := th'.pc, result := th'.result, sibling := th'.sibling)
  }

  lemma PlaceFacts(m: Memory, t: nat, th: Thread, th': Thread)
    requires SamePlace(th, th')
    ensures NoWriteYet(m, t, th) ==> NoWriteYet(m, t, th')
    ensures SeenBy(m, th, th.curr) ==> SeenBy(m, th', th'.curr)
    ensures PredOk(m, th) ==> PredOk(m, th')
    ensures CurrOk(m, th) ==> CurrOk(m, th')
    ensures GrandOk(m, th) ==> GrandOk(m, th')
  {
    hide Seen, Snapshot, StillLinks;
  }

  /** A compare-and-swap that succeeds on the 16-bit word read earlier proves that the edge was not written since. */
  lemma TryLockMeansUnwritten(e: Edge, was: Edge, t: nat)
    requires EdgeOk(e) && EdgeOk(was) && was.writes <= e.writes < was.writes + WORD
    requires TryLock(e, was, t).Some?
    ensures e.phase == Free && e.writes == was.writes
    ensures EdgeOk(TryLock(e, was, t).value)
  {
    assert e.phase == Free;
    assert was.phase == Free;
  }

  lemma BitsMeanUnwritten(e: Edge, was: Edge)
    requires EdgeOk(e) && EdgeOk(was) && was.writes <= e.writes < was.writes + WORD
    requires SameBits(e, was) && was.version == was.ticket
    ensures e.phase == Free && e.writes == was.writes
  {
    assert e.phase == Free;
    assert was.phase == Free;
  }

  lemma UnlockOk(e: Edge, t: nat)
    requires EdgeOk(e) && e.phase == Dirty(t)
    ensures EdgeOk(Unlock(e))
  {
  }

  lemma RevertOk(e: Edge, t: nat)
    requires EdgeOk(e) && e.phase == Held(t)
    ensures EdgeOk(Revert(e))
  {
  }

  lemma WriteOk(e: Edge, t: nat)
    requires EdgeOk(e) && e.phase == Held(t)
    ensures EdgeOk(Write(e, t))
  {
  }

  lemma SetEdgeKept(m: Memory, t: nat, a: Addr, side: bool, e: Edge)
    requires MemInv(m) && a in m.locks && EdgeOk(e) && !e.phase.Gone? && !m.locks[a].Get(side).phase.Gone?
    requires EdgeEvolves(m.locks[a].Get(side), e, t) && e.writes == m.locks[a].Get(side).writes
    ensures MemInv(SetEdge(m, a, side, e)) && Evolves(m, SetEdge(m, a, side, e), t)
  {
    var m' := SetEdge(m, a, side, e);
    assert LockOk(m.cells, m.locks[a], a, Last(m.hist));
    forall b | b in m'.locks ensures LockOk(m'.cells, m'.locks[b], b, Last(m'.hist)) && AddressEvolves(m, m', t, b) {
      assert LockOk(m.cells, m.locks[b], b, Last(m.hist));
    }
  }

  lemma HeadIsRouter(m: Memory, since: nat, k: int)
    requires MemInv(m) && since < |m.hist|
    ensures HEAD in m.cells && HEAD in m.locks && !m.cells[HEAD].leaf && Seen(m.hist, since, k, HEAD)
  {
    SeenNow(m.hist, since, k, HEAD);
  }

  /** Under the head router itself there are only the sentinels, so a deletion always has a router above pred. */
  lemma HeadLeavesAreSentinels(m: Memory, k: int)
    requires MemInv(m) && INT_MIN < k < INT_MAX
    ensures HEAD in m.cells && m.cells[HEAD].Next(k) in m.cells
    ensures var c := m.cells[m.cells[HEAD].Next(k)]; c.leaf ==> c.key != k
  {
    var tree := Last(m.hist);
    RepIds(m.cells, tree);
    ContentsBounds(tree.right, INT_MAX, INT_MAX + 1);
    assert tree.left.id in Ids(tree);
    assert Rep(m.cells, tree.left);
    assert Contents(tree) == Contents(tree.left) + Contents(tree.right);
    assert INT_MIN in Contents(tree.left);
  }

  lemma TreeInvHist(h: Heap, hist: History)
    requires TreeInv(h, hist)
    ensures HistOk(h, hist, INT_MIN, INT_MAX + 1)
  {
  }

  lemma LeafHasValue(m: Memory, a: Addr)
    requires MemInv(m)
    ensures a in m.cells && m.cells[a].leaf ==> m.cells[a].val != 0
  {
  }

  lemma SelfEvolves(m: Memory, t: nat)
    requires MemInv(m)
    ensures Evolves(m, m, t)
  {
  }

  // ----- the parse phase

  lemma StartKept(m: Memory, t: nat, th: Thread)
    requires MemInv(m) && ThreadInv(m, t, th) && th.pc == Start
    ensures ThreadInv(m, t, ParseStep(m, th))
  {
    hide MemInv, Inserting, Deleting, ResultOk, CurrOk, GrandOk, Seen;
    HeadIsRouter(m, th.since, th.k);
  }

  lemma WalkingInv(m: Memory, t: nat, th: Thread)
    requires th.since < |m.hist| && GoodCall(th.op, th.k) && NoWriteYet(m, t, th)
    requires (th.pc == Walk && th.op.Find? && Router(m, th, th.curr)) || (th.pc == Done && ResultOk(m, t, th))
    ensures ThreadInv(m, t, th)
  {
    hide NoWriteYet, Router, ResultOk;
  }

  lemma WalkKept(m: Memory, t: nat, th: Thread)
    requires MemInv(m) && ThreadInv(m, t, th) && th.pc == Walk && CanStep(m, th)
    ensures ThreadInv(m, t, ParseStep(m, th))
  {
    assert m.locks.Keys == m.cells.Keys && TreeInv(m.cells, m.hist);
    assert Router(m, th, th.curr) && NoWriteYet(m, t, th) && th.op.Find? && th.since < |m.hist| && GoodCall(th.op, th.k);
    hide MemInv, ThreadInv, TreeInv, HistOk, Seen, ResultOk, GoodCall;
    TreeInvHist(m.cells, m.hist);
    WalkStep(m.cells, m.hist, INT_MIN, INT_MAX + 1, th.since, th.k, th.curr);
    var th' := ParseStep(m, th);
    assert NoWriteYet(m, t, th');
    if m.cells[th'.curr].leaf {
      LeafForResult(m, t, th');
    }
    WalkingInv(m, t, th');
  }

  lemma ReadVerKept(m: Memory, t: nat, th: Thread)
    requires MemInv(m) && ThreadInv(m, t, th) && th.pc == ReadVer && CanStep(m, th)
    ensures ThreadInv(m, t, ParseStep(m, th))
  {
    assert LockOk(m.cells, m.locks[th.curr], th.curr, Last(m.hist));
    assert NoWriteYet(m, t, th) && th.since < |m.hist| && GoodCall(th.op, th.k) && !th.op.Find?;
    assert Router(m, th, th.curr) && (th.curr != HEAD ==> CurrOk(m, th));
    hide MemInv, ThreadInv, Seen, GoodCall;
    var th' := ParseStep(m, th);
    assert NoWriteYet(m, t, th') && PredOk(m, th') && (th'.pred != HEAD ==> GrandOk(m, th'));
    hide NoWriteYet, PredOk, GrandOk, CurrOk;
    VersionReadInv(m, t, th');
  }

  lemma VersionReadInv(m: Memory, t: nat, th: Thread)
    requires th.since < |m.hist| && GoodCall(th.op, th.k) && NoWriteYet(m, t, th)
    requires th.pc == ReadChild && !th.op.Find? && PredOk(m, th) && th.curr == th.pred && (th.pred != HEAD ==> GrandOk(m, th))
    ensures ThreadInv(m, t, th)
  {
    hide NoWriteYet, PredOk, GrandOk;
  }

  lemma ChildRead(m: Memory, th: Thread, th': Thread)
    requires MemInv(m) && th.since < |m.hist| && PredOk(m, th) && th.curr == th.pred
    requires CanStep(m, th) && th.pc == ReadChild
    requires th' == th.(curr := m.cells[th.pred].Next(th.k), right := m.cells[th.pred].Side(th.k), pc := th'.pc,
             result := th'.result)
    ensures CurrOk(m, th')
    ensures GrandOk(m, th) ==> GrandOk(m, th')
  {
    WalkStep(m.cells, m.hist, INT_MIN, INT_MAX + 1, th.since, th.k, th.pred);
  }

  lemma LeafForUpdate(m: Memory, t: nat, th: Thread)
    requires NoWriteYet(m, t, th) && AtLeaf(m, th)
    ensures th.op.Insert? && th.pc == LockPred ==> Inserting(m, t, th)
    ensures th.op.Delete? && th.pc == LockGrand && GrandOk(m, th) ==> Deleting(m, t, th)
  {
  }

  /** An update that stops at the leaf was told the truth about its key at some moment of the call. */
  lemma LeafForResult(m: Memory, t: nat, th: Thread)
    requires TreeInv(m.cells, m.hist) && NoWriteYet(m, t, th) && SeenBy(m, th, th.curr) && m.cells[th.curr].leaf
    requires GoodCall(th.op, th.k) && th.pc == Done
    requires th.result == if th.op.Find? && m.cells[th.curr].key == th.k then m.cells[th.curr].val else 0
    requires !th.op.Find? ==> (m.cells[th.curr].key == th.k) == th.op.Insert?
    ensures ResultOk(m, t, th)
  {
    assert m.cells[th.curr].val != 0;
    hide HistOk, RootOk, AnswerHeld, NoWriteYet;
    SeenLeafAnswers(m.cells, m.hist, INT_MIN, INT_MAX + 1, th.since, th.k, th.curr);
  }

  lemma ReadChildKept(m: Memory, t: nat, th: Thread)
    requires MemInv(m) && ThreadInv(m, t, th) && th.pc == ReadChild && CanStep(m, th)
    ensures ThreadInv(m, t, ParseStep(m, th))
  {
    hide Inserting, Deleting, ResultOk, HistOk, Seen, AnswerHeld, LockOk, Snapshot, StillLinks;
    WalkStep(m.cells, m.hist, INT_MIN, INT_MAX + 1, th.since, th.k, th.pred);
    var th' := ParseStep(m, th);
    ChildRead(m, th, th');
    if m.cells[th'.curr].leaf {
      if th.pred == HEAD {
        HeadLeavesAreSentinels(m, th.k);
      }
      if th'.pc == Done {
        LeafForResult(m, t, th');
      } else {
        LeafForUpdate(m, t, th');
      }
    }
  }

  lemma ParseStepOk(m: Memory, t: nat, th: Thread)
    requires MemInv(m) && ThreadInv(m, t, th) && IsParse(th.pc)
    ensures StepOk(m, t, th)
  {
    hide MemInv, ThreadInv, Kept, ParseStep, CanStep;
    NoWildPointer(m, t, th);
    if th.pc == Start {
      StartKept(m, t, th);
    } else if th.pc == Walk {
      WalkKept(m, t, th);
    } else if th.pc == ReadVer {
      ReadVerKept(m, t, th);
    } else {
      ReadChildKept(m, t, th);
    }
    SelfKept(m, t, ParseStep(m, th));
  }

  // ----- locking and unlocking

  lemma TryFailedInv(m: Memory, t: nat, th: Thread, th': Thread)
    requires ThreadInv(m, t, th) && SamePlace(th, th')
    requires ((th.pc == LockPred || th.pc == LockGrand) && th'.pc == Start) || (th.pc == LockBoth
             && th'.pc == RevertGrand)
    ensures ThreadInv(m, t, th')
  {
    hide ResultOk, TookEffect, WroteEdge;
    PlaceFacts(m, t, th, th');
  }

  lemma TryFailed(m: Memory, t: nat, th: Thread)
    requires MemInv(m) && ThreadInv(m, t, th)
    ensures th.pc == LockPred || th.pc == LockGrand ==> Kept(m, t, m, th.(pc := Start))
    ensures th.pc == LockBoth ==> Kept(m, t, m, th.(pc := RevertGrand))
  {
    hide MemInv, ThreadInv, Kept;
    if th.pc == LockPred || th.pc == LockGrand || th.pc == LockBoth {
      var th' := th.(pc := if th.pc == LockBoth then RevertGrand else Start);
      TryFailedInv(m, t, th, th');
      SelfKept(m, t, th');
    }
  }

  /** What a thread that is about to take this edge knows. */
  predicate EdgeSeen(m: Memory, a: Addr, side: bool, was: Lock) {
    && a in m.locks && EdgeOk(m.locks[a].Get(side)) && EdgeOk(was.Get(side))
    && was.Get(side).writes <= m.locks[a].Get(side).writes
  }

  lemma PredFacts(m: Memory, t: nat, th: Thread)
    requires MemInv(m) && ThreadInv(m, t, th) && th.pc == LockPred
    ensures th.op.Insert? && th.since < |m.hist| && GoodCall(th.op, th.k)
    ensures PredOk(m, th) && AtLeaf(m, th) && NoWriteYet(m, t, th) && EdgeSeen(m, th.pred, th.right, th.predVer)
  {
    assert AtLeaf(m, th) && LockOk(m.cells, m.locks[th.pred], th.pred, Last(m.hist));
    hide TreeInv, StillLinks, NoWriteYet, GoodCall, Seen;
  }

  lemma PredLocked(m: Memory, t: nat, th: Thread, e: Edge)
    requires MemInv(m) && ThreadInv(m, t, th) && th.pc == LockPred && NoWrap(m, th)
    requires TryLock(m.locks[th.pred].Get(th.right), th.predVer.Get(th.right), t) == Some(e)
    ensures Kept(m, t, SetEdge(m, th.pred, th.right, e), th.(pc := Link))
  {
    PredFacts(m, t, th);
    hide MemInv, ThreadInv, AtLeaf, PredOk, NoWriteYet, GoodCall;
    TryLockMeansUnwritten(m.locks[th.pred].Get(th.right), th.predVer.Get(th.right), t);
    PredTaken(m, t, th, e);
  }

  lemma PredTaken(m: Memory, t: nat, th: Thread, e: Edge)
    requires MemInv(m) && th.op.Insert? && th.since < |m.hist| && GoodCall(th.op, th.k)
    requires PredOk(m, th) && AtLeaf(m, th) && NoWriteYet(m, t, th) && EdgeSeen(m, th.pred, th.right, th.predVer)
    requires var was := m.locks[th.pred].Get(th.right);
             && was.phase == Free && was.writes == th.predVer.Get(th.right).writes && EdgeOk(e)
             && TryLock(was, th.predVer.Get(th.right), t) == Some(e)
    ensures Kept(m, t, SetEdge(m, th.pred, th.right, e), th.(pc := Link))
  {
    var m' := SetEdge(m, th.pred, th.right, e);
    EdgeTaken(m, t, th.pred, th.right, th.predVer, e);
    hide *;
    SetEdgeKept(m, t, th.pred, th.right, e);
    PredKnows(m, m', t, th);
    KeptFrom(m, m', t, th.(pc := Link));
  }

  /** With the lock of an insertion taken, the rest of what the thread knows stands. */
  lemma PredKnows(m: Memory, m': Memory, t: nat, th: Thread)
    requires Evolves(m, m', t) && m'.author == m.author && m'.cells == m.cells && m'.hist == m.hist
    requires th.op.Insert? && th.since < |m.hist| && GoodCall(th.op, th.k) && PredOk(m, th) && AtLeaf(m, th) && NoWriteYet(m, t, th)
    requires Holds(m', t, th.pred, th.right, th.predVer)
    ensures ThreadInv(m', t, th.(pc := Link))
  {
    var th' := th.(pc := Link);
    hide Evolves, ThreadInv, PredOk, CurrOk, GrandOk, NoWriteYet, GoodCall, SeenBy, Holds;
    PlaceFacts(m, t, th, th');
    CurrEvolves(m, m', t, th');
    SameAuthors(m, m', t, th');
    InsertingInv(m', t, th');
  }

  lemma SameAuthors(m: Memory, m': Memory, t: nat, th: Thread)
    requires m'.author == m.author && NoWriteYet(m, t, th)
    ensures NoWriteYet(m', t, th)
  {
  }

  lemma GrandFacts(m: Memory, t: nat, th: Thread)
    requires MemInv(m) && ThreadInv(m, t, th) && th.pc == LockGrand
    ensures th.op.Delete? && th.since < |m.hist| && GoodCall(th.op, th.k)
    ensures PredOk(m, th) && AtLeaf(m, th) && GrandOk(m, th) && NoWriteYet(m, t, th) && SeenBy(m, th, th.curr)
    ensures EdgeSeen(m, th.ppred, th.pright, th.ppredVer)
  {
    assert GrandOk(m, th) && LockOk(m.cells, m.locks[th.ppred], th.ppred, Last(m.hist));
    hide TreeInv, StillLinks, NoWriteYet, GoodCall, Seen;
  }

  lemma GrandLocked(m: Memory, t: nat, th: Thread, e: Edge)
    requires MemInv(m) && ThreadInv(m, t, th) && th.pc == LockGrand && NoWrap(m, th)
    requires TryLock(m.locks[th.ppred].Get(th.pright), th.ppredVer.Get(th.pright), t) == Some(e)
    ensures Kept(m, t, SetEdge(m, th.ppred, th.pright, e), th.(pc := LockBoth))
  {
    GrandFacts(m, t, th);
    hide MemInv, ThreadInv, AtLeaf, PredOk, GrandOk, NoWriteYet, GoodCall, SeenBy;
    TryLockMeansUnwritten(m.locks[th.ppred].Get(th.pright), th.ppredVer.Get(th.pright), t);
    GrandTaken(m, t, th, e);
  }

  /** With the first lock of a deletion taken, the rest of what the thread knows stands. */
  lemma GrandKnows(m: Memory, m': Memory, t: nat, th: Thread)
    requires Evolves(m, m', t) && m'.author == m.author && m'.cells == m.cells && m'.hist == m.hist
    requires th.op.Delete? && th.since < |m.hist| && GoodCall(th.op, th.k) && SeenBy(m, th, th.curr)
    requires PredOk(m, th) && AtLeaf(m, th) && GrandOk(m, th) && NoWriteYet(m, t, th)
    requires Holds(m', t, th.ppred, th.pright, th.ppredVer)
    ensures ThreadInv(m', t, th.(pc := LockBoth))
  {
    var th' := th.(pc := LockBoth);
    hide Evolves, ThreadInv, PredOk, CurrOk, GrandOk, NoWriteYet, GoodCall, SeenBy, Holds;
    PlaceFacts(m, t, th, th');
    CurrEvolves(m, m', t, th');
    SeenByEvolves(m, m', t, th', th'.curr);
    SameAuthors(m, m', t, th');
    DeletingInv(m', t, th');
  }

  lemma GrandTaken(m: Memory, t: nat, th: Thread, e: Edge)
    requires MemInv(m) && th.op.Delete? && th.since < |m.hist| && GoodCall(th.op, th.k) && SeenBy(m, th, th.curr)
    requires PredOk(m, th) && AtLeaf(m, th) && GrandOk(m, th) && NoWriteYet(m, t, th)
    requires EdgeSeen(m, th.ppred, th.pright, th.ppredVer)
    requires var was := m.locks[th.ppred].Get(th.pright);
             && was.phase == Free && was.writes == th.ppredVer.Get(th.pright).writes && EdgeOk(e)
             && TryLock(was, th.ppredVer.Get(th.pright), t) == Some(e)
    ensures Kept(m, t, SetEdge(m, th.ppred, th.pright, e), th.(pc := LockBoth))
  {
    var m' := SetEdge(m, th.ppred, th.pright, e);
    EdgeTaken(m, t, th.ppred, th.pright, th.ppredVer, e);
    hide *;
    SetEdgeKept(m, t, th.ppred, th.pright, e);
    GrandKnows(m, m', t, th);
    KeptFrom(m, m', t, th.(pc := LockBoth));
  }

  /** A free edge that was not written since becomes held. */
  lemma EdgeTaken(m: Memory, t: nat, a: Addr, side: bool, was: Lock, e: Edge)
    requires EdgeSeen(m, a, side, was) && EdgeOk(e)
    requires var now := m.locks[a].Get(side);
             now.phase == Free && now.writes == was.Get(side).writes && TryLock(now, was.Get(side), t) == Some(e)
    ensures a in m.locks && !e.phase.Gone? && !m.locks[a].Get(side).phase.Gone? && Holds(SetEdge(m, a, side, e), t, a, side, was)
    ensures EdgeEvolves(m.locks[a].Get(side), e, t) && e.writes == m.locks[a].Get(side).writes
    ensures var m' := SetEdge(m, a, side, e); m'.author == m.author && m'.cells == m.cells && m'.hist == m.hist
  {
  }

  lemma KeptFrom(m: Memory, m': Memory, t: nat, th': Thread)
    requires MemInv(m') && Evolves(m, m', t) && ThreadInv(m', t, th')
    ensures Kept(m, t, m', th')
  {
    hide MemInv, Evolves, ThreadInv;
  }

  lemma RemovalKept(m: Memory, t: nat, a: Addr, both: Lock)
    requires MemInv(m) && a in m.locks && TryLockBoth(m.locks[a], m.locks[a]) == Some(both)
    requires m.locks[a].l.phase == Free && m.locks[a].r.phase == Free
    ensures var m' := m.(locks := m.locks[a := both]); MemInv(m') && Evolves(m, m', t)
  {
  }

  lemma BothFacts(m: Memory, t: nat, th: Thread)
    requires MemInv(m) && ThreadInv(m, t, th) && th.pc == LockBoth
    ensures th.op.Delete? && th.since < |m.hist| && GoodCall(th.op, th.k) && Holds(m, t, th.ppred, th.pright, th.ppredVer)
    ensures PredOk(m, th) && AtLeaf(m, th) && GrandOk(m, th) && NoWriteYet(m, t, th) && SeenBy(m, th, th.curr)
    ensures EdgeSeen(m, th.pred, false, th.predVer) && EdgeSeen(m, th.pred, true, th.predVer)
  {
    assert AtLeaf(m, th) && LockOk(m.cells, m.locks[th.pred], th.pred, Last(m.hist));
    hide TreeInv, StillLinks, NoWriteYet, GoodCall, Seen;
  }

  lemma BothLocked(m: Memory, t: nat, th: Thread, both: Lock)
    requires MemInv(m) && ThreadInv(m, t, th) && th.pc == LockBoth && NoWrap(m, th)
    requires TryLockBoth(m.locks[th.pred], th.predVer) == Some(both)
    ensures Kept(m, t, m.(locks := m.locks[th.pred := both]), th.(pc := ReadSibling))
  {
    BothFacts(m, t, th);
    hide MemInv, ThreadInv, AtLeaf, PredOk, GrandOk, NoWriteYet, GoodCall, SeenBy;
    var lock, was := m.locks[th.pred], th.predVer;
    BitsMeanUnwritten(lock.l, was.l);
    BitsMeanUnwritten(lock.r, was.r);
    BothTaken(m, t, th, both);
  }

  lemma BothTaken(m: Memory, t: nat, th: Thread, both: Lock)
    requires MemInv(m) && th.op.Delete? && th.since < |m.hist| && GoodCall(th.op, th.k) && SeenBy(m, th, th.curr)
    requires Holds(m, t, th.ppred, th.pright, th.ppredVer) && th.pred in m.locks && th.pc == LockBoth
    requires PredOk(m, th) && AtLeaf(m, th) && GrandOk(m, th) && NoWriteYet(m, t, th)
    requires var lock, was := m.locks[th.pred], th.predVer;
             && lock.l.phase == Free && lock.r.phase == Free && lock.l.writes == was.l.writes && lock.r.writes == was.r.writes
             && TryLockBoth(lock, lock) == TryLockBoth(lock, was) == Some(both)
    ensures Kept(m, t, m.(locks := m.locks[th.pred := both]), th.(pc := ReadSibling))
  {
    var m', th' := m.(locks := m.locks[th.pred := both]), th.(pc := ReadSibling);
    hide MemInv, Evolves, ThreadInv, PredOk, CurrOk, GrandOk, EdgeOk, NoWriteYet, GoodCall, SeenBy;
    RemovalKept(m, t, th.pred, both);
    PlaceFacts(m, t, th, th');
    CurrEvolves(m, m', t, th');
    SeenByEvolves(m, m', t, th', th'.curr);
    SameAuthors(m, m', t, th');
    DeletingInv(m', t, th');
  }

  lemma EffectKept(m: Memory, m': Memory, t: nat, th: Thread, th': Thread)
    requires m'.hist == m.hist && m'.author == m.author && SamePlace(th, th') && th'.result == th.result
    requires TookEffect(m, t, th)
    ensures TookEffect(m', t, th')
  {
    var i :| OneWriteAt(m, t, th, i);
    assert OneWriteAt(m', t, th', i);
  }

  lemma Unlocked(m: Memory, t: nat, th: Thread, a: Addr, side: bool)
    requires MemInv(m) && ThreadInv(m, t, th) && WroteEdge(m, t, a, side) && TookEffect(m, t, th) && th.result != 0
    requires th.pc == UnlockPred || th.pc == UnlockGrand
    ensures Kept(m, t, SetEdge(m, a, side, Unlock(m.locks[a].Get(side))), th.(pc := Done))
  {
    var e := Unlock(m.locks[a].Get(side));
    var m', th' := SetEdge(m, a, side, e), th.(pc := Done);
    assert LockOk(m.cells, m.locks[a], a, Last(m.hist));
    UnlockOk(m.locks[a].Get(side), t);
    assert (th.op.Insert? || th.op.Delete?) && GoodCall(th.op, th.k) && th.since < |m.hist|;
    hide MemInv, Evolves, EdgeOk, TookEffect, ThreadInv, GoodCall;
    SetEdgeKept(m, t, a, side, e);
    EffectKept(m, m', t, th, th');
    DoneInv(m', t, th');
  }

  lemma DoneInv(m: Memory, t: nat, th: Thread)
    requires th.pc == Done && th.since < |m.hist| && GoodCall(th.op, th.k)
    requires !th.op.Find? && th.result != 0 && TookEffect(m, t, th)
    ensures ThreadInv(m, t, th)
  {
    hide TookEffect;
  }

  lemma InsertingInv(m: Memory, t: nat, th: Thread)
    requires th.since < |m.hist| && GoodCall(th.op, th.k) && th.op.Insert?
    requires
      || (th.pc == Link && NoWriteYet(m, t, th) && AtLeaf(m, th) && Holds(m, t, th.pred, th.right, th.predVer))
      || (th.pc == UnlockPred && TookEffect(m, t, th) && th.result != 0 && WroteEdge(m, t, th.pred, th.right))
    ensures ThreadInv(m, t, th)
  {
    hide NoWriteYet, AtLeaf, Holds, TookEffect, WroteEdge;
  }

  lemma DeletingInv(m: Memory, t: nat, th: Thread)
    requires th.since < |m.hist| && GoodCall(th.op, th.k) && th.op.Delete? && SeenBy(m, th, th.curr)
    requires
      || (th.pc == LockBoth && NoWriteYet(m, t, th) && AtLeaf(m, th) && GrandOk(m, th)
         && Holds(m, t, th.ppred, th.pright, th.ppredVer))
      || (th.pc == ReadSibling && NoWriteYet(m, t, th) && Removing(m, t, th))
      || (th.pc == UnlockGrand && TookEffect(m, t, th) && th.result != 0 && WroteEdge(m, t, th.ppred, th.pright))
    ensures ThreadInv(m, t, th)
  {
    hide NoWriteYet, AtLeaf, GrandOk, Holds, Removing, TookEffect, WroteEdge, SeenBy;
  }

  lemma Reverted(m: Memory, t: nat, th: Thread)
    requires MemInv(m) && ThreadInv(m, t, th) && th.pc == RevertGrand
    ensures Kept(m, t, SetEdge(m, th.ppred, th.pright, Revert(m.locks[th.ppred].Get(th.pright))), th.(pc := Start))
  {
    var e := Revert(m.locks[th.ppred].Get(th.pright));
    var m', th' := SetEdge(m, th.ppred, th.pright, e), th.(pc := Start);
    assert LockOk(m.cells, m.locks[th.ppred], th.ppred, Last(m.hist));
    assert NoWriteYet(m, t, th) && th.since < |m.hist| && GoodCall(th.op, th.k);
    RevertOk(m.locks[th.ppred].Get(th.pright), t);
    hide MemInv, ThreadInv, Evolves, EdgeOk, NoWriteYet, GoodCall;
    SetEdgeKept(m, t, th.ppred, th.pright, e);
    PlaceFacts(m, t, th, th');
    SameAuthors(m, m', t, th');
    RetryInv(m', t, th');
  }

  lemma RetryInv(m: Memory, t: nat, th: Thread)
    requires th.pc == Start && th.since < |m.hist| && GoodCall(th.op, th.k) && NoWriteYet(m, t, th)
    ensures ThreadInv(m, t, th)
  {
    hide NoWriteYet;
  }

  lemma SiblingReadInv(m: Memory, t: nat, th: Thread, th': Thread)
    requires ThreadInv(m, t, th) && th.pc == ReadSibling
    requires th' == th.(sibling := m.cells[th.pred].Child(!th.right), pc := SpliceWrite)
    ensures ThreadInv(m, t, th')
  {
    hide Parsing, Inserting, ResultOk, TookEffect, CurrOk, GrandOk;
    PlaceFacts(m, t, th, th');
  }

  lemma SiblingRead(m: Memory, t: nat, th: Thread)
    requires MemInv(m) && ThreadInv(m, t, th) && th.pc == ReadSibling && CanStep(m, th)
    ensures Kept(m, t, m, th.(sibling := m.cells[th.pred].Child(!th.right), pc := SpliceWrite))
  {
    hide MemInv, ThreadInv, Kept;
    var th' := th.(sibling := m.cells[th.pred].Child(!th.right), pc := SpliceWrite);
    SiblingReadInv(m, t, th, th');
    SelfKept(m, t, th');
  }

  // ----- the two writes that change the tree

  /** The version lock on pred proves that the parse is still right: pred is the last router on k's path and curr the
      leaf there. */
  lemma InsertionPoint(m: Memory, t: nat, th: Thread)
    requires MemInv(m) && th.since < |m.hist| && AtLeaf(m, th) && Holds(m, t, th.pred, th.right, th.predVer)
    ensures var tree := Last(m.hist);
            && tree.Node? && Parent(tree, th.k) == th.pred && th.pred != th.curr
            && End(tree, th.k) == Leaf(th.curr, m.cells[th.curr].key, m.cells[th.curr].val)
  {
    var tree := Last(m.hist);
    assert LockOk(m.cells, m.locks[th.pred], th.pred, tree);
    hide LocksOk, LockOk, Snapshot;
    WalkStep(m.cells, m.hist, INT_MIN, INT_MAX + 1, th.since, th.k, th.pred);
    PathStep(m.cells, tree, th.k, th.pred);
    PathStep(m.cells, tree, th.k, th.curr);
    LastRouter(m.cells, tree, th.k, th.pred);
  }

  /** The first write of a call is the only one so far. */
  lemma WriteRecorded(m: Memory, m': Memory, t: nat, th: Thread, th': Thread, u: Tree)
    requires |m.author| == |m.hist| && th.since < |m.hist| && NoWriteYet(m, t, th)
    requires m'.hist == m.hist + [u] && m'.author == m.author + [Some(t)]
    requires th'.since == th.since && th'.k == th.k && th'.op == th.op
    requires var before, after := Contents(Last(m.hist)), Contents(u);
             match th.op
             case Find => false
             case Insert(v) => th'.result == 1 && th.k !in before && after == before[th.k := v]
             case Delete => Lookup(before, th.k) == Some(th'.result) && after == before - {th.k}
    ensures TookEffect(m', t, th')
  {
    assert m'.hist[|m.hist|] == u && m'.hist[|m.hist| - 1] == Last(m.hist);
    assert OneWriteAt(m', t, th', |m.hist|);
  }

  lemma LinkCells(m: Memory, t: nat, th: Thread)
    requires MemInv(m) && AtLeaf(m, th) && GoodCall(th.op, th.k) && th.op.Insert?
    ensures var nn, nr, leaf := Made(m.serial, 0), Made(m.serial, 1), m.cells[th.curr];
            var sub := Fork(nr, nn, th.curr, th.k, th.op.v, Leaf(th.curr, leaf.key, leaf.val));
            var m' := LinkMemory(m, t, th);
            && Rep(m'.cells, sub) && Distinct(sub) && Ids(sub) == {nn, nr, th.curr}
            && OneWrite(m.cells, m'.cells, th.pred)
            && m'.cells[th.pred] == m.cells[th.pred].SetChild(m.cells[th.pred].Side(th.k), sub.id)
  {
    hide TreeInv, LocksOk, Seen, StillLinks, Snapshot;
  }

  lemma NewNodesFresh(m: Memory)
    requires MemInv(m)
    ensures FreshFor(m.hist, Made(m.serial, 0)) && FreshFor(m.hist, Made(m.serial, 1))
  {
    UnallocatedIsFresh(m.cells, m.hist, INT_MIN, INT_MAX + 1, Made(m.serial, 0));
    UnallocatedIsFresh(m.cells, m.hist, INT_MIN, INT_MAX + 1, Made(m.serial, 1));
  }

  lemma LinkLeaves(m: Memory, t: nat, th: Thread)
    requires TreeInv(m.cells, m.hist) && AtLeaf(m, th) && GoodCall(th.op, th.k) && th.op.Insert?
    ensures var h := LinkMemory(m, t, th).cells; forall a :: a in h ==> (h[a].leaf <==> h[a].val != 0)
  {
    hide HistOk, RootOk, Seen, StillLinks, Snapshot;
  }

  lemma OrderedNow(h: Heap, hist: History)
    requires TreeInv(h, hist)
    ensures Ordered(Last(hist), INT_MIN, INT_MAX + 1)
  {
    assert Ordered(hist[|hist| - 1], INT_MIN, INT_MAX + 1);
  }

  lemma LinkTree(m: Memory, t: nat, th: Thread)
    requires MemInv(m) && th.since < |m.hist| && GoodCall(th.op, th.k) && th.op.Insert?
    requires AtLeaf(m, th) && Holds(m, t, th.pred, th.right, th.predVer)
    ensures var m' := LinkMemory(m, t, th);
            var tree, u := Last(m.hist), Last(m'.hist);
            && m'.hist == m.hist + [u] && TreeInv(m'.cells, m'.hist) && OneWrite(m.cells, m'.cells, th.pred)
            && Ids(tree) <= Ids(u) && Made(m.serial, 1) in Ids(u)
            && th.k !in Contents(tree) && Contents(u) == Contents(tree)[th.k := th.op.v]
  {
    hide LocksOk, HistOk, OneWrite, Rep, Snapshot, StillLinks, Seen, Unwritten, FreshFor;
    InsertionPoint(m, t, th);
    LinkCells(m, t, th);
    LinkLeaves(m, t, th);
    NewNodesFresh(m);
    OrderedNow(m.cells, m.hist);
    var tree := Last(m.hist);
    var m' := LinkMemory(m, t, th);
    var nn, nr := Made(m.serial, 0), Made(m.serial, 1);
    var sub := Fork(nr, nn, th.curr, th.k, th.op.v, End(tree, th.k));
    GraftContents(tree, INT_MIN, INT_MAX + 1, th.k, th.op.v, nr, nn, th.curr);
    GraftKeepsHistory(m.cells, m'.cells, m.hist, th.k, sub, INT_MIN, INT_MAX + 1);
    GraftRoot(tree, th.k, sub);
  }

  /** A child-pointer write under an edge that t holds; what becomes of addresses and locks. */
  ghost predicate HeldWrite(m: Memory, m': Memory, t: nat, a: Addr, side: bool, u: Tree) {
    && LocksOk(m) && a in m.locks && m.locks[a].Get(side).phase == Held(t)
    && m.locks.Keys <= m'.locks.Keys && m'.locks.Keys == m'.cells.Keys && m'.hist == m.hist + [u]
    && OneWrite(m.cells, m'.cells, a)
    && (exists x :: m'.cells[a] == m.cells[a].SetChild(side, x))
    && m'.locks[a] == m.locks[a].Set(side, Write(m.locks[a].Get(side), t))
    && (forall b :: b in m.locks && b != a ==> m'.locks[b] == m.locks[b])
    && (forall b :: b in m'.locks && b !in m.locks ==> m'.locks[b] == FREE_LOCK && (m'.cells[b].leaf || b in Ids(u)))
    && (forall b :: b in m.cells && b in Ids(Last(m.hist)) && b !in Ids(u) ==> m.cells[b].leaf || m.locks[b].l.phase.Gone?)
  }

  /** Such a write keeps the locks in order. */
  lemma WriteLocksOk(m: Memory, m': Memory, t: nat, a: Addr, side: bool, u: Tree)
    requires HeldWrite(m, m', t, a, side, u)
    ensures LocksOk(m')
  {
    var tree := Last(m.hist);
    forall b | b in m'.locks ensures LockOk(m'.cells, m'.locks[b], b, u) {
      if b in m.locks {
        assert LockOk(m.cells, m.locks[b], b, tree);
        LockKept(m.cells, m'.cells, m.locks[b], m'.locks[b], b, tree, u, t, b == a, side);
      }
    }
  }

  /** And it respects the other holders. */
  lemma WriteAddresses(m: Memory, m': Memory, t: nat, a: Addr, side: bool, u: Tree)
    requires HeldWrite(m, m', t, a, side, u)
    ensures forall b :: b in m.locks ==> AddressEvolves(m, m', t, b)
  {
    assert LockOk(m.cells, m.locks[a], a, Last(m.hist));
    hide LocksOk, LockOk;
    forall b | b in m.locks ensures AddressEvolves(m, m', t, b) {
    }
  }

  lemma WriteKeepsLocks(m: Memory, m': Memory, t: nat, a: Addr, side: bool, u: Tree)
    requires HeldWrite(m, m', t, a, side, u)
    ensures LocksOk(m')
    ensures forall b :: b in m.locks ==> AddressEvolves(m, m', t, b)
  {
    hide *;
    WriteLocksOk(m, m', t, a, side, u);
    WriteAddresses(m, m', t, a, side, u);
  }

  lemma LockKept(h: Heap, h': Heap, lock: Lock, lock': Lock, b: Addr, tree: Tree, u: Tree, t: nat, written: bool,
      side: bool)
    requires LockOk(h, lock, b, tree) && b in h' && h'[b].leaf == h[b].leaf
    requires b in Ids(tree) && b !in Ids(u) ==> h[b].leaf || lock.l.phase.Gone?
    requires if written then lock.Get(side).phase == Held(t) && lock' == lock.Set(side, Write(lock.Get(side), t)) else lock' == lock
    ensures LockOk(h', lock', b, u)
  {
    if written {
      WriteOk(lock.Get(side), t);
    }
  }

  /** The insertion's write, address by address */
  lemma LinkShape(m: Memory, t: nat, th: Thread)
    requires m.locks.Keys == m.cells.Keys && th.pred in m.cells && th.curr in m.cells
    requires forall a :: a in m.cells && a.Made? ==> a.maker < m.serial
    ensures var m', leaf, router := LinkMemory(m, t, th), Made(m.serial, 0), Made(m.serial, 1);
            && m'.locks.Keys == m'.cells.Keys == m.cells.Keys + {leaf, router} && leaf !in m.cells && router !in m.cells
            && m'.cells[th.pred] == m.cells[th.pred].SetChild(th.right, router) && m'.cells[leaf].leaf
            && m'.locks[th.pred] == m.locks[th.pred].Set(th.right, Write(m.locks[th.pred].Get(th.right), t))
            && m'.locks[leaf] == m'.locks[router] == FREE_LOCK
            && forall b :: b in m.locks && b != th.pred ==> m'.locks[b] == m.locks[b]
  {
  }

  lemma ShapeHolds(m: Memory, m': Memory, t: nat, a: Addr, side: bool, u: Tree, leaf: Addr, router: Addr)
    requires LocksOk(m) && a in m.locks && a in m.cells && m.locks[a].Get(side).phase == Held(t) && m'.hist == m.hist + [u]
    requires m'.locks.Keys == m'.cells.Keys == m.cells.Keys + {leaf, router} && leaf !in m.cells && router !in m.cells
    requires m'.cells[a] == m.cells[a].SetChild(side, router) && m'.cells[leaf].leaf && m.locks.Keys == m.cells.Keys
    requires m'.locks[a] == m.locks[a].Set(side, Write(m.locks[a].Get(side), t)) && m'.locks[leaf] == m'.locks[router] == FREE_LOCK
    requires forall b :: b in m.locks && b != a ==> m'.locks[b] == m.locks[b]
    requires OneWrite(m.cells, m'.cells, a) && m.hist != [] && Ids(Last(m.hist)) <= Ids(u) && router in Ids(u)
    ensures HeldWrite(m, m', t, a, side, u)
  {
    hide LocksOk, OneWrite, Ids;
  }

  lemma LinkHolds(m: Memory, t: nat, th: Thread, m': Memory, u: Tree)
    requires LocksOk(m) && (forall a :: a in m.cells && a.Made? ==> a.maker < m.serial)
    requires th.pred in m.locks && th.pred in m.cells && th.curr in m.cells && m.locks[th.pred].Get(th.right).phase == Held(t)
    requires m' == LinkMemory(m, t, th) && m'.hist == m.hist + [u]
    requires OneWrite(m.cells, m'.cells, th.pred) && Ids(Last(m.hist)) <= Ids(u) && Made(m.serial, 1) in Ids(u)
    ensures HeldWrite(m, m', t, th.pred, th.right, u)
  {
    assert m.hist != [] && m.locks.Keys == m.cells.Keys;
    hide *;
    LinkShape(m, t, th);
    ShapeHolds(m, m', t, th.pred, th.right, u, Made(m.serial, 0), Made(m.serial, 1));
  }

  lemma MemLocks(m: Memory)
    requires MemInv(m)
    ensures LocksOk(m) && m.hist != [] && m.locks.Keys == m.cells.Keys
    ensures forall a :: a in m.cells && a.Made? ==> a.maker < m.serial
  {
    hide TreeInv, LockOk;
  }

  lemma LinkLocks(m: Memory, t: nat, th: Thread, m': Memory, u: Tree)
    requires MemInv(m) && Allocated(m, th.pred) && Allocated(m, th.curr)
    requires m.locks[th.pred].Get(th.right).phase == Held(t)
    requires m' == LinkMemory(m, t, th) && m'.hist == m.hist + [u]
    requires OneWrite(m.cells, m'.cells, th.pred) && Ids(Last(m.hist)) <= Ids(u) && Made(m.serial, 1) in Ids(u)
    ensures LocksOk(m')
    ensures forall b :: b in m.locks ==> AddressEvolves(m, m', t, b)
    ensures forall a :: a in m'.cells && a.Made? ==> a.maker < m'.serial
  {
    assert th.pred in m.locks && th.pred in m.cells && th.curr in m.cells;
    hide *;
    MemLocks(m);
    LinkHolds(m, t, th, m', u);
    WriteKeepsLocks(m, m', t, th.pred, th.right, u);
    LinkMakers(m, t, th);
  }

  lemma LinkMakers(m: Memory, t: nat, th: Thread)
    requires MemInv(m) && Allocated(m, th.pred) && Allocated(m, th.curr)
    ensures var m' := LinkMemory(m, t, th); forall a :: a in m'.cells && a.Made? ==> a.maker < m'.serial
  {
    hide TreeInv, LocksOk;
  }

  /** The insertion's write is its linearization: one new binding, by this thread, and no other change by it since the
      call began. */
  lemma LinkKept(m: Memory, t: nat, th: Thread)
    requires MemInv(m) && ThreadInv(m, t, th) && th.pc == Link && CanStep(m, th)
    ensures Kept(m, t, LinkMemory(m, t, th), th.(pc := UnlockPred, result := 1))
  {
    var m' := LinkMemory(m, t, th);
    var th' := th.(pc := UnlockPred, result := 1);
    assert |m.author| == |m.hist| && m.hist != [] && m.locks.Keys == m.cells.Keys;
    assert Holds(m, t, th.pred, th.right, th.predVer) && AtLeaf(m, th) && NoWriteYet(m, t, th);
    assert th.op.Insert? && th.since < |m.hist| && GoodCall(th.op, th.k);
    hide MemInv, ThreadInv, TreeInv, LocksOk, GoodCall, AtLeaf, AddressEvolves, NoWriteYet, TookEffect, OneWrite,
         Unwritten;
    LinkTree(m, t, th);
    LinkLocks(m, t, th, m', Last(m'.hist));
    WriteRecorded(m, m', t, th, th', Last(m'.hist));
    WriteEvolves(m, m', t, th.pred, Last(m'.hist));
    hide Evolves;
    InsertingInv(m', t, th');
  }

  lemma WriteEvolves(m: Memory, m': Memory, t: nat, a: Addr, u: Tree)
    requires OneWrite(m.cells, m'.cells, a) && m'.hist == m.hist + [u] && m'.author == m.author + [Some(t)]
    requires |m.author| == |m.hist| && m.locks.Keys == m.cells.Keys
    requires TreeInv(m'.cells, m'.hist) && LocksOk(m') && forall b :: b in m'.cells && b.Made? ==> b.maker < m'.serial
    requires forall b :: b in m.locks ==> AddressEvolves(m, m', t, b)
    ensures MemInv(m') && Evolves(m, m', t)
  {
    assert m'.locks.Keys == m'.cells.Keys;
    hide TreeInv, LocksOk, AddressEvolves;
  }

  /** Both locks together prove where the deletion is: ppred, pred, curr end k's path. */
  lemma DeletionPoint(m: Memory, t: nat, th: Thread)
    requires MemInv(m) && th.since < |m.hist| && Removing(m, t, th)
    ensures var tree := Last(m.hist);
            && tree.Node? && Toward(tree, th.k).Node?
            && GrandParent(tree, th.k) == th.ppred && Parent(tree, th.k) == th.pred && End(tree, th.k).id == th.curr
            && End(tree, th.k) == Leaf(th.curr, th.k, m.cells[th.curr].val)
            && Sibling(tree, th.k).id == m.cells[th.pred].Child(!th.right)
            && th.ppred != th.pred && th.ppred != th.curr
  {
    var tree := Last(m.hist);
    assert LockOk(m.cells, m.locks[th.ppred], th.ppred, tree);
    hide LocksOk, LockOk, Snapshot;
    WalkStep(m.cells, m.hist, INT_MIN, INT_MAX + 1, th.since, th.k, th.ppred);
    PathStep(m.cells, tree, th.k, th.ppred);
    PathStep(m.cells, tree, th.k, th.pred);
    PathStep(m.cells, tree, th.k, th.curr);
    RouterAbove(m.cells, tree, th.k, th.ppred);
    LastRouter(m.cells, tree, th.k, th.pred);
  }

  lemma SpliceCells(m: Memory, t: nat, th: Thread)
    requires th.ppred in m.cells && th.ppred in m.locks && m.hist != [] && Last(m.hist).Node? && Toward(Last(m.hist), th.k).Node?
    ensures var m' := SpliceMemory(m, t, th);
            && m'.hist == m.hist + [Splice(Last(m.hist), th.k)] && OneWrite(m.cells, m'.cells, th.ppred)
            && m'.cells[th.ppred] == m.cells[th.ppred].SetChild(th.pright, th.sibling) && m'.cells.Keys == m.cells.Keys
            && forall a :: a in m.cells && a != th.ppred ==> m'.cells[a] == m.cells[a]
  {
  }

  lemma SpliceTree(m: Memory, t: nat, th: Thread)
    requires MemInv(m) && th.since < |m.hist| && GoodCall(th.op, th.k)
    requires Removing(m, t, th) && th.sibling == m.cells[th.pred].Child(!th.right)
    ensures var m' := SpliceMemory(m, t, th);
            var tree, u := Last(m.hist), Last(m'.hist);
            && m'.hist == m.hist + [u] && TreeInv(m'.cells, m'.hist) && OneWrite(m.cells, m'.cells, th.ppred)
            && Ids(u) == Ids(tree) - {th.pred, th.curr}
            && Lookup(Contents(tree), th.k) == Some(m.cells[th.curr].val) && Contents(u) == Contents(tree) - {th.k}
  {
    hide LocksOk, HistOk, Rep, Snapshot, StillLinks, Seen, Unwritten;
    DeletionPoint(m, t, th);
    SpliceCells(m, t, th);
    hide SpliceMemory, OneWrite;
    OrderedNow(m.cells, m.hist);
    var tree := Last(m.hist);
    var m' := SpliceMemory(m, t, th);
    SearchCorrect(tree, INT_MIN, INT_MAX + 1, th.k);
    SpliceContents(tree, INT_MIN, INT_MAX + 1, th.k);
    SpliceKeepsHistory(m.cells, m'.cells, m.hist, th.k, INT_MIN, INT_MAX + 1);
  }

  /** The deletion's write is its linearization. */
  lemma SpliceHolds(m: Memory, t: nat, th: Thread, m': Memory, u: Tree)
    requires LocksOk(m) && th.ppred in m.locks && th.ppred in m.cells && th.pred in m.locks && th.curr in m.cells
    requires m.locks[th.ppred].Get(th.pright).phase == Held(t) && m.locks[th.pred].l.phase.Gone? && m.cells[th.curr].leaf
    requires m' == SpliceMemory(m, t, th) && m'.hist == m.hist + [u]
    requires OneWrite(m.cells, m'.cells, th.ppred) && Ids(u) == Ids(Last(m.hist)) - {th.pred, th.curr}
    ensures HeldWrite(m, m', t, th.ppred, th.pright, u)
  {
    assert m.locks.Keys == m.cells.Keys;
    hide LocksOk, OneWrite;
    assert m'.cells[th.ppred] == m.cells[th.ppred].SetChild(th.pright, th.sibling);
  }

  lemma RemovingHolds(m: Memory, t: nat, th: Thread)
    requires Removing(m, t, th)
    ensures th.ppred in m.locks && th.ppred in m.cells && th.pred in m.locks && th.curr in m.cells
    ensures m.locks[th.ppred].Get(th.pright).phase == Held(t) && m.locks[th.pred].l.phase.Gone? && m.cells[th.curr].leaf
  {
    hide Seen, Snapshot, StillLinks;
  }

  lemma SpliceLocks(m: Memory, t: nat, th: Thread, m': Memory, u: Tree)
    requires MemInv(m) && Removing(m, t, th) && th.sibling == m.cells[th.pred].Child(!th.right)
    requires m' == SpliceMemory(m, t, th) && m'.hist == m.hist + [u]
    requires OneWrite(m.cells, m'.cells, th.ppred) && Ids(u) == Ids(Last(m.hist)) - {th.pred, th.curr}
    ensures LocksOk(m')
    ensures forall b :: b in m.locks ==> AddressEvolves(m, m', t, b)
    ensures forall a :: a in m'.cells && a.Made? ==> a.maker < m'.serial
  {
    SpliceMakers(m, t, th);
    RemovingHolds(m, t, th);
    hide *;
    MemLocks(m);
    SpliceHolds(m, t, th, m', u);
    WriteKeepsLocks(m, m', t, th.ppred, th.pright, u);
  }

  lemma SpliceMakers(m: Memory, t: nat, th: Thread)
    requires MemInv(m) && Removing(m, t, th) && th.sibling == m.cells[th.pred].Child(!th.right)
    ensures var m' := SpliceMemory(m, t, th); forall a :: a in m'.cells && a.Made? ==> a.maker < m'.serial
  {
    hide TreeInv, LocksOk, Seen, Snapshot, StillLinks, Unwritten;
  }

  lemma SpliceKept(m: Memory, t: nat, th: Thread)
    requires MemInv(m) && ThreadInv(m, t, th) && th.pc == SpliceWrite && CanStep(m, th)
    ensures Kept(m, t, SpliceMemory(m, t, th), th.(pc := UnlockGrand, result := m.cells[th.curr].val))
  {
    var m' := SpliceMemory(m, t, th);
    var th' := th.(pc := UnlockGrand, result := m.cells[th.curr].val);
    assert |m.author| == |m.hist| && m.hist != [] && m.locks.Keys == m.cells.Keys && m.cells[th.curr].leaf;
    assert Removing(m, t, th) && Holds(m, t, th.ppred, th.pright, th.ppredVer) && NoWriteYet(m, t, th)
           && SeenBy(m, th, th.curr);
    assert th.op.Delete? && th.since < |m.hist| && GoodCall(th.op, th.k)
           && th.sibling == m.cells[th.pred].Child(!th.right);
    hide MemInv, ThreadInv, TreeInv, LocksOk, GoodCall, Removing, AddressEvolves, NoWriteYet, TookEffect, OneWrite,
         Unwritten, SeenBy;
    LeafHasValue(m, th.curr);
    SpliceTree(m, t, th);
    SpliceLocks(m, t, th, m', Last(m'.hist));
    WriteRecorded(m, m', t, th, th', Last(m'.hist));
    WriteEvolves(m, m', t, th.ppred, Last(m'.hist));
    hide Evolves;
    PlaceFacts(m, t, th, th');
    SeenByEvolves(m, m', t, th', th'.curr);
    DeletingInv(m', t, th');
  }

  lemma InsertStepOk(m: Memory, t: nat, th: Thread)
    requires MemInv(m) && ThreadInv(m, t, th) && IsInsert(th.pc) && NoWrap(m, th) && CanStep(m, th)
    requires th.pc == UnlockPred ==> TookEffect(m, t, th) && th.result != 0 && WroteEdge(m, t, th.pred, th.right)
    ensures StepOk(m, t, th)
  {
    hide MemInv, ThreadInv, Kept, NoWrap, TryLock, SetEdge, LinkMemory, TookEffect, WroteEdge;
    if th.pc == LockPred {
      match TryLock(m.locks[th.pred].Get(th.right), th.predVer.Get(th.right), t)
      case None => TryFailed(m, t, th);
      case Some(e) => PredLocked(m, t, th, e);
    } else if th.pc == Link {
      LinkKept(m, t, th);
    } else {
      Unlocked(m, t, th, th.pred, th.right);
    }
  }

  lemma DeleteTailOk(m: Memory, t: nat, th: Thread)
    requires MemInv(m) && ThreadInv(m, t, th) && IsDelete(th.pc) && CanStep(m, th)
    requires th.pc == UnlockGrand ==> TookEffect(m, t, th) && th.result != 0 && WroteEdge(m, t, th.ppred, th.pright)
    requires th.pc != LockGrand && th.pc != LockBoth
    ensures StepOk(m, t, th)
  {
    hide MemInv, ThreadInv, Kept, SetEdge, SpliceMemory, TookEffect, WroteEdge;
    if th.pc == RevertGrand {
      Reverted(m, t, th);
    } else if th.pc == ReadSibling {
      SiblingRead(m, t, th);
    } else if th.pc == SpliceWrite {
      SpliceKept(m, t, th);
    } else {
      Unlocked(m, t, th, th.ppred, th.pright);
    }
  }

  lemma DeleteLocksOk(m: Memory, t: nat, th: Thread)
    requires MemInv(m) && ThreadInv(m, t, th) && NoWrap(m, th) && CanStep(m, th)
    requires th.pc == LockGrand || th.pc == LockBoth
    ensures StepOk(m, t, th)
  {
    hide MemInv, ThreadInv, Kept, NoWrap, TryLock, TryLockBoth, SetEdge;
    if th.pc == LockGrand {
      match TryLock(m.locks[th.ppred].Get(th.pright), th.ppredVer.Get(th.pright), t)
      case None => TryFailed(m, t, th);
      case Some(e) => GrandLocked(m, t, th, e);
    } else {
      match TryLockBoth(m.locks[th.pred], th.predVer)
      case None => TryFailed(m, t, th);
      case Some(both) => BothLocked(m, t, th, both);
    }
  }

  /** Every step a thread can take keeps the invariant. */
  lemma StepKept(m: Memory, t: nat, th: Thread)
    requires MemInv(m) && ThreadInv(m, t, th) && th.pc != Idle && NoWrap(m, th)
    ensures StepOk(m, t, th)
  {
    assert th.pc == UnlockPred ==> TookEffect(m, t, th) && th.result != 0 && WroteEdge(m, t, th.pred, th.right);
    assert th.pc == UnlockGrand ==> TookEffect(m, t, th) && th.result != 0 && WroteEdge(m, t, th.ppred, th.pright);
    hide MemInv, ThreadInv, NoWrap, StepOk, CanStep, TookEffect, WroteEdge;
    NoWildPointer(m, t, th);
    if IsParse(th.pc) {
      ParseStepOk(m, t, th);
    } else if IsInsert(th.pc) {
      InsertStepOk(m, t, th);
    } else if th.pc == LockGrand || th.pc == LockBoth {
      DeleteLocksOk(m, t, th);
    } else if IsDelete(th.pc) {
      DeleteTailOk(m, t, th);
    } else {
      ReturnStepOk(m, t, th);
    }
  }

  lemma ReturnStepOk(m: Memory, t: nat, th: Thread)
    requires MemInv(m) && th.pc == Done
    ensures StepOk(m, t, th)
  {
    hide MemInv, Kept;
    SelfKept(m, t, th.(pc := Idle));
  }

  // ----- whole runs

  lemma InitInv(s: State)
    requires Init(s)
    ensures Inv(s)
  {
    var h := FIRST_MEMORY.cells;
    var l, r := FIRST_TREE.left, FIRST_TREE.right;
    assert Rep(h, l) && Rep(h, r) && Rep(h, FIRST_TREE);
    assert Distinct(FIRST_TREE);
    assert Ordered(l, INT_MIN, INT_MAX) && Ordered(r, INT_MAX, INT_MAX + 1);
    assert INT_MIN in Contents(l) && INT_MAX in Contents(r);
    assert RootOk(FIRST_TREE);
    FirstTree(h, FIRST_TREE, INT_MIN, INT_MAX + 1);
  }

  lemma BeginKept(m: Memory, t: nat, th: Thread, th': Thread)
    requires MemInv(m) && Begin(m, th, th')
    ensures Kept(m, t, m, th')
  {
    SelfKept(m, t, th');
  }

  lemma NextInv(s: State, s': State)
    requires Inv(s) && Next(s, s')
    ensures Inv(s')
  {
    var t: nat :| 0 <= t < |s.threads| && ThreadStep(s, t, s');
    var th := s.threads[t];
    var th' :| && s'.threads == s.threads[t := th']
               && ((Begin(s.mem, th, th') && s'.mem == s.mem)
                   || (CanStep(s.mem, th) && NoWrap(s.mem, th) && (s'.mem, th') == Advance(s.mem, t, th)));
    assert CanStep(s.mem, th) ==> th.pc != Idle;
    hide MemInv, ThreadInv, Evolves, Advance, CanStep, NoWrap, Begin;
    if CanStep(s.mem, th) && (s'.mem, th') == Advance(s.mem, t, th) && NoWrap(s.mem, th) {
      StepKept(s.mem, t, th);
    } else {
      BeginKept(s.mem, t, th, th');
    }
    forall u | 0 <= u < |s'.threads| ensures ThreadInv(s'.mem, u, s'.threads[u]) {
      if u != t {
        assert s'.threads[u] == s.threads[u];
        OthersKept(s.mem, s'.mem, t, u, s.threads[u]);
      }
    }
  }

  ghost predicate Run(run: seq<State>) {
    && run != [] && Init(run[0])
    && forall i :: 0 <= i < |run| - 1 ==> Next(run[i], run[i + 1])
  }

  /** The invariant holds in every state of every run. */
  lemma {:induction false} RunInv(run: seq<State>, i: nat)
    requires Run(run) && i < |run|
    ensures Inv(run[i])
  {
    if i == 0 {
      InitInv(run[0]);
    } else {
      RunInv(run, i - 1);
      assert Next(run[i - 1], run[i - 1 + 1]);
      NextInv(run[i - 1], run[i]);
    }
  }

  // ----- what a user of the tree may rely on

  function TreeAt(run: seq<State>, i: nat): Tree
    requires i < |run| && run[i].mem.hist != []
  {
    Last(run[i].mem.hist)
  }

  /** In every reachable state the heap under the head router is exactly one external search tree:
      every router has two children, keys are ordered, no node occurs twice, both sentinels are there. */
  lemma AlwaysASearchTree(run: seq<State>, i: nat, other: Tree)
    requires Run(run) && i < |run|
    ensures run[i].mem.hist != []
    ensures var tree := TreeAt(run, i);
            && tree.id == HEAD && Rep(run[i].mem.cells, tree) && Distinct(tree) && Ordered(tree, INT_MIN, INT_MAX + 1)
            && INT_MIN in Contents(tree) && INT_MAX in Contents(tree)
    ensures Rep(run[i].mem.cells, other) && other.id == HEAD ==> other == TreeAt(run, i)
  {
    RunInv(run, i);
    var m := run[i].mem;
    OrderedNow(m.cells, m.hist);
    if Rep(m.cells, other) && other.id == HEAD {
      RepUnique(m.cells, other, Last(m.hist));
    }
  }

  predicate SameCall(th: Thread, th': Thread) {
    th'.op == th.op && th'.k == th.k && th'.since == th.since
  }

  lemma StepShape(m: Memory, t: nat, th: Thread)
    requires CanStep(m, th) && m.hist != []
    ensures HistEvolves(m, Advance(m, t, th).0, t) && SameCall(th, Advance(m, t, th).1)
    ensures th.pc != Link && th.pc != SpliceWrite ==> Advance(m, t, th).0.hist == m.hist
    ensures th.pc == Link ==> Advance(m, t, th).0 == LinkMemory(m, t, th)
    ensures th.pc == SpliceWrite ==> Advance(m, t, th).0 == SpliceMemory(m, t, th)
  {
    hide TryLock, TryLockBoth;
  }

  /** The abstract map changes only at the child write of an update that found its key absent (insert)
      or present (delete), and then by exactly that update's own key. */
  lemma OnlyOwnKeyChanges(s: State, s': State, t: nat)
    requires Inv(s) && t < |s.threads| && ThreadStep(s, t, s')
    ensures s.mem.hist != [] && s'.mem.hist != []
    ensures var before, after, th := Contents(Last(s.mem.hist)), Contents(Last(s'.mem.hist)), s.threads[t];
            if th.pc == Link then th.op.Insert? && th.k !in before && after == before[th.k := th.op.v]
            else if th.pc == SpliceWrite then th.op.Delete? && th.k in before && after == before - {th.k}
            else s'.mem.hist == s.mem.hist
  {
    var m, th := s.mem, s.threads[t];
    assert ThreadInv(m, t, th) && MemInv(m);
    assert m.hist != [];
    assert th.pc == Link ==>
        th.since < |m.hist| && GoodCall(th.op, th.k) && th.op.Insert? && AtLeaf(m, th)
            && Holds(m, t, th.pred, th.right, th.predVer);
    assert th.pc == SpliceWrite ==>
        th.since < |m.hist| && GoodCall(th.op, th.k) && Removing(m, t, th) && th.op.Delete?
            && th.sibling == m.cells[th.pred].Child(!th.right);
    var th' :| && s'.threads == s.threads[t := th']
               && ((Begin(m, th, th') && s'.mem == m)
                   || (CanStep(m, th) && NoWrap(m, th) && (s'.mem, th') == Advance(m, t, th)));
    hide Inv, MemInv, ThreadInv, AtLeaf, Holds, Removing, TreeInv, NoWrap, GoodCall, OneWrite, Advance, Begin,
         HistEvolves, SameCall;
    if CanStep(m, th) {
      StepShape(m, t, th);
    }
    if th.pc == Link {
      LinkTree(m, t, th);
    } else if th.pc == SpliceWrite {
      SpliceTree(m, t, th);
    }
  }

  /** The call that a thread is in */
  function CallOf(th: Thread): Option<Running<Op>> {
    if th.pc == Idle then None else Some(Running(th.op, th.k, th.since))
  }

  function Shown(s: State): (m: Moment<Op, Option<nat>>)
    ensures |m.calls| == |s.threads|
  {
    Moment(s.mem.hist, s.mem.author, seq(|s.threads|, t requires 0 <= t < |s.threads| => CallOf(s.threads[t])))
  }

  /** What a run shows of histories and calls */
  function Shows(run: seq<State>): (ms: seq<Moment<Op, Option<nat>>>)
    ensures |ms| == |run| && forall i :: 0 <= i < |run| ==> ms[i] == Shown(run[i])
  {
    seq(|run|, i requires 0 <= i < |run| => Shown(run[i]))
  }

  lemma NextHistory(s: State, s': State)
    requires Inv(s) && Next(s, s')
    ensures Follows(Shown(s), Shown(s'))
  {
    assert s.mem.hist != [];
    hide Inv, NoWrap, Advance, SameCall;
    var u: nat :| 0 <= u < |s.threads| && ThreadStep(s, u, s');
    UnderStep(s, u, s');
    hide ThreadStep, Appends;
  }

  lemma UnderStep(s: State, u: nat, s': State)
    requires s.mem.hist != [] && u < |s.threads| && ThreadStep(s, u, s')
    ensures Appends(s.mem.hist, s'.mem.hist) && s.mem.author <= s'.mem.author && |s'.threads| == |s.threads|
    ensures CallFollows(CallOf(s.threads[u]), CallOf(s'.threads[u]), s.mem.hist, s'.mem.hist)
    ensures forall t :: 0 <= t < |s.threads| && t != u ==> s'.threads[t] == s.threads[t]
  {
    var th := s.threads[u];
    hide NoWrap, Advance;
    if CanStep(s.mem, th) {
      StepShape(s.mem, u, th);
    }
  }

  lemma RunIsHistoryRun(run: seq<State>)
    requires Run(run)
    ensures HistoryRun(Shows(run))
  {
    forall j | 0 < j < |run| ensures Follows(Shown(run[j - 1]), Shown(run[j])) {
      RunInv(run, j - 1);
      assert Next(run[j - 1], run[j - 1 + 1]);
      hide Run, Inv, Next, Follows;
      NextHistory(run[j - 1], run[j]);
    }
  }

  /** Of the entries that the history gained since state b, up to state e, x is the one that thread t wrote. */
  ghost predicate OwnEntry(run: seq<State>, b: nat, e: nat, t: nat, x: int) {
    && b < |run| && e < |run| && 0 < |run[b].mem.hist| <= x < |run[e].mem.author|
    && forall y :: |run[b].mem.hist| <= y < |run[e].mem.author| ==> (run[e].mem.author[y] == Some(t) <==> y == x)
  }

  ghost predicate NoOwnEntry(run: seq<State>, b: nat, e: nat, t: nat) {
    && b < |run| && e < |run|
    && forall y :: |run[b].mem.hist| <= y < |run[e].mem.author| ==> run[e].mem.author[y] != Some(t)
  }

  /** The step into state i of the call made the call's own and only change, from before to after. */
  ghost predicate ChangedBy(run: seq<State>, b: nat, e: nat, t: nat, i: int, x: nat,
                            before: map<int, int>, after: map<int, int>) {
    && b < i <= e && OwnEntry(run, b, e, t, x)
    && WroteEntry(TraceOf(Shows(run)), i, x) && ChangedAt(TraceOf(Shows(run)), i, before, after)
  }

  /** Linearizability. A call that has returned its result in state e was right about it at some moment of
      the call: a find, and an update that returns 0, changed nothing and gives an answer that was true in some
      state since the call began; an update that succeeds made its change to the map in one step of the call,
      and made no other. */
  ghost predicate Linearized(run: seq<State>, b: nat, e: nat, t: nat)
    requires e < |run| && t < |run[e].threads|
  {
    var th, tr := run[e].threads[t], TraceOf(Shows(run));
    match th.op
    case Find =>
      var answer := if th.result != 0 then Some(th.result) else None;
      NoOwnEntry(run, b, e, t) && exists i :: b <= i <= e && AnswerAt(tr, i, th.k, answer)
    case Insert(v) =>
      if th.result == 0
      then NoOwnEntry(run, b, e, t) && exists i, w :: b <= i <= e && AnswerAt(tr, i, th.k, Some(w))
      else exists i, x, before, after ::
             ChangedBy(run, b, e, t, i, x, before, after) && th.k !in before && after == before[th.k := v]
    case Delete =>
      if th.result == 0
      then NoOwnEntry(run, b, e, t) && exists i :: b <= i <= e && AnswerAt(tr, i, th.k, None)
      else exists i, x, before, after ::
             ChangedBy(run, b, e, t, i, x, before, after)
             && Lookup(before, th.k) == Some(th.result) && after == before - {th.k}
  }

  lemma ChangeIsOwn(run: seq<State>, b: nat, e: nat, t: nat, x: int) returns (i: nat)
    requires HistoryRun(Shows(run)) && InCall(Shows(run), b, e, t) && OneWriteAt(run[e].mem, t, run[e].threads[t], x)
    ensures x > 0 && |run[e].mem.hist| > x
    ensures ChangedBy(run, b, e, t, i, x, Contents(run[e].mem.hist[x - 1]), Contents(run[e].mem.hist[x]))
  {
    TraceLinked(Shows(run));
    CallFrozen(Shows(run), b, e, t);
    i := ChangeMoment(TraceOf(Shows(run)), b, e, x);
  }

  lemma ResultLinearizes(run: seq<State>, b: nat, e: nat, t: nat)
    requires HistoryRun(Shows(run)) && InCall(Shows(run), b, e, t) && ResultOk(run[e].mem, t, run[e].threads[t])
    requires |run[e].mem.author| == |run[e].mem.hist|
    ensures Linearized(run, b, e, t)
  {
    var m, th, tr := run[e].mem, run[e].threads[t], TraceOf(Shows(run));
    TraceLinked(Shows(run));
    CallFrozen(Shows(run), b, e, t);
    match th.op
    case Find =>
      var i := AnswerMoment(tr, b, e, th.k, if th.result != 0 then Some(th.result) else None);
    case Insert(v) =>
      if th.result == 0 {
        var w :| w != 0 && AnswerHeld(m.hist, th.since, th.k, Some(w));
        var i := AnswerMoment(tr, b, e, th.k, Some(w));
      } else {
        var x :| OneWriteAt(m, t, th, x);
        var i := ChangeIsOwn(run, b, e, t, x);
      }
    case Delete =>
      if th.result == 0 {
        var i := AnswerMoment(tr, b, e, th.k, None);
      } else {
        var x :| OneWriteAt(m, t, th, x);
        var i := ChangeIsOwn(run, b, e, t, x);
      }
  }

  lemma EveryCallLinearizes(run: seq<State>, b: nat, e: nat, t: nat)
    requires Run(run) && InCall(Shows(run), b, e, t) && run[e].threads[t].pc == Done
    ensures Linearized(run, b, e, t)
  {
    RunInv(run, e);
    assert ThreadInv(run[e].mem, t, run[e].threads[t]);
    assert ResultOk(run[e].mem, t, run[e].threads[t]);
    assert |run[e].mem.author| == |run[e].mem.hist| by {
      assert MemInv(run[e].mem);
    }
    RunIsHistoryRun(run);
    hide Run, Inv, HistoryRun, ResultOk, Linearized;
    ResultLinearizes(run, b, e, t);
  }

  lemma AuthorsMatch(run: seq<State>, i: nat)
    requires Run(run) && i < |run|
    ensures |run[i].mem.author| == |run[i].mem.hist|
  {
    RunInv(run, i);
    hide Run;
    assert MemInv(run[i].mem);
  }

  /** Two calls, of one thread or of two, never share a change. */
  lemma NoSharedChange(run: seq<State>, b: nat, e: nat, t: nat, x: nat, c: nat, f: nat, u: nat, y: nat)
    requires Run(run) && InCall(Shows(run), b, e, t) && InCall(Shows(run), c, f, u) && (b != c || t != u)
    requires OwnEntry(run, b, e, t, x) && OwnEntry(run, c, f, u, y)
    ensures x != y
  {
    hide Run, InCall, HistoryRun;
    RunIsHistoryRun(run);
    AuthorsMatch(run, e);
    AuthorsMatch(run, f);
    if t == u && b < c {
      CallsApart(Shows(run), b, e, t, c, f);
    } else if t == u {
      CallsApart(Shows(run), c, f, t, b, e);
    } else {
      assert run[e].mem.author[x] == Some(t) && run[f].mem.author[y] == Some(u);
      if e <= f {
        AuthorsStay(Shows(run), e, f);
        assert run[f].mem.author[x] == Some(t);
      } else {
        AuthorsStay(Shows(run), f, e);
        assert run[e].mem.author[y] == Some(u);
      }
    }
  }
}
