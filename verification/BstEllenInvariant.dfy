/** The invariant of the non-blocking tree, and that each of its eight memory-changing steps keeps it. */
module BstEllenInvariant {
  import opened Options
  import opened ExternalTree
  import opened TreeHistory
  import opened BstEllen

  // ----- nodes and words

  /** a was prepared for an insertion whose child write has not happened. */
  predicate Unlinked(ops: map<nat, Op>, a: Addr) {
    a.Made? && a.maker in ops && ops[a.maker].IOp? && ops[a.maker].phase == Flagged
  }

  predicate HalfRemoved(phase: Phase) {
    phase == Marked || phase == Spliced || phase == Finished
  }

  /** w was in n's update field at some moment. */
  predicate Appeared(ops: map<nat, Op>, n: Addr, w: Word) {
    w == NULL_WORD
    || (w.op in ops
        && var op := ops[w.op];
           && (w.flag == IFlag ==> op.IOp? && op.p == n)
           && (w.flag == DFlag ==> op.DOp? && op.gp == n)
           && (w.flag == Mark ==> op.DOp? && op.p == n && HalfRemoved(op.phase))
           && (w.flag == Clean ==>
                 (op.IOp? && op.p == n && op.phase == Finished)
                 || (op.DOp? && op.gp == n && (op.phase == Finished || op.phase == Aborted))))
  }

  /** w may be in n's update field now: a flag stands there only while its record is being worked on. */
  predicate Fits(ops: map<nat, Op>, n: Addr, w: Word) {
    && Appeared(ops, n, w)
    && (w.flag == IFlag ==> w.op in ops && (ops[w.op].phase == Flagged || ops[w.op].phase == Linked))
    && (w.flag == DFlag ==> w.op in ops && (ops[w.op].phase == Flagged || ops[w.op].phase == Marked || ops[w.op].phase == Spliced))
  }

  predicate Router(m: Memory, n: Addr) {
    n in m.cells && !m.cells[n].leaf && n in m.upd && n in m.past && !Unlinked(m.ops, n)
  }

  predicate LeafAt(m: Memory, n: Addr) {
    n in m.cells && m.cells[n].leaf && !Unlinked(m.ops, n)
  }

  // ----- records

  /** The change a record is for, as written at one entry of the history. */
  ghost predicate Effect(m: Memory, o: nat, op: Op) {
    && 0 < op.at < |m.hist| && |m.author| == |m.hist| && m.author[op.at] == o
    && var before, after := Contents(m.hist[op.at - 1]), Contents(m.hist[op.at]);
       match op
       case IOp(_, _, _, k, v, _, _, _) => k !in before && after == before[k := v]
       case DOp(_, _, l, _, k, _, _, _) =>
         k in before && l in m.cells && before[k] == m.cells[l].val && after == before - {k}
  }

  /** p is in the tree, on the way to k, and its pointer that way is to c. */
  ghost predicate Leads(m: Memory, p: Addr, k: int, c: Addr) {
    m.hist != [] && p in m.cells && p in Path(Last(m.hist), k) && m.cells[p].Next(k) == c
  }

  function ForkOf(m: Memory, o: nat, op: Op): Tree
    requires op.IOp? && op.l in m.cells
  {
    Fork(Made(o, 0), Made(o, 1), Made(o, 2), op.k, op.v, Leaf(op.l, m.cells[op.l].key, m.cells[op.l].val))
  }

  /** bst_cas_child would pick the side of k. */
  predicate SameSide(h: Heap, p: Addr, c: Addr, k: int) {
    p in h && c in h && CasSide(h, p, c) == h[p].Side(k)
  }

  predicate IStatic(m: Memory, o: nat, op: Op) {
    && op.IOp? && Router(m, op.p) && LeafAt(m, op.l) && GoodKey(op.k)
    && op.ni == Made(o, 0) && Made(o, 1) in m.cells && Made(o, 2) in m.cells
    && SameSide(m.cells, op.p, op.ni, op.k)
    && m.cells[op.l].key != op.k
    && (op.phase == Flagged || op.phase == Linked || op.phase == Finished)
  }

  ghost predicate IFlagged(m: Memory, o: nat, op: Op) {
    && op.IOp? && op.p in m.upd && m.upd[op.p] == Word(o, IFlag)
    && Leads(m, op.p, op.k, op.l)
    && op.l in m.cells && Rep(m.cells, ForkOf(m, o, op))
  }

  /** The leaf the record replaced is out of the tree, and p will never point to it again. */
  predicate IDone(m: Memory, o: nat, op: Op) {
    && op.IOp? && m.hist != [] && op.l !in Ids(Last(m.hist))
    && op.p in m.cells && m.cells[op.p].Next(op.k) != op.l
  }

  ghost predicate IOpOk(m: Memory, o: nat, op: Op) {
    && IStatic(m, o, op)
    && (op.phase == Flagged ==> IFlagged(m, o, op))
    && (op.phase == Linked ==> op.p in m.upd && m.upd[op.p] == Word(o, IFlag))
    && (op.phase != Flagged ==> IDone(m, o, op) && Effect(m, o, op))
  }

  predicate DStatic(m: Memory, op: Op) {
    && op.DOp? && Router(m, op.gp) && Router(m, op.p) && LeafAt(m, op.l) && GoodKey(op.k)
    && op.pupdate.flag == Clean && op.pupdate in m.past[op.p] && m.cells[op.l].key == op.k
    && op.phase != Linked
  }

  ghost predicate DFlagged(m: Memory, o: nat, op: Op) {
    op.DOp? && op.gp in m.upd && m.upd[op.gp] == Word(o, DFlag) && Leads(m, op.gp, op.k, op.p)
  }

  /** p is marked for good: its children are the leaf and one other node, on the same side of gp as k. */
  predicate DMarked(m: Memory, o: nat, op: Op) {
    && op.DOp? && op.p in m.upd && m.upd[op.p] == Word(o, Mark)
    && op.p in m.cells && m.cells[op.p].Next(op.k) == op.l
    && var other := m.cells[op.p].Child(!m.cells[op.p].Side(op.k));
       other != op.l && SameSide(m.cells, op.gp, other, op.k)
  }

  predicate DDone(m: Memory, o: nat, op: Op) {
    && op.DOp? && m.hist != [] && op.p !in Ids(Last(m.hist))
    && op.gp in m.cells && m.cells[op.gp].Next(op.k) != op.p
  }

  ghost predicate DOpOk(m: Memory, o: nat, op: Op) {
    && DStatic(m, op)
    && (op.phase == Flagged || op.phase == Marked ==> DFlagged(m, o, op))
    && (op.phase == Flagged && m.upd[op.p] == op.pupdate ==> m.cells[op.p].Next(op.k) == op.l)
    && (HalfRemoved(op.phase) ==> DMarked(m, o, op))
    && (op.phase == Spliced ==> m.upd[op.gp] == Word(o, DFlag))
    && (op.phase == Spliced || op.phase == Finished ==> DDone(m, o, op) && Effect(m, o, op))
    && (op.phase == Aborted ==> m.upd[op.p] != op.pupdate)
  }

  ghost predicate OpOk(m: Memory, o: nat, op: Op) {
    if op.IOp? then IOpOk(m, o, op) else DOpOk(m, o, op)
  }

  predicate TookEffect(op: Op) {
    op.phase == Linked || op.phase == Spliced || op.phase == Finished
  }

  // ----- the memory invariant

  predicate RootOk(tree: Tree) {
    tree.Node? && tree.id == ROOT && tree.key == INF2 && INF1 in Contents(tree) && INF2 in Contents(tree)
  }

  ghost predicate TreeInv(m: Memory) {
    HistOk(m.cells, m.hist, KEY_MIN, INF2 + 1) && RootOk(Last(m.hist))
  }

  ghost predicate Tables(m: Memory) {
    && m.upd.Keys == m.past.Keys
    && (forall n :: n in m.upd ==> n in m.cells && !m.cells[n].leaf && (n.Made? ==> n.part == 0))
    && (forall n :: n in m.cells && !m.cells[n].leaf ==> n in m.upd)
    && m.serial > 0 && 0 !in m.ops && (forall o :: o in m.ops ==> o < m.serial)
    && (forall n :: n in m.cells && n.Made? ==> n.maker in m.ops && m.ops[n.maker].IOp?)
  }

  ghost predicate WordsOk(m: Memory) {
    && (forall n :: n in m.upd && n in m.past ==> m.upd[n] in m.past[n] && Fits(m.ops, n, m.upd[n]))
    && (forall n, w :: n in m.past && w in m.past[n] ==> Appeared(m.ops, n, w))
  }

  predicate InTree(m: Memory, n: Addr) {
    m.hist != [] && n in Ids(Last(m.hist))
  }

  /** A router is in the tree, or marked, or not linked yet; one not linked yet was never in the tree. */
  ghost predicate Live(m: Memory) {
    && (forall n :: n in m.upd ==> InTree(m, n) || m.upd[n].flag == Mark || Unlinked(m.ops, n))
    && (forall n :: Unlinked(m.ops, n) ==> FreshFor(m.hist, n) && (n in m.upd ==> m.upd[n] == NULL_WORD))
  }

  ghost predicate OpsOk(m: Memory) {
    forall o :: o in m.ops ==> OpOk(m, o, m.ops[o])
  }

  /** Every entry of the history but the first was written by the record named there, once. */
  ghost predicate AuthorsOk(m: Memory) {
    && m.hist != [] && |m.author| == |m.hist|
    && forall i :: 0 < i < |m.author| ==>
         m.author[i] in m.ops && TookEffect(m.ops[m.author[i]]) && m.ops[m.author[i]].at == i
  }

  ghost predicate MemInv(m: Memory) {
    TreeInv(m) && Tables(m) && WordsOk(m) && Live(m) && OpsOk(m) && AuthorsOk(m)
  }

  // ----- what one step can do

  predicate PhaseStep(a: Op, b: Op) {
    || a == b
    || (a.phase == Flagged && b == a.(phase := Linked, at := b.at) && a.IOp?)
    || (a.phase == Linked && b == a.(phase := Finished))
    || (a.phase == Flagged && (b == a.(phase := Marked) || b == a.(phase := Aborted)) && a.DOp?)
    || (a.phase == Marked && b == a.(phase := Spliced, at := b.at))
    || (a.phase == Spliced && b == a.(phase := Finished))
  }

  ghost predicate OpsEvolve(m: Memory, m': Memory, o: nat) {
    && (forall q :: q in m.ops ==> q in m'.ops && (q != o ==> m'.ops[q] == m.ops[q]))
    && (forall q :: q in m'.ops ==> q in m.ops || q == o)
    && (o in m.ops ==> o in m'.ops && PhaseStep(m.ops[o], m'.ops[o]))
    && (o !in m.ops ==> o == m.serial && (o in m'.ops ==> m'.ops[o].phase == Flagged))
  }

  /** An update field changes only by record o, to a word it never held; a marked one never. */
  predicate WordChange(m: Memory, m': Memory, o: nat, n: Addr)
    requires n in m.upd && n in m'.upd && n in m.past && n in m'.past
  {
    && m.upd[n].flag != Mark && (m.upd[n].op == o || m.upd[n].flag == Clean) && !Unlinked(m.ops, n)
    && m'.upd[n].op == o && m'.upd[n] !in m.past[n] && m'.past[n] == m.past[n] + {m'.upd[n]}
  }

  ghost predicate WordsEvolve(m: Memory, m': Memory, o: nat) {
    forall n :: n in m.upd && n in m.past ==>
      n in m'.upd && n in m'.past
      && ((m'.upd[n] == m.upd[n] && m'.past[n] == m.past[n]) || WordChange(m, m', o, n))
  }

  predicate NewChild(m: Memory, a: Addr) {
    InTree(m, a) || Unlinked(m.ops, a)
  }

  /** A child pointer changes only while record o's flag stands on its node. */
  predicate ChildChange(m: Memory, m': Memory, o: nat, n: Addr)
    requires n in m.cells && n in m'.cells
  {
    && n in m.upd && m.upd[n].op == o && (m.upd[n].flag == IFlag || m.upd[n].flag == DFlag) && !Unlinked(m.ops, n)
    && (m'.cells[n].left == m.cells[n].left || NewChild(m, m'.cells[n].left))
    && (m'.cells[n].right == m.cells[n].right || NewChild(m, m'.cells[n].right))
  }

  ghost predicate CellsEvolve(m: Memory, m': Memory, o: nat) {
    && Grows(m.cells, m'.cells)
    && forall n :: n in m.cells ==> n in m'.cells && (m'.cells[n] == m.cells[n] || ChildChange(m, m', o, n))
  }

  ghost predicate TreeStep(m: Memory, m': Memory, o: nat)
    requires m.hist != [] && m'.hist != []
  {
    var t, u := Last(m.hist), Last(m'.hist);
    && m'.hist == m.hist + [u] && m'.author == m.author + [o]
    && PathsKept(m.cells, t, u)
    && (forall a :: a in Ids(u) ==> (a in Ids(t) || Unlinked(m.ops, a)) && !Unlinked(m'.ops, a))
    && (forall a :: a in Ids(t) && a in m.upd && a !in Ids(u) ==> m.upd[a] == Word(o, Mark))
  }

  ghost predicate HistEvolve(m: Memory, m': Memory, o: nat) {
    && m.hist != [] && m'.hist != []
    && ((m'.hist == m.hist && m'.author == m.author) || TreeStep(m, m', o))
  }

  /** What becomes of nodes prepared by o: still unlinked, or in the tree. */
  ghost predicate PreparedEvolve(m: Memory, m': Memory) {
    forall a :: a in m.upd && Unlinked(m.ops, a) ==> Unlinked(m'.ops, a) || InTree(m', a)
  }

  /** A deletion record becomes marked only by putting its mark over the word it was published with. */
  predicate MarkFair(m: Memory, m': Memory, o: nat) {
    o in m.ops && o in m'.ops && m.ops[o].DOp? && m.ops[o].phase == Flagged && m'.ops[o].phase == Marked ==>
      m.ops[o].p in m.upd && m.upd[m.ops[o].p] == m.ops[o].pupdate
  }

  ghost predicate Evolves(m: Memory, m': Memory, o: nat) {
    && MarkFair(m, m', o) && OpsEvolve(m, m', o) && WordsEvolve(m, m', o) && CellsEvolve(m, m', o) && HistEvolve(m, m', o)
    && PreparedEvolve(m, m')
  }

  // ----- what every other record keeps

  lemma RouterKept(m: Memory, m': Memory, o: nat, n: Addr)
    requires Tables(m) && Router(m, n) && OpsEvolve(m, m', o) && WordsEvolve(m, m', o) && CellsEvolve(m, m', o)
    ensures Router(m', n)
  {
  }

  lemma LeafKept(m: Memory, m': Memory, o: nat, n: Addr)
    requires Tables(m) && LeafAt(m, n) && OpsEvolve(m, m', o) && CellsEvolve(m, m', o)
    ensures LeafAt(m', n)
  {
  }

  /** A router that o has not marked stays on the paths it is on. */
  lemma PathKept(m: Memory, m': Memory, o: nat, n: Addr, k: int)
    requires HistEvolve(m, m', o) && Router(m, n) && m.upd[n] != Word(o, Mark) && n in Path(Last(m.hist), k)
    ensures n in Path(Last(m'.hist), k)
  {
    PathInIds(Last(m.hist), k);
  }

  /** A flag that belongs to another record pins its node: word, children and place on the path. */
  lemma FlagPins(m: Memory, m': Memory, o: nat, q: nat, n: Addr, k: int, c: Addr)
    requires WordsEvolve(m, m', o) && CellsEvolve(m, m', o) && HistEvolve(m, m', o)
    requires Router(m, n) && m.upd[n].op == q && q != o && (m.upd[n].flag == IFlag || m.upd[n].flag == DFlag)
    ensures n in m'.upd && m'.upd[n] == m.upd[n]
    ensures Leads(m, n, k, c) ==> Leads(m', n, k, c)
  {
    if Leads(m, n, k, c) {
      PathKept(m, m', o, n, k);
    }
  }

  /** A marked node is frozen. */
  lemma MarkPins(m: Memory, m': Memory, o: nat, n: Addr)
    requires WordsEvolve(m, m', o) && CellsEvolve(m, m', o)
    requires Router(m, n) && m.upd[n].flag == Mark
    ensures n in m'.upd && m'.upd[n] == m.upd[n] && n in m'.cells && m'.cells[n] == m.cells[n]
  {
  }

  /** What has left the tree is never pointed to again by a node that does not point to it. */
  lemma GoneStaysGone(m: Memory, m': Memory, o: nat, n: Addr, k: int, a: Addr)
    requires CellsEvolve(m, m', o) && HistEvolve(m, m', o)
    requires n in m.cells && a !in Ids(Last(m.hist)) && !Unlinked(m.ops, a) && m.cells[n].Next(k) != a
    ensures a !in Ids(Last(m'.hist)) && n in m'.cells && m'.cells[n].Next(k) != a
  {
  }

  lemma EffectKept(m: Memory, m': Memory, o: nat, q: nat, op: Op)
    requires CellsEvolve(m, m', o) && HistEvolve(m, m', o) && Effect(m, q, op)
    ensures Effect(m', q, op)
  {
  }

  lemma SameSideKept(h: Heap, h': Heap, p: Addr, c: Addr, k: int)
    requires Grows(h, h') && SameSide(h, p, c, k)
    ensures SameSide(h', p, c, k)
  {
  }

  /** A word that is no longer in the field does not come back. */
  lemma WordGone(m: Memory, m': Memory, o: nat, n: Addr, w: Word)
    requires WordsEvolve(m, m', o) && n in m.upd && n in m.past && w in m.past[n]
    ensures n in m'.upd && n in m'.past && w in m'.past[n]
    ensures m'.upd[n] == w ==> m.upd[n] == w
  {
  }

  /** A clean word that is still there means that the children are still the same. */
  lemma CleanPins(m: Memory, m': Memory, o: nat, n: Addr, w: Word)
    requires WordsEvolve(m, m', o) && CellsEvolve(m, m', o) && n in m.upd && n in m.past && w in m.past[n]
             && w.flag == Clean
    requires n in m.cells
    ensures n in m'.upd && n in m'.cells && (m'.upd[n] == w ==> m.upd[n] == w && m'.cells[n] == m.cells[n])
  {
  }

  /** The three prepared nodes stay as they are until their record links them. */
  lemma ForkKept(m: Memory, m': Memory, o: nat, q: nat, op: Op)
    requires Tables(m) && CellsEvolve(m, m', o) && Live(m)
    requires q in m.ops && m.ops[q] == op && op.IOp? && op.phase == Flagged && op.l in m.cells
             && Rep(m.cells, ForkOf(m, q, op))
    ensures op.l in m'.cells && ForkOf(m', q, op) == ForkOf(m, q, op) && Rep(m'.cells, ForkOf(m', q, op))
  {
    var f := ForkOf(m, q, op);
    assert Ids(f) == {Made(q, 0), Made(q, 1), Made(q, 2)};
    forall a | a in Ids(f) ensures a in m'.cells && (a in m.cells ==> m'.cells[a] == m.cells[a]) {
      RepIds(m.cells, f);
      assert Unlinked(m.ops, a);
    }
    RepFrame(m.cells, m'.cells, f);
  }

  lemma OtherInsertKept(m: Memory, m': Memory, o: nat, q: nat)
    requires Tables(m) && Live(m) && Evolves(m, m', o) && q != o && q in m.ops && m.ops[q].IOp? && IOpOk(m, q, m.ops[q])
    ensures IOpOk(m', q, m.ops[q])
  {
    var op := m.ops[q];
    RouterKept(m, m', o, op.p);
    LeafKept(m, m', o, op.l);
    SameSideKept(m.cells, m'.cells, op.p, op.ni, op.k);
    assert IStatic(m', q, op);
    if op.phase == Flagged {
      FlagPins(m, m', o, q, op.p, op.k, op.l);
      ForkKept(m, m', o, q, op);
    } else {
      GoneStaysGone(m, m', o, op.p, op.k, op.l);
      EffectKept(m, m', o, q, op);
      if op.phase == Linked {
        FlagPins(m, m', o, q, op.p, op.k, op.l);
      }
    }
  }

  lemma OtherDeleteKept(m: Memory, m': Memory, o: nat, q: nat)
    requires Tables(m) && Evolves(m, m', o) && q != o && q in m.ops && m.ops[q].DOp? && DOpOk(m, q, m.ops[q])
    ensures DOpOk(m', q, m.ops[q])
  {
    var op := m.ops[q];
    RouterKept(m, m', o, op.gp);
    RouterKept(m, m', o, op.p);
    LeafKept(m, m', o, op.l);
    CleanPins(m, m', o, op.p, op.pupdate);
    WordGone(m, m', o, op.p, op.pupdate);
    assert DStatic(m', op);
    if op.phase == Flagged || op.phase == Marked || op.phase == Spliced {
      FlagPins(m, m', o, q, op.gp, op.k, op.p);
    }
    if HalfRemoved(op.phase) {
      MarkPins(m, m', o, op.p);
      SameSideKept(m.cells, m'.cells, op.gp, m.cells[op.p].Child(!m.cells[op.p].Side(op.k)), op.k);
      assert DMarked(m', q, op);
    }
    if op.phase == Spliced || op.phase == Finished {
      GoneStaysGone(m, m', o, op.gp, op.k, op.p);
      EffectKept(m, m', o, q, op);
    }
  }

  // ----- putting the invariant together again

  ghost predicate OwnWords(m: Memory, o: nat) {
    forall n :: n in m.upd && m.upd[n].op == o ==> Fits(m.ops, n, m.upd[n])
  }

  ghost predicate NewWords(m: Memory, m': Memory) {
    forall n :: n in m'.upd && n in m'.past && n !in m.upd ==>
      m'.upd[n] == NULL_WORD && m'.past[n] == {NULL_WORD} && Unlinked(m'.ops, n)
  }

  ghost predicate NewEntry(m: Memory, m': Memory, o: nat)
    requires o in m'.ops
  {
    |m'.hist| == |m.hist| || (TookEffect(m'.ops[o]) && m'.ops[o].at == |m.hist|)
  }

  /** What a word in the past of a field says about its record stays true. */
  lemma AppearedStays(m: Memory, m': Memory, o: nat, n: Addr, w: Word)
    requires OpsEvolve(m, m', o) && Appeared(m.ops, n, w)
    ensures Appeared(m'.ops, n, w)
  {
  }

  lemma FitsStays(m: Memory, m': Memory, o: nat, n: Addr, w: Word)
    requires OpsEvolve(m, m', o) && Fits(m.ops, n, w) && w.op != o
    ensures Fits(m'.ops, n, w)
  {
  }

  lemma NullFits(ops: map<nat, Op>, n: Addr)
    ensures Fits(ops, n, NULL_WORD)
  {
  }

  lemma FitsAppeared(ops: map<nat, Op>, n: Addr, w: Word)
    requires Fits(ops, n, w)
    ensures Appeared(ops, n, w)
  {
  }

  lemma WordsAgain(m: Memory, m': Memory, o: nat)
    requires Tables(m) && WordsOk(m) && OpsEvolve(m, m', o) && WordsEvolve(m, m', o) && OwnWords(m', o) && NewWords(m, m')
    requires Tables(m')
    ensures WordsOk(m')
  {
    assert m.upd.Keys == m.past.Keys && m'.upd.Keys == m'.past.Keys;
    hide Fits, Appeared, OpsEvolve, Tables;
    forall n | n in m'.upd && n in m'.past ensures m'.upd[n] in m'.past[n] && Fits(m'.ops, n, m'.upd[n]) {
      if n !in m.upd {
        NullFits(m'.ops, n);
      } else if m'.upd[n].op != o {
        FitsStays(m, m', o, n, m.upd[n]);
      }
    }
    forall n, w | n in m'.past && w in m'.past[n] ensures Appeared(m'.ops, n, w) {
      if n in m.past && w in m.past[n] {
        AppearedStays(m, m', o, n, w);
      } else {
        assert Fits(m'.ops, n, m'.upd[n]) && w == m'.upd[n];
        FitsAppeared(m'.ops, n, w);
      }
    }
  }

  lemma UnlinkedAgain(m: Memory, m': Memory, o: nat, n: Addr)
    requires TreeInv(m) && Tables(m) && Live(m) && Evolves(m, m', o) && NewWords(m, m') && Tables(m') && Unlinked(m'.ops, n)
    ensures FreshFor(m'.hist, n) && (n in m'.upd ==> m'.upd[n] == NULL_WORD)
  {
    if o !in m.ops && n.maker == o {
      UnallocatedIsFresh(m.cells, m.hist, KEY_MIN, INF2 + 1, n);
    } else {
      assert Unlinked(m.ops, n);
    }
  }

  lemma LiveAgain(m: Memory, m': Memory, o: nat)
    requires TreeInv(m) && Tables(m) && Live(m) && Evolves(m, m', o) && NewWords(m, m') && Tables(m')
    ensures Live(m')
  {
    forall n | Unlinked(m'.ops, n) ensures FreshFor(m'.hist, n) && (n in m'.upd ==> m'.upd[n] == NULL_WORD) {
      UnlinkedAgain(m, m', o, n);
    }
    hide FreshFor, TreeInv;
    forall n | n in m'.upd ensures InTree(m', n) || m'.upd[n].flag == Mark || Unlinked(m'.ops, n) {
      if n in m.upd && InTree(m, n) && !InTree(m', n) {
        assert m.upd[n] == Word(o, Mark);
      }
    }
  }

  lemma OpsAgain(m: Memory, m': Memory, o: nat)
    requires Tables(m) && Live(m) && OpsOk(m) && Evolves(m, m', o) && o in m'.ops && OpOk(m', o, m'.ops[o])
    ensures OpsOk(m')
  {
    forall q | q in m'.ops ensures OpOk(m', q, m'.ops[q]) {
      if q != o {
        assert OpOk(m, q, m.ops[q]) && m'.ops[q] == m.ops[q];
        hide Tables, Live, OpsOk, IOpOk, DOpOk, WordsEvolve, CellsEvolve, HistEvolve;
        if m.ops[q].IOp? {
          OtherInsertKept(m, m', o, q);
        } else {
          OtherDeleteKept(m, m', o, q);
        }
      }
    }
  }

  lemma AuthorsAgain(m: Memory, m': Memory, o: nat)
    requires AuthorsOk(m) && OpsEvolve(m, m', o) && HistEvolve(m, m', o) && o in m'.ops && NewEntry(m, m', o)
    ensures AuthorsOk(m')
  {
  }

  lemma Assemble(m: Memory, m': Memory, o: nat)
    requires MemInv(m) && Evolves(m, m', o) && o in m'.ops
    requires TreeInv(m') && Tables(m') && OwnWords(m', o) && NewWords(m, m') && NewEntry(m, m', o)
    requires OpOk(m', o, m'.ops[o])
    ensures MemInv(m')
  {
    hide TreeInv, Tables, WordsOk, Live, OpsOk, AuthorsOk, OpOk, OwnWords, NewWords, NewEntry;
    assert OpsEvolve(m, m', o) && WordsEvolve(m, m', o) && CellsEvolve(m, m', o) && HistEvolve(m, m', o);
    hide Evolves, OpsEvolve, WordsEvolve, CellsEvolve, HistEvolve;
    WordsAgain(m, m', o);
    LiveAgain(m, m', o);
    OpsAgain(m, m', o);
    AuthorsAgain(m, m', o);
  }

  // ----- the steps that change an update field of an existing record

  lemma SameTree(m: Memory, m': Memory)
    requires TreeInv(m) && m'.cells == m.cells && m'.hist == m.hist
    ensures TreeInv(m')
  {
  }

  lemma WordStepEvolves(m: Memory, n: Addr, w: Word, o: nat, phase: Phase)
    requires Tables(m) && m.hist != [] && o in m.ops && Router(m, n)
    requires w.op == o && w !in m.past[n] && m.upd[n].flag != Mark && (m.upd[n].op == o || m.upd[n].flag == Clean)
    requires PhaseStep(m.ops[o], m.ops[o].(phase := phase)) && (m.ops[o].IOp? ==> m.ops[o].phase == Linked)
    requires phase == Marked ==> CanMark(m, o)
    ensures var m' := WordStep(m, n, w, o, phase);
            Evolves(m, m', o) && Tables(m') && NewWords(m, m') && NewEntry(m, m', o)
  {
    var m' := WordStep(m, n, w, o, phase);
    WordStepShape(m, n, w, o, phase);
    hide OpsEvolve, WordsEvolve, Tables;
  }

  lemma WordStepShape(m: Memory, n: Addr, w: Word, o: nat, phase: Phase)
    requires Tables(m) && m.hist != [] && o in m.ops && Router(m, n)
    requires w.op == o && w !in m.past[n] && m.upd[n].flag != Mark && (m.upd[n].op == o || m.upd[n].flag == Clean)
    requires PhaseStep(m.ops[o], m.ops[o].(phase := phase)) && (m.ops[o].IOp? ==> m.ops[o].phase == Linked)
    ensures var m' := WordStep(m, n, w, o, phase);
            && OpsEvolve(m, m', o) && WordsEvolve(m, m', o) && Tables(m')
            && m'.upd.Keys == m.upd.Keys && m'.past.Keys == m.past.Keys && m.upd.Keys == m.past.Keys
  {
    WordStepTables(m, n, w, o, phase);
    hide Tables;
  }

  lemma WordStepTables(m: Memory, n: Addr, w: Word, o: nat, phase: Phase)
    requires Tables(m) && m.hist != [] && o in m.ops && Router(m, n)
    requires PhaseStep(m.ops[o], m.ops[o].(phase := phase)) && (m.ops[o].IOp? ==> m.ops[o].phase == Linked)
    ensures var m' := WordStep(m, n, w, o, phase);
            Tables(m') && m'.upd.Keys == m.upd.Keys && m'.past.Keys == m.past.Keys && m.upd.Keys == m.past.Keys
  {
  }

  predicate SettleStep(a: Op, b: Op) {
    || (a.phase == Linked && b == a.(phase := Finished) && a.IOp?)
    || (a.phase == Spliced && b == a.(phase := Finished) && a.DOp?)
    || (a.phase == Flagged && b == a.(phase := Aborted) && a.DOp?)
  }

  /** A record that is about to be settled still has its flag on its node, and its clean word is new there. */
  lemma SettleFlag(m: Memory, o: nat, op: Op)
    requires WordsOk(m) && Tables(m) && o in m.ops && m.ops[o] == op && OpOk(m, o, op)
    requires op.phase == Linked || op.phase == Spliced || (op.phase == Flagged && op.DOp?)
    ensures var n := if op.IOp? then op.p else op.gp;
            && Router(m, n) && m.upd[n] == Word(o, if op.IOp? then IFlag else DFlag)
            && Word(o, Clean) !in m.past[n]
  {
    var n := if op.IOp? then op.p else op.gp;
    assert Router(m, n);
    assert !Appeared(m.ops, n, Word(o, Clean));
  }

  lemma SettleWords(m: Memory, o: nat, n: Addr, phase: Phase)
    requires WordsOk(m) && Tables(m) && o in m.ops && Router(m, n) && n == (if m.ops[o].IOp? then m.ops[o].p else m.ops[o].gp)
    requires SettleStep(m.ops[o], m.ops[o].(phase := phase))
    ensures OwnWords(WordStep(m, n, Word(o, Clean), o, phase), o)
  {
    var m' := WordStep(m, n, Word(o, Clean), o, phase);
    forall x | x in m'.upd && m'.upd[x].op == o ensures Fits(m'.ops, x, m'.upd[x]) {
      if x != n {
        assert Fits(m.ops, x, m.upd[x]);
      }
    }
  }

  lemma SettleOp(m: Memory, o: nat, n: Addr, phase: Phase)
    requires WordsOk(m) && Tables(m) && o in m.ops && OpOk(m, o, m.ops[o]) && Router(m, n)
    requires n == (if m.ops[o].IOp? then m.ops[o].p else m.ops[o].gp) && Word(o, Clean) !in m.past[n]
    requires SettleStep(m.ops[o], m.ops[o].(phase := phase))
    requires phase == Aborted ==> m.ops[o].DOp? && m.ops[o].p in m.upd && m.upd[m.ops[o].p] != m.ops[o].pupdate
    ensures var m' := WordStep(m, n, Word(o, Clean), o, phase); OpOk(m', o, m'.ops[o])
  {
    var op := m.ops[o];
    var m' := WordStep(m, n, Word(o, Clean), o, phase);
    var op' := m'.ops[o];
    assert m'.cells == m.cells && m'.hist == m.hist && m'.author == m.author;
    if op.IOp? {
      assert IStatic(m', o, op') && IDone(m', o, op');
      assert Effect(m', o, op');
    } else {
      assert DStatic(m', op');
      if phase == Finished {
        assert Effect(m', o, op');
        assert DMarked(m', o, op');
      }
    }
  }

  /** The last compare-and-swap of a record: its node's flag gives way to a clean word. */
  lemma SettleKeeps(m: Memory, o: nat, phase: Phase)
    requires MemInv(m) && o in m.ops && SettleStep(m.ops[o], m.ops[o].(phase := phase))
    requires phase == Aborted ==> m.ops[o].DOp? && m.ops[o].p in m.upd && m.upd[m.ops[o].p] != m.ops[o].pupdate
    ensures var n := if m.ops[o].IOp? then m.ops[o].p else m.ops[o].gp;
            && n in m.upd && m.upd[n] == Word(o, if m.ops[o].IOp? then IFlag else DFlag) && n in m.past
            && var m' := WordStep(m, n, Word(o, Clean), o, phase); Evolves(m, m', o) && MemInv(m')
  {
    var op := m.ops[o];
    var n := if op.IOp? then op.p else op.gp;
    assert Tables(m) && WordsOk(m) && TreeInv(m) && m.hist != [] && OpOk(m, o, op);
    assert op.phase == Flagged ==> phase == Aborted;
    hide MemInv, Evolves, TreeInv, Tables, WordsOk, OpOk, OwnWords, NewWords, NewEntry;
    SettleFlag(m, o, op);
    var m' := WordStep(m, n, Word(o, Clean), o, phase);
    WordStepEvolves(m, n, Word(o, Clean), o, phase);
    SettleWords(m, o, n, phase);
    SettleOp(m, o, n, phase);
    SameTree(m, m');
    Assemble(m, m', o);
  }

  // ----- marking

  ghost predicate CanMark(m: Memory, o: nat) {
    && o in m.ops && m.ops[o].DOp? && m.ops[o].phase == Flagged
    && m.ops[o].p in m.upd && m.upd[m.ops[o].p] == m.ops[o].pupdate
  }

  lemma MarkOp(m: Memory, o: nat)
    requires TreeInv(m) && Tables(m) && CanMark(m, o) && DOpOk(m, o, m.ops[o])
    ensures var m' := WordStep(m, m.ops[o].p, Word(o, Mark), o, Marked); DOpOk(m', o, m'.ops[o])
  {
    var op := m.ops[o];
    var m' := WordStep(m, op.p, Word(o, Mark), o, Marked);
    var op' := m'.ops[o];
    var h, t := m.cells, Last(m.hist);
    assert Router(m, op.p) && Router(m, op.gp) && m'.cells == m.cells && m'.hist == m.hist;
    assert DFlagged(m, o, op);
    assert m.cells[op.p].Next(op.k) == op.l;
    PathStep(h, t, op.k, op.gp);
    PathInIds(t, op.k);
    ChildrenDiffer(h, t, op.p);
    KeysOnSide(h, t, KEY_MIN, INF2 + 1, op.k, op.gp);
    var other := h[op.p].Child(!h[op.p].Side(op.k));
    assert other != op.l;
    assert SameSide(h, op.gp, other, op.k);
    hide HistOk, Effect;
    assert DStatic(m', op');
    assert op.gp != op.p;
    assert DMarked(m', o, op');
    assert DFlagged(m', o, op');
  }

  lemma MarkWords(m: Memory, o: nat)
    requires WordsOk(m) && Tables(m) && CanMark(m, o) && DStatic(m, m.ops[o])
    ensures OwnWords(WordStep(m, m.ops[o].p, Word(o, Mark), o, Marked), o)
    ensures Word(o, Mark) !in m.past[m.ops[o].p]
  {
    var p := m.ops[o].p;
    var m' := WordStep(m, p, Word(o, Mark), o, Marked);
    assert !Appeared(m.ops, p, Word(o, Mark));
    forall x | x in m'.upd && m'.upd[x].op == o ensures Fits(m'.ops, x, m'.upd[x]) {
      if x != p {
        assert Fits(m.ops, x, m.upd[x]);
      }
    }
  }

  lemma MarkKeeps(m: Memory, o: nat)
    requires MemInv(m) && CanMark(m, o)
    ensures m.ops[o].p in m.past
    ensures var m' := WordStep(m, m.ops[o].p, Word(o, Mark), o, Marked); Evolves(m, m', o) && MemInv(m')
  {
    var op := m.ops[o];
    assert Tables(m) && WordsOk(m) && TreeInv(m) && m.hist != [] && OpOk(m, o, op);
    assert DOpOk(m, o, op);
    assert DStatic(m, op) && Router(m, op.p) && op.pupdate.flag == Clean;
    hide MemInv, Evolves, TreeInv, Tables, WordsOk, DOpOk, OwnWords, NewWords, NewEntry;
    var m' := WordStep(m, op.p, Word(o, Mark), o, Marked);
    MarkWords(m, o);
    WordStepEvolves(m, op.p, Word(o, Mark), o, Marked);
    MarkOp(m, o);
    SameTree(m, m');
    assert OpOk(m', o, m'.ops[o]);
    hide OpOk;
    Assemble(m, m', o);
  }

  // ----- the child write of an insertion

  ghost predicate CanLink(m: Memory, o: nat) {
    && o in m.ops && m.ops[o].IOp? && m.ops[o].phase == Flagged && IOpOk(m, o, m.ops[o])
    && m.ops[o].ni in m.cells
  }

  /** Where the record's leaf is in the tree, and that its fork is ready to take the leaf's place. */
  lemma LinkPlace(m: Memory, o: nat)
    requires TreeInv(m) && Tables(m) && Live(m) && CanLink(m, o)
    ensures var op, t := m.ops[o], Last(m.hist);
            && Parent(t, op.k) == op.p && op.p != op.l && End(t, op.k) == Leaf(op.l, m.cells[op.l].key, m.cells[op.l].val)
            && (forall a :: a in Ids(ForkOf(m, o, op)) ==> a in m.cells && a != op.p && a != op.l && Unlinked(m.ops, a) && FreshFor(m.hist, a))
  {
    var op, t := m.ops[o], Last(m.hist);
    LastRouter(m.cells, t, op.k, op.p);
    PathStep(m.cells, t, op.k, op.p);
    PathStep(m.cells, t, op.k, op.l);
    var f := ForkOf(m, o, op);
    assert Ids(f) == {Made(o, 0), Made(o, 1), Made(o, 2)};
    RepIds(m.cells, f);
    forall a | a in Ids(f) ensures a in m.cells && a != op.p && a != op.l && Unlinked(m.ops, a) && FreshFor(m.hist, a) {
    }
  }

  lemma LinkCells(m: Memory, o: nat)
    requires Tables(m) && m.hist != [] && CanLink(m, o)
    requires m.ops[o].p !in Ids(ForkOf(m, o, m.ops[o]))
    ensures var op, m', f := m.ops[o], LinkMemory(m, o), ForkOf(m, o, m.ops[o]);
            && m'.cells == m.cells[op.p := m.cells[op.p].SetChild(m.cells[op.p].Side(op.k), op.ni)]
            && OneWrite(m.cells, m'.cells, op.p)
            && f.id == op.ni && Rep(m'.cells, f) && Distinct(f)
  {
    var op, m', f := m.ops[o], LinkMemory(m, o), ForkOf(m, o, m.ops[o]);
    var side := m.cells[op.p].Side(op.k);
    assert m'.cells == m.cells[op.p := m.cells[op.p].SetChild(side, op.ni)];
    ChildWrite(m.cells, op.p, side, op.ni);
    RepIds(m.cells, f);
    RepFrame(m.cells, m'.cells, f);
  }

  /** The tree after the write is the tree before it with exactly one binding more. */
  lemma LinkTree(m: Memory, o: nat)
    requires TreeInv(m) && Tables(m) && Live(m) && CanLink(m, o)
    ensures var m' := LinkMemory(m, o);
            && TreeInv(m') && PathsKept(m.cells, Last(m.hist), Last(m'.hist))
            && Ids(Last(m'.hist)) == Ids(Last(m.hist)) - {m.ops[o].l} + Ids(ForkOf(m, o, m.ops[o]))
            && m.ops[o].k !in Contents(Last(m.hist))
            && Contents(Last(m'.hist)) == Contents(Last(m.hist))[m.ops[o].k := m.ops[o].v]
  {
    var op, t, m' := m.ops[o], Last(m.hist), LinkMemory(m, o);
    LinkPlace(m, o);
    assert t.Node? && op.p in m.cells && op.l in m.cells && m.cells[op.l].key != op.k && KEY_MIN <= op.k < INF2 + 1
           && Ordered(t, KEY_MIN, INF2 + 1);
    hide TreeInv, Live, Tables, HistOk, Rep, Ordered, Distinct, OneWrite;
    LinkCells(m, o);
    hide CanLink, IOpOk;
    var f := ForkOf(m, o, op);
    var u := Graft(t, op.k, f);
    assert m'.hist == m.hist + [u];
    GraftContents(t, KEY_MIN, INF2 + 1, op.k, op.v, Made(o, 0), Made(o, 1), Made(o, 2));
    GraftRoot(t, op.k, f);
    GraftKeepsHistory(m.cells, m'.cells, m.hist, op.k, f, KEY_MIN, INF2 + 1);
    RootAgain(m, m', op.k, op.v);
  }

  /** The sentinels stay where they are. */
  lemma RootAgain(m: Memory, m': Memory, k: int, v: int)
    requires TreeInv(m) && HistOk(m'.cells, m'.hist, KEY_MIN, INF2 + 1) && k < INF1
    requires var t, u := Last(m.hist), Last(m'.hist);
             && u.Node? && u.id == t.id && u.key == t.key
             && (Contents(u) == Contents(t)[k := v] || Contents(u) == Contents(t) - {k})
    ensures TreeInv(m')
  {
    hide HistOk;
  }

  /** A child write under record o's flag. */
  lemma WriteEvolves(m: Memory, m': Memory, o: nat, p: Addr, side: bool, c: Addr)
    requires Tables(m) && Router(m, p) && m.hist != [] && NewChild(m, c) && o in m.ops
    requires m.upd[p].op == o && (m.upd[p].flag == IFlag || m.upd[p].flag == DFlag)
    requires m'.cells == m.cells[p := m.cells[p].SetChild(side, c)] && m'.upd == m.upd && m'.past == m.past
             && m'.serial == m.serial
    requires exists op' :: m'.ops == m.ops[o := op'] && PhaseStep(m.ops[o], op')
    ensures OpsEvolve(m, m', o) && WordsEvolve(m, m', o) && CellsEvolve(m, m', o) && Tables(m') && NewWords(m, m')
  {
    WriteTables(m, m', o, p, side, c);
    WriteCells(m, m', o, p, side, c);
    hide Tables, CellsEvolve;
    assert OpsEvolve(m, m', o);
  }

  lemma WriteCells(m: Memory, m': Memory, o: nat, p: Addr, side: bool, c: Addr)
    requires Tables(m) && Router(m, p) && m.hist != [] && NewChild(m, c) && o in m.ops
    requires m.upd[p].op == o && (m.upd[p].flag == IFlag || m.upd[p].flag == DFlag)
    requires m'.cells == m.cells[p := m.cells[p].SetChild(side, c)] && m'.upd == m.upd && m'.past == m.past
             && m'.serial == m.serial
    requires exists op' :: m'.ops == m.ops[o := op'] && PhaseStep(m.ops[o], op')
    ensures CellsEvolve(m, m', o)
  {
  }

  lemma WriteTables(m: Memory, m': Memory, o: nat, p: Addr, side: bool, c: Addr)
    requires Tables(m) && Router(m, p) && m.hist != [] && NewChild(m, c) && o in m.ops
    requires m'.cells == m.cells[p := m.cells[p].SetChild(side, c)] && m'.upd == m.upd && m'.past == m.past
             && m'.serial == m.serial
    requires exists op' :: m'.ops == m.ops[o := op'] && PhaseStep(m.ops[o], op')
    ensures Tables(m') && m.upd.Keys == m.past.Keys && m.ops.Keys == m'.ops.Keys && m.cells.Keys == m'.cells.Keys
  {
  }

  lemma TreeStepAgain(m: Memory, m': Memory, o: nat)
    requires Live(m) && OpsEvolve(m, m', o) && o in m.ops && !Unlinked(m'.ops, Made(o, 0))
    requires m.hist != [] && m'.hist != [] && m'.hist == m.hist + [Last(m'.hist)] && m'.author == m.author + [o]
    requires PathsKept(m.cells, Last(m.hist), Last(m'.hist))
    requires forall a :: a in Ids(Last(m'.hist)) ==> a in Ids(Last(m.hist)) || (Unlinked(m.ops, a) && a.maker == o)
    requires forall a :: a in Ids(Last(m.hist)) && a in m.upd && a !in Ids(Last(m'.hist)) ==> m.upd[a] == Word(o, Mark)
    ensures HistEvolve(m, m', o)
  {
    hide PathsKept;
    forall a | a in Ids(Last(m.hist)) ensures !Unlinked(m.ops, a) {
      assert m.hist[|m.hist| - 1] == Last(m.hist);
    }
    assert TreeStep(m, m', o);
  }

  /** The fork is made of the record's three nodes, which were in no tree before. */
  lemma ForkIds(m: Memory, o: nat)
    requires TreeInv(m) && Tables(m) && Live(m) && CanLink(m, o)
    ensures var op := m.ops[o];
            && op.l !in m.upd && op.l in m.cells && Ids(ForkOf(m, o, op)) == {Made(o, 0), Made(o, 1), Made(o, 2)}
            && (forall a :: a in Ids(ForkOf(m, o, op)) ==> Unlinked(m.ops, a) && a.Made? && a.maker == o)
  {
    var op := m.ops[o];
    assert op.l !in m.upd && op.l in m.cells;
    assert Unlinked(m.ops, Made(o, 0)) && Unlinked(m.ops, Made(o, 1)) && Unlinked(m.ops, Made(o, 2));
    hide TreeInv, Tables, Live;
    assert Ids(ForkOf(m, o, op)) == {Made(o, 0), Made(o, 1), Made(o, 2)};
  }

  /** The tree gains the record's three nodes and loses only its leaf. */
  lemma LinkIds(m: Memory, o: nat)
    requires TreeInv(m) && Tables(m) && Live(m) && CanLink(m, o)
    ensures var t, u := Last(m.hist), Last(LinkMemory(m, o).hist);
            && PathsKept(m.cells, t, u) && Made(o, 0) in Ids(u)
            && (forall a :: a in Ids(u) ==> a in Ids(t) || (Unlinked(m.ops, a) && a.maker == o))
            && (forall a :: a in Ids(t) && a in m.upd ==> a in Ids(u))
  {
    LinkTree(m, o);
    ForkIds(m, o);
    assert o in m.ops && m.hist != [] && LinkMemory(m, o).hist != [];
    hide TreeInv, Tables, Live, CanLink, Unlinked, LinkMemory, ForkOf;
  }

  lemma PreparedAgain(m: Memory, m': Memory, o: nat)
    requires Tables(m) && OpsEvolve(m, m', o) && InTree(m', Made(o, 0))
    ensures PreparedEvolve(m, m')
  {
  }

  lemma LinkEvolves(m: Memory, o: nat)
    requires TreeInv(m) && Tables(m) && Live(m) && CanLink(m, o) && |m.author| == |m.hist|
    ensures var m' := LinkMemory(m, o); Evolves(m, m', o) && Tables(m') && NewWords(m, m') && NewEntry(m, m', o)
  {
    var op, m' := m.ops[o], LinkMemory(m, o);
    var p, side := op.p, m.cells[op.p].Side(op.k);
    assert Unlinked(m.ops, op.ni) && op.ni == Made(o, 0) && Router(m, p) && m.upd[p] == Word(o, IFlag);
    assert m'.cells == m.cells[p := m.cells[p].SetChild(side, op.ni)];
    assert m'.ops == m.ops[o := m'.ops[o]] && PhaseStep(op, m'.ops[o]);
    hide TreeInv, CanLink, IOpOk, Live, Router;
    LinkIds(m, o);
    WriteEvolves(m, m', o, p, side, op.ni);
    assert NewEntry(m, m', o) && InTree(m', Made(o, 0)) && !Unlinked(m'.ops, Made(o, 0));
    hide CellsEvolve, WordsEvolve, OpsEvolve, Tables, NewWords, PathsKept, NewEntry, InTree, PreparedEvolve, HistEvolve;
    PreparedAgain(m, m', o);
    TreeStepAgain(m, m', o);
  }

  lemma LinkStatic(m: Memory, o: nat)
    requires Tables(m) && CanLink(m, o) && m.hist != [] && m.ops[o].p !in Ids(ForkOf(m, o, m.ops[o]))
    ensures var m' := LinkMemory(m, o);
            && IStatic(m', o, m'.ops[o]) && m.ops[o].l !in Ids(ForkOf(m, o, m.ops[o]))
            && m'.upd[m.ops[o].p] == Word(o, IFlag) && m'.cells[m.ops[o].p].Next(m.ops[o].k) != m.ops[o].l
  {
    LinkCells(m, o);
    hide Rep, OneWrite;
    assert m.ops[o].l !in Ids(ForkOf(m, o, m.ops[o]));
  }

  lemma LinkOp(m: Memory, o: nat)
    requires TreeInv(m) && Tables(m) && Live(m) && CanLink(m, o) && |m.author| == |m.hist|
    ensures var m' := LinkMemory(m, o); OpOk(m', o, m'.ops[o])
  {
    var m' := LinkMemory(m, o);
    hide IStatic, CanLink, TreeInv, Live, Tables, PathsKept, Effect, ForkOf;
    LinkPlace(m, o);
    LinkStatic(m, o);
    LinkTree(m, o);
    NewEffect(m, m', o);
    assert IDone(m', o, m'.ops[o]);
  }

  /** The record whose write made the newest entry of the history. */
  lemma NewEffect(m: Memory, m': Memory, o: nat)
    requires m.hist != [] && m'.hist != [] && m'.hist == m.hist + [Last(m'.hist)] && m'.author == m.author + [o]
             && |m.author| == |m.hist|
    requires o in m'.ops && m'.ops[o].at == |m.hist|
    requires var before, after := Contents(Last(m.hist)), Contents(Last(m'.hist));
             match m'.ops[o]
             case IOp(_, _, _, k, v, _, _, _) => k !in before && after == before[k := v]
             case DOp(_, _, l, _, k, _, _, _) =>
               k in before && l in m'.cells && before[k] == m'.cells[l].val && after == before - {k}
    ensures Effect(m', o, m'.ops[o])
  {
  }

  lemma LinkWords(m: Memory, o: nat)
    requires WordsOk(m) && Tables(m) && CanLink(m, o) && m.hist != []
    ensures OwnWords(LinkMemory(m, o), o)
  {
    var m' := LinkMemory(m, o);
    hide IOpOk;
    forall x | x in m'.upd && m'.upd[x].op == o ensures Fits(m'.ops, x, m'.upd[x]) {
      assert Fits(m.ops, x, m.upd[x]);
    }
  }

  lemma LinkKeeps(m: Memory, o: nat)
    requires MemInv(m) && CanLink(m, o)
    ensures var m' := LinkMemory(m, o); Evolves(m, m', o) && MemInv(m')
  {
    var m' := LinkMemory(m, o);
    assert Tables(m) && WordsOk(m) && Live(m) && TreeInv(m) && m.hist != [] && |m.author| == |m.hist|;
    hide MemInv, Evolves, TreeInv, Tables, WordsOk, Live, OpOk, OwnWords, NewWords, NewEntry, CanLink, PathsKept;
    LinkTree(m, o);
    LinkEvolves(m, o);
    LinkOp(m, o);
    LinkWords(m, o);
    Assemble(m, m', o);
  }

  // ----- the child write of a deletion

  /** other is the child of p that bst_help_marked saves. */
  predicate IsOther(m: Memory, op: Op, other: Addr) {
    op.DOp? && op.p in m.cells && other == m.cells[op.p].Child(!m.cells[op.p].Side(op.k))
  }

  ghost predicate CanSplice(m: Memory, o: nat, other: Addr) {
    && o in m.ops && m.ops[o].DOp? && m.ops[o].phase == Marked && DOpOk(m, o, m.ops[o])
    && IsOther(m, m.ops[o], other)
  }

  lemma SplicePlace(m: Memory, o: nat, other: Addr)
    requires TreeInv(m) && CanSplice(m, o, other)
    ensures var op, t := m.ops[o], Last(m.hist);
            && t.Node? && Toward(t, op.k).Node?
            && GrandParent(t, op.k) == op.gp && Parent(t, op.k) == op.p && Sibling(t, op.k).id == other
            && End(t, op.k) == Leaf(op.l, op.k, m.cells[op.l].val)
            && op.gp != op.p && op.gp != op.l && op.gp in Ids(t)
            && other in Ids(t)
  {
    var op, t, h := m.ops[o], Last(m.hist), m.cells;
    assert DFlagged(m, o, op) && DMarked(m, o, op) && LeafAt(m, op.l) && Router(m, op.p) && Router(m, op.gp);
    hide DOpOk, CanSplice;
    PathStep(h, t, op.k, op.gp);
    PathStep(h, t, op.k, op.p);
    PathStep(h, t, op.k, op.l);
    PathInIds(t, op.k);
    LastRouter(h, t, op.k, op.p);
    RouterAbove(h, t, op.k, op.gp);
  }

  lemma SpliceCells(m: Memory, o: nat, other: Addr)
    requires CanSplice(m, o, other) && m.hist != []
    ensures var op := m.ops[o];
            && other in m.cells && op.gp in m.cells
            && var m' := SpliceMemory(m, o, other);
            && m'.cells == m.cells[op.gp := m.cells[op.gp].SetChild(m.cells[op.gp].Side(op.k), other)]
            && OneWrite(m.cells, m'.cells, op.gp)
  {
    var op := m.ops[o];
    assert DMarked(m, o, op);
    ChildWrite(m.cells, op.gp, m.cells[op.gp].Side(op.k), other);
  }

  /** The tree after the write is the tree before it with exactly one binding less. */
  lemma SpliceTree(m: Memory, o: nat, other: Addr)
    requires TreeInv(m) && CanSplice(m, o, other)
    ensures other in m.cells && m.ops[o].gp in m.cells
    ensures var m' := SpliceMemory(m, o, other);
            && TreeInv(m') && PathsKept(m.cells, Last(m.hist), Last(m'.hist))
            && Ids(Last(m'.hist)) == Ids(Last(m.hist)) - {m.ops[o].p, m.ops[o].l}
            && Lookup(Contents(Last(m.hist)), m.ops[o].k) == Some(m.cells[m.ops[o].l].val)
            && Contents(Last(m'.hist)) == Contents(Last(m.hist)) - {m.ops[o].k}
  {
    var op, t := m.ops[o], Last(m.hist);
    SplicePlace(m, o, other);
    assert Ordered(t, KEY_MIN, INF2 + 1) && op.k < INF1;
    hide TreeInv, HistOk, Rep, Ordered, Distinct, OneWrite;
    SpliceCells(m, o, other);
    hide CanSplice;
    var m' := SpliceMemory(m, o, other);
    var u := Splice(t, op.k);
    assert m'.hist == m.hist + [u];
    SearchCorrect(t, KEY_MIN, INF2 + 1, op.k);
    SpliceContents(t, KEY_MIN, INF2 + 1, op.k);
    SpliceKeepsHistory(m.cells, m'.cells, m.hist, op.k, KEY_MIN, INF2 + 1);
    RootAgain(m, m', op.k, 0);
  }

  /** The tree loses only the record's leaf and its marked router. */
  lemma SpliceIds(m: Memory, o: nat, other: Addr)
    requires TreeInv(m) && Tables(m) && CanSplice(m, o, other)
    ensures other in m.cells && m.ops[o].gp in m.cells
    ensures var t, u := Last(m.hist), Last(SpliceMemory(m, o, other).hist);
            && other in Ids(t) && other != m.ops[o].p && m.ops[o].p !in Ids(u) && m.ops[o].gp != m.ops[o].p
            && Ids(u) <= Ids(t)
            && (forall a :: a in Ids(t) && a in m.upd && a !in Ids(u) ==> m.upd[a] == Word(o, Mark))
  {
    var op := m.ops[o];
    assert m.upd[op.p] == Word(o, Mark) && op.l in m.cells && op.l !in m.upd by { assert DMarked(m, o, op)
           && LeafAt(m, op.l); }
    hide DOpOk, OneWrite, PathsKept;
    SplicePlace(m, o, other);
    SiblingNotParent(Last(m.hist), op.k);
    hide HistOk;
    SpliceTree(m, o, other);
  }

  lemma SpliceRecord(m: Memory, o: nat, other: Addr)
    requires o in m.ops && m.ops[o].DOp? && m.ops[o].phase == Marked && m.ops[o].gp in m.cells && other in m.cells
             && m.hist != []
    ensures var m' := SpliceMemory(m, o, other);
            && m'.ops == m.ops[o := m'.ops[o]] && PhaseStep(m.ops[o], m'.ops[o])
            && !Unlinked(m'.ops, Made(o, 0)) && PreparedEvolve(m, m')
  {
  }

  lemma SpliceEvolves(m: Memory, o: nat, other: Addr)
    requires TreeInv(m) && Tables(m) && Live(m) && CanSplice(m, o, other) && |m.author| == |m.hist|
    ensures other in m.cells && m.ops[o].gp in m.cells
    ensures var m' := SpliceMemory(m, o, other); Evolves(m, m', o) && Tables(m') && NewWords(m, m') && NewEntry(m, m', o)
  {
    var op := m.ops[o];
    SpliceCells(m, o, other);
    var m' := SpliceMemory(m, o, other);
    var side := m.cells[op.gp].Side(op.k);
    assert Router(m, op.gp) && m.upd[op.gp] == Word(o, DFlag);
    hide TreeInv, CanSplice, DOpOk, Live, Router, OneWrite, Splice, PathsKept;
    SpliceRecord(m, o, other);
    SpliceTree(m, o, other);
    SpliceIds(m, o, other);
    WriteEvolves(m, m', o, op.gp, side, other);
    assert NewEntry(m, m', o);
    hide CellsEvolve, WordsEvolve, Tables, NewWords, NewEntry, HistEvolve, PreparedEvolve;
    TreeStepAgain(m, m', o);
  }

  lemma SpliceStatic(m: Memory, o: nat, other: Addr)
    requires Tables(m) && CanSplice(m, o, other) && m.hist != [] && other != m.ops[o].p && m.ops[o].gp != m.ops[o].p
    ensures other in m.cells && m.ops[o].gp in m.cells
    ensures var op, m' := m.ops[o], SpliceMemory(m, o, other);
            && DStatic(m', m'.ops[o]) && DMarked(m', o, m'.ops[o]) && m'.upd[op.gp] == Word(o, DFlag)
            && m'.cells[op.gp].Next(op.k) != op.p
  {
    SpliceCells(m, o, other);
    hide OneWrite;
    var op, m' := m.ops[o], SpliceMemory(m, o, other);
    assert DMarked(m, o, op);
    assert DStatic(m', m'.ops[o]);
  }

  lemma SpliceOp(m: Memory, o: nat, other: Addr)
    requires TreeInv(m) && Tables(m) && CanSplice(m, o, other) && |m.author| == |m.hist|
    ensures other in m.cells && m.ops[o].gp in m.cells
    ensures var m' := SpliceMemory(m, o, other); OpOk(m', o, m'.ops[o])
  {
    assert o in m.ops && m.ops[o].DOp? && m.ops[o].l in m.cells && m.hist != [];
    hide DStatic, DMarked, CanSplice, TreeInv, Tables, PathsKept, Effect;
    SpliceIds(m, o, other);
    SpliceStatic(m, o, other);
    SpliceTree(m, o, other);
    var op, m' := m.ops[o], SpliceMemory(m, o, other);
    assert DDone(m', o, m'.ops[o]);
    NewEffect(m, m', o);
  }

  lemma SpliceWords(m: Memory, o: nat, other: Addr)
    requires WordsOk(m) && Tables(m) && CanSplice(m, o, other) && m.hist != [] && other in m.cells
    ensures OwnWords(SpliceMemory(m, o, other), o)
  {
    var m' := SpliceMemory(m, o, other);
    hide DOpOk;
    forall x | x in m'.upd && m'.upd[x].op == o ensures Fits(m'.ops, x, m'.upd[x]) {
      assert Fits(m.ops, x, m.upd[x]);
    }
  }

  lemma SpliceKeeps(m: Memory, o: nat, other: Addr)
    requires MemInv(m) && CanSplice(m, o, other)
    ensures other in m.cells && m.ops[o].gp in m.cells
    ensures var m' := SpliceMemory(m, o, other); Evolves(m, m', o) && MemInv(m')
  {
    assert Tables(m) && WordsOk(m) && Live(m) && TreeInv(m) && m.hist != [] && |m.author| == |m.hist|;
    hide MemInv, Evolves, TreeInv, Tables, WordsOk, Live, OpOk, OwnWords, NewWords, NewEntry, CanSplice, PathsKept;
    SpliceTree(m, o, other);
    var m' := SpliceMemory(m, o, other);
    SpliceEvolves(m, o, other);
    SpliceOp(m, o, other);
    SpliceWords(m, o, other);
    Assemble(m, m', o);
  }

  // ----- publishing a record

  ghost predicate InsertReady(m: Memory, th: Thread) {
    && Router(m, th.p) && LeafAt(m, th.l) && GoodKey(th.k) && m.cells[th.l].key != th.k && th.call.Insert?
    && m.upd[th.p].flag == Clean && Leads(m, th.p, th.k, th.l)
  }

  lemma PublishRep(m: Memory, t: nat, th: Thread)
    requires Tables(m) && InsertReady(m, th)
    ensures var m' := FlagInsert(m, t, th);
            m'.cells == InsertCells(m, th) && Rep(m'.cells, ForkOf(m', m.serial, m'.ops[m.serial]))
  {
  }

  lemma PublishOld(m: Memory, t: nat, th: Thread)
    requires Tables(m) && InsertReady(m, th)
    ensures var m' := FlagInsert(m, t, th);
            && Made(m.serial, 0) !in m.cells && Made(m.serial, 0) in m'.cells
            && forall a :: a in m.cells ==> a in m'.cells && m'.cells[a] == m.cells[a]
  {
    var o := m.serial;
    assert Made(o, 0) !in m.cells && Made(o, 1) !in m.cells && Made(o, 2) !in m.cells;
    hide Rep, ForkOf;
  }

  lemma PublishCells(m: Memory, t: nat, th: Thread)
    requires Tables(m) && InsertReady(m, th)
    ensures var m' := FlagInsert(m, t, th);
            && m'.cells == InsertCells(m, th)
            && (forall a :: a in m.cells ==> a in m'.cells && m'.cells[a] == m.cells[a])
            && (forall a :: a in m'.cells && a !in m.cells ==> a.Made? && a.maker == m.serial)
            && Made(m.serial, 0) !in m.cells && Made(m.serial, 0) in m'.cells
            && Rep(m'.cells, ForkOf(m', m.serial, m'.ops[m.serial]))
  {
    PublishOld(m, t, th);
    PublishRep(m, t, th);
    hide Rep, ForkOf;
  }

  lemma PublishSide(m: Memory, t: nat, th: Thread)
    requires TreeInv(m) && Tables(m) && InsertReady(m, th)
    ensures var m' := FlagInsert(m, t, th); SameSide(m'.cells, th.p, Made(m.serial, 0), th.k)
  {
    PublishCells(m, t, th);
    KeysOnSide(m.cells, Last(m.hist), KEY_MIN, INF2 + 1, th.k, th.p);
    hide HistOk, Rep;
    assert FlagInsert(m, t, th).cells[Made(m.serial, 0)].key == Max(th.k, m.cells[th.l].key);
  }

  lemma RecordAdded(m: Memory, m': Memory)
    requires Tables(m) && m.serial in m'.ops && m'.ops == m.ops[m.serial := m'.ops[m.serial]]
             && m'.ops[m.serial].phase == Flagged
    ensures OpsEvolve(m, m', m.serial) && PreparedEvolve(m, m')
  {
  }

  /** The new record's flag is put over a clean word. */
  lemma FlagAdded(m: Memory, m': Memory, n: Addr, w: Word)
    requires Tables(m) && WordsOk(m) && Router(m, n) && m.upd[n].flag == Clean && w.op == m.serial && w.flag != Clean
    requires forall x :: x in m.upd ==> x in m'.upd && m'.upd[x] == (if x == n then w else m.upd[x])
    requires forall x :: x in m.upd ==> x in m'.past && m'.past[x] == (if x == n then m.past[n] + {w} else m.past[x])
    ensures WordsEvolve(m, m', m.serial)
  {
    assert !Appeared(m.ops, n, w);
  }

  /** What publishing a record does to the tables of words and records. */
  ghost predicate Published(m: Memory, m': Memory, n: Addr, w: Word) {
    && m.serial in m'.ops && m'.ops == m.ops[m.serial := m'.ops[m.serial]] && m'.serial == m.serial + 1
    && m'.ops[m.serial].phase == Flagged
    && m'.hist == m.hist && m'.author == m.author
    && (forall x :: x in m.upd ==> x in m'.upd && m'.upd[x] == (if x == n then w else m.upd[x]))
    && (forall x :: x in m.past ==> x in m'.past && m'.past[x] == (if x == n then m.past[n] + {w} else m.past[x]))
    && (forall a :: a in m.cells ==> a in m'.cells && m'.cells[a] == m.cells[a])
  }

  lemma PublishedCells(m: Memory, m': Memory, n: Addr, w: Word)
    requires Published(m, m', n, w)
    ensures CellsEvolve(m, m', m.serial)
  {
  }

  lemma PublishedEvolves(m: Memory, m': Memory, n: Addr, w: Word)
    requires Tables(m) && WordsOk(m) && Router(m, n) && m.upd[n].flag == Clean && w.op == m.serial && w.flag != Clean
    requires m.hist != [] && Published(m, m', n, w)
    ensures Evolves(m, m', m.serial) && NewEntry(m, m', m.serial)
  {
    PublishedCells(m, m', n, w);
    FlagAdded(m, m', n, w);
    RecordAdded(m, m');
    hide WordsOk, WordsEvolve, OpsEvolve, PreparedEvolve, CellsEvolve, Tables, Router;
  }

  lemma InsertPublished(m: Memory, t: nat, th: Thread)
    requires Tables(m) && InsertReady(m, th)
    ensures Published(m, FlagInsert(m, t, th), th.p, Word(m.serial, IFlag))
  {
    hide Rep, InsertCells;
    PublishCells(m, t, th);
    assert Made(m.serial, 0) !in m.upd;
  }

  lemma PublishKeys(m: Memory, t: nat, th: Thread)
    requires Tables(m) && InsertReady(m, th)
    ensures var m', o := FlagInsert(m, t, th), m.serial;
            m'.upd.Keys == m.upd.Keys + {Made(o, 0)} && m'.past.Keys == m.past.Keys + {Made(o, 0)}
  {
  }

  /** Of the three new nodes, only the router gets an update field. */
  lemma PublishShape(m: Memory, t: nat, th: Thread)
    requires Tables(m) && InsertReady(m, th)
    ensures var m', o := FlagInsert(m, t, th), m.serial;
            && (forall a :: a in m'.cells && a !in m.cells ==> (m'.cells[a].leaf <==> a != Made(o, 0)))
            && o !in m.ops && o in m'.ops && m'.ops == m.ops[o := m'.ops[o]] && m'.ops[o].IOp? && m'.serial == o + 1
  {
    var m', o := FlagInsert(m, t, th), m.serial;
    assert !m'.cells[Made(o, 0)].leaf && m'.cells[Made(o, 1)].leaf && m'.cells[Made(o, 2)].leaf;
  }

  lemma PublishTables(m: Memory, t: nat, th: Thread)
    requires Tables(m) && InsertReady(m, th)
    ensures Tables(FlagInsert(m, t, th))
  {
    hide Rep, FlagInsert, InsertCells;
    PublishShape(m, t, th);
    PublishKeys(m, t, th);
    PublishCells(m, t, th);
  }

  lemma PublishNew(m: Memory, t: nat, th: Thread)
    requires Tables(m) && InsertReady(m, th)
    ensures NewWords(m, FlagInsert(m, t, th))
  {
  }

  lemma PublishStatic(m: Memory, t: nat, th: Thread)
    requires TreeInv(m) && Tables(m) && InsertReady(m, th)
    ensures var m' := FlagInsert(m, t, th); IStatic(m', m.serial, m'.ops[m.serial])
  {
    PublishCells(m, t, th);
    PublishSide(m, t, th);
    hide Rep, TreeInv;
  }

  lemma PublishOp(m: Memory, t: nat, th: Thread)
    requires TreeInv(m) && Tables(m) && InsertReady(m, th)
    ensures var m' := FlagInsert(m, t, th); OpOk(m', m.serial, m'.ops[m.serial])
  {
    var o, m' := m.serial, FlagInsert(m, t, th);
    PublishCells(m, t, th);
    PublishStatic(m, t, th);
    assert o !in m.ops;
    hide Rep, TreeInv, IStatic;
    assert IFlagged(m', o, m'.ops[o]);
  }

  lemma PublishWords(m: Memory, t: nat, th: Thread)
    requires Tables(m) && WordsOk(m) && InsertReady(m, th)
    ensures OwnWords(FlagInsert(m, t, th), m.serial)
  {
    var o, m' := m.serial, FlagInsert(m, t, th);
    forall x | x in m'.upd && m'.upd[x].op == o ensures Fits(m'.ops, x, m'.upd[x]) {
      if x != th.p && x != Made(o, 0) {
        assert Fits(m.ops, x, m.upd[x]);
      }
    }
  }

  lemma PublishTree(m: Memory, m': Memory)
    requires TreeInv(m) && m'.hist == m.hist && forall a :: a in m.cells ==> a in m'.cells && m'.cells[a] == m.cells[a]
    ensures TreeInv(m')
  {
    hide HistOk;
    AllocationKeepsHistory(m.cells, m'.cells, m.hist, KEY_MIN, INF2 + 1);
  }

  lemma FlagInsertKeeps(m: Memory, t: nat, th: Thread)
    requires MemInv(m) && InsertReady(m, th)
    ensures var m' := FlagInsert(m, t, th); Evolves(m, m', m.serial) && MemInv(m')
  {
    assert Tables(m) && WordsOk(m) && TreeInv(m);
    var m' := FlagInsert(m, t, th);
    assert m.serial in m'.ops && m'.hist == m.hist;
    hide MemInv, Evolves, TreeInv, Tables, WordsOk, OpOk, OwnWords, NewWords, NewEntry, Rep;
    PublishCells(m, t, th);
    PublishTree(m, m');
    InsertPublished(m, t, th);
    assert Router(m, th.p) && m.upd[th.p].flag == Clean && m.hist != [];
    hide InsertReady, FlagInsert, Published;
    PublishedEvolves(m, m', th.p, Word(m.serial, IFlag));
    PublishTables(m, t, th);
    PublishNew(m, t, th);
    PublishOp(m, t, th);
    PublishWords(m, t, th);
    Assemble(m, m', m.serial);
  }

  ghost predicate DeleteReady(m: Memory, th: Thread) {
    && Router(m, th.gp) && Router(m, th.p) && LeafAt(m, th.l) && GoodKey(th.k) && m.cells[th.l].key == th.k
    && m.upd[th.gp].flag == Clean && Leads(m, th.gp, th.k, th.p)
    && th.pu.flag == Clean && th.pu in m.past[th.p]
    && (m.upd[th.p] == th.pu ==> m.cells[th.p].Next(th.k) == th.l)
  }

  lemma DeletePublished(m: Memory, t: nat, th: Thread)
    requires Tables(m) && DeleteReady(m, th)
    ensures var m' := FlagDelete(m, t, th);
            Published(m, m', th.gp, Word(m.serial, DFlag)) && NewWords(m, m')
  {
  }

  lemma FlagDeleteTables(m: Memory, t: nat, th: Thread)
    requires Tables(m) && DeleteReady(m, th)
    ensures Tables(FlagDelete(m, t, th))
  {
    var m', o := FlagDelete(m, t, th), m.serial;
    assert m'.upd.Keys == m.upd.Keys && m'.past.Keys == m.past.Keys;
    assert o !in m.ops;
  }

  lemma FlagDeleteOp(m: Memory, t: nat, th: Thread)
    requires Tables(m) && DeleteReady(m, th) && th.gp != th.p
    ensures var m' := FlagDelete(m, t, th); OpOk(m', m.serial, m'.ops[m.serial])
  {
    var o, m' := m.serial, FlagDelete(m, t, th);
    assert o !in m.ops;
    assert DStatic(m', m'.ops[o]);
    assert DFlagged(m', o, m'.ops[o]);
  }

  lemma FlagDeleteWords(m: Memory, t: nat, th: Thread)
    requires Tables(m) && WordsOk(m) && DeleteReady(m, th)
    ensures OwnWords(FlagDelete(m, t, th), m.serial)
  {
    var o, m' := m.serial, FlagDelete(m, t, th);
    forall x | x in m'.upd && m'.upd[x].op == o ensures Fits(m'.ops, x, m'.upd[x]) {
      if x != th.gp {
        assert Fits(m.ops, x, m.upd[x]);
      }
    }
  }

  /** A router is not its own child. */
  lemma ChildDiffers(m: Memory, n: Addr, k: int)
    requires TreeInv(m) && n in m.cells && !m.cells[n].leaf && n in Path(Last(m.hist), k)
    ensures m.cells[n].Next(k) != n
  {
    NotOwnChild(m.cells, Last(m.hist), k, n);
  }

  lemma FlagDeleteKeeps(m: Memory, t: nat, th: Thread)
    requires MemInv(m) && DeleteReady(m, th)
    ensures var m' := FlagDelete(m, t, th); Evolves(m, m', m.serial) && MemInv(m')
  {
    assert Tables(m) && WordsOk(m) && TreeInv(m);
    var m' := FlagDelete(m, t, th);
    assert m.serial in m'.ops && m'.hist == m.hist && m'.cells == m.cells;
    hide MemInv, Evolves, TreeInv, Tables, WordsOk, OpOk, OwnWords, NewWords, NewEntry;
    ChildDiffers(m, th.gp, th.k);
    SameTree(m, m');
    DeletePublished(m, t, th);
    assert Router(m, th.gp) && m.upd[th.gp].flag == Clean && m.hist != [];
    hide DeleteReady, FlagDelete, Published;
    PublishedEvolves(m, m', th.gp, Word(m.serial, DFlag));
    FlagDeleteTables(m, t, th);
    FlagDeleteOp(m, t, th);
    FlagDeleteWords(m, t, th);
    Assemble(m, m', m.serial);
  }
}
