/** The trees a heap has represented so far, and what a search that takes no locks may conclude.

    A search walks pointers of routers that may already be out of the tree. The argument that
    its answer was nevertheless true at some moment of its call is the same for both trees:
    every node it stands on was on its key's search path at some moment since the call began.
 */
module TreeHistory {
  import opened Options
  import opened ExternalTree

  type History = seq<Tree>

  function Last(hist: History): Tree
    requires hist != []
  {
    hist[|hist| - 1]
  }

  /** n was on the search path of k at some moment from since on. */
  ghost predicate Seen(hist: History, since: nat, k: int, n: Addr) {
    exists i :: since <= i < |hist| && n in Path(hist[i], k)
  }

  /** The abstract map gave this answer for k at some moment from since on. */
  ghost predicate AnswerHeld(hist: History, since: nat, k: int, answer: Option<int>) {
    exists i :: since <= i < |hist| && Lookup(Contents(hist[i]), k) == answer
  }

  ghost predicate Past(h: Heap, hist: History, lo: int, hi: int) {
    forall i :: 0 <= i < |hist| ==> Stamped(h, hist[i]) && Ordered(hist[i], lo, hi)
  }

  /** A router that was seen leads to nodes that were seen; while it is in the tree it is on the path. */
  ghost predicate WalkClosed(h: Heap, hist: History)
    requires hist != []
  {
    forall since: nat, k, n {:trigger Seen(hist, since, k, n)} :: Seen(hist, since, k, n) ==>
      && n in h
      && (!h[n].leaf ==> Seen(hist, since, k, h[n].Next(k)) && (n in Ids(Last(hist)) ==> n in Path(Last(hist), k)))
  }

  /** What has left the tree does not come back. */
  ghost predicate GoneForGood(hist: History)
    requires hist != []
  {
    forall i, j, a :: 0 <= i <= j < |hist| && a in Ids(hist[i]) && a !in Ids(hist[j]) ==> a !in Ids(Last(hist))
  }

  ghost predicate HistOk(h: Heap, hist: History, lo: int, hi: int) {
    && hist != []
    && Rep(h, Last(hist)) && Distinct(Last(hist))
    && Past(h, hist, lo, hi)
    && WalkClosed(h, hist)
    && GoneForGood(hist)
  }

  /** a has never been in the tree. */
  ghost predicate FreshFor(hist: History, a: Addr) {
    forall i :: 0 <= i < |hist| ==> a !in Ids(hist[i])
  }

  /** What u has in common with any past tree, it has in common with the last one. */
  ghost predicate NoReturn(hist: History, u: Tree)
    requires hist != []
  {
    forall i, a :: 0 <= i < |hist| && a in Ids(hist[i]) && a in Ids(u) ==> a in Ids(Last(hist))
  }

  /** The heap is that of u, after a write to the child pointers of the cell at w only. */
  ghost predicate OneWrite(h: Heap, h': Heap, w: Addr) {
    Grows(h, h') && forall a :: a in h && a != w ==> h'[a] == h[a]
  }

  lemma ChildWrite(h: Heap, p: Addr, side: bool, c: Addr)
    requires p in h
    ensures OneWrite(h, h[p := h[p].SetChild(side, c)], p)
  {
  }

  /** Going from t to u, a search path loses only leaves and nodes that left the tree. */
  ghost predicate PathsKept(h: Heap, t: Tree, u: Tree) {
    forall q, n :: n in Path(t, q) && n in h && !h[n].leaf && n in Ids(u) ==> n in Path(u, q)
  }

  lemma SeenGrows(hist: History, u: Tree, since: nat, k: int, n: Addr)
    requires Seen(hist, since, k, n)
    ensures Seen(hist + [u], since, k, n)
  {
    var i :| since <= i < |hist| && n in Path(hist[i], k);
    assert (hist + [u])[i] == hist[i];
  }

  lemma AnswerGrows(hist: History, u: Tree, since: nat, k: int, answer: Option<int>)
    requires AnswerHeld(hist, since, k, answer)
    ensures AnswerHeld(hist + [u], since, k, answer)
  {
    var i :| since <= i < |hist| && Lookup(Contents(hist[i]), k) == answer;
    assert (hist + [u])[i] == hist[i];
  }

  lemma SeenNow(hist: History, since: nat, k: int, n: Addr)
    requires hist != [] && since < |hist| && n in Path(Last(hist), k)
    ensures Seen(hist, since, k, n)
  {
  }

  /** One walking step: from a node seen, the pointer toward k leads to a node seen. */
  lemma WalkStep(h: Heap, hist: History, lo: int, hi: int, since: nat, k: int, n: Addr)
    requires HistOk(h, hist, lo, hi) && Seen(hist, since, k, n)
    ensures n in h
    ensures !h[n].leaf ==> h[n].Next(k) in h && Seen(hist, since, k, h[n].Next(k))
    ensures !h[n].leaf && n in Ids(Last(hist)) ==> n in Path(Last(hist), k)
  {
    assert !h[n].leaf ==> Seen(hist, since, k, h[n].Next(k));
  }

  /** A leaf that was seen gives an answer that was true at some moment since. */
  lemma SeenLeafAnswers(h: Heap, hist: History, lo: int, hi: int, since: nat, k: int, n: Addr)
    requires HistOk(h, hist, lo, hi) && Seen(hist, since, k, n) && lo <= k < hi
    requires n in h && h[n].leaf
    ensures AnswerHeld(hist, since, k, if h[n].key == k then Some(h[n].val) else None)
  {
    var i :| since <= i < |hist| && n in Path(hist[i], k);
    StampedEnd(h, hist[i], k, n);
    SearchCorrect(hist[i], lo, hi, k);
  }

  lemma StepKeepsPast(h: Heap, h': Heap, hist: History, u: Tree, lo: int, hi: int)
    requires Past(h, hist, lo, hi) && Grows(h, h') && Rep(h', u) && Ordered(u, lo, hi)
    ensures Past(h', hist + [u], lo, hi)
  {
    var hist' := hist + [u];
    forall i | 0 <= i < |hist'| ensures Stamped(h', hist'[i]) && Ordered(hist'[i], lo, hi) {
      if i < |hist| {
        StampedGrows(h, h', hist[i]);
      } else {
        RepStamped(h', u);
      }
    }
  }

  lemma StepKeepsWalk(h: Heap, h': Heap, hist: History, u: Tree, w: Addr,
                      since: nat, k: int, n: Addr)
    requires hist != [] && WalkClosed(h, hist) && Rep(h', u)
    requires OneWrite(h, h', w) && w in Ids(u) && PathsKept(h, Last(hist), u)
    requires NoReturn(hist, u)
    requires Seen(hist + [u], since, k, n)
    ensures n in h'
    ensures !h'[n].leaf ==> Seen(hist + [u], since, k, h'[n].Next(k))
    ensures !h'[n].leaf && n in Ids(u) ==> n in Path(u, k)
  {
    var hist' := hist + [u];
    var i :| since <= i < |hist'| && n in Path(hist'[i], k);
    if n in Path(u, k) {
      PathStep(h', u, k, n);
      if !h'[n].leaf {
        assert hist'[|hist|] == u;
        assert h'[n].Next(k) in Path(hist'[|hist|], k);
      }
    } else {
      assert i < |hist| && hist'[i] == hist[i];
      assert Seen(hist, since, k, n);
      PathInIds(hist[i], k);
      if !h'[n].leaf {
        assert n !in Ids(u);
        assert h'[n] == h[n];
        SeenGrows(hist, u, since, k, h[n].Next(k));
      }
    }
  }

  /** The history invariant survives one child-pointer write that turns the tree into u. */
  lemma StepKeepsHistory(h: Heap, h': Heap, hist: History, u: Tree, w: Addr, lo: int, hi: int)
    requires HistOk(h, hist, lo, hi)
    requires Rep(h', u) && Distinct(u) && Ordered(u, lo, hi)
    requires OneWrite(h, h', w) && w in Ids(u) && PathsKept(h, Last(hist), u)
    requires NoReturn(hist, u)
    ensures HistOk(h', hist + [u], lo, hi)
  {
    var hist' := hist + [u];
    assert Last(hist') == u;
    StepKeepsPast(h, h', hist, u, lo, hi);
    forall since: nat, k, n | Seen(hist', since, k, n)
      ensures n in h'
      ensures !h'[n].leaf ==> Seen(hist', since, k, h'[n].Next(k)) && (n in Ids(u) ==> n in Path(u, k))
    {
      StepKeepsWalk(h, h', hist, u, w, since, k, n);
    }
    forall i, j, a | 0 <= i <= j < |hist'| && a in Ids(hist'[i]) && a !in Ids(hist'[j])
      ensures a !in Ids(u)
    {
      if j < |hist| {
        assert hist'[i] == hist[i] && hist'[j] == hist[j];
      }
    }
  }

  lemma StampedIds(h: Heap, t: Tree)
    requires Stamped(h, t)
    ensures forall a :: a in Ids(t) ==> a in h
  {
  }

  /** Addresses that are not allocated have never been in the tree. */
  lemma UnallocatedIsFresh(h: Heap, hist: History, lo: int, hi: int, a: Addr)
    requires Past(h, hist, lo, hi) && a !in h
    ensures FreshFor(hist, a)
  {
    forall i | 0 <= i < |hist| ensures a !in Ids(hist[i]) {
      StampedIds(h, hist[i]);
    }
  }

  /** A grown heap that changes no existing cell keeps the history as it is. */
  lemma AllocationKeepsHistory(h: Heap, h': Heap, hist: History, lo: int, hi: int)
    requires HistOk(h, hist, lo, hi) && forall a :: a in h ==> a in h' && h'[a] == h[a]
    ensures HistOk(h', hist, lo, hi)
  {
    RepIds(h, Last(hist));
    RepFrame(h, h', Last(hist));
    forall i | 0 <= i < |hist| ensures Stamped(h', hist[i]) {
      StampedGrows(h, h', hist[i]);
    }
    forall since: nat, k, n | Seen(hist, since, k, n)
      ensures n in h'
      ensures !h'[n].leaf ==> Seen(hist, since, k, h'[n].Next(k)) && (n in Ids(Last(hist)) ==> n in Path(Last(hist), k))
    {
      assert n in h;
    }
  }

  /** The very first tree starts a valid history. */
  lemma FirstTree(h: Heap, t: Tree, lo: int, hi: int)
    requires Rep(h, t) && Distinct(t) && Ordered(t, lo, hi)
    ensures HistOk(h, [t], lo, hi)
  {
    RepStamped(h, t);
    var hist := [t];
    forall since: nat, k, n | Seen(hist, since, k, n)
      ensures n in h
      ensures !h[n].leaf ==> Seen(hist, since, k, h[n].Next(k)) && (n in Ids(Last(hist)) ==> n in Path(Last(hist), k))
    {
      PathStep(h, t, k, n);
      if !h[n].leaf {
        assert hist[0] == t && h[n].Next(k) in Path(hist[0], k);
      }
    }
  }

  /** A graft over the end leaf of k's path, written through the last router, keeps the history. */
  lemma GraftKeepsHistory(h: Heap, h': Heap, hist: History, k: int, sub: Tree, lo: int, hi: int)
    requires HistOk(h, hist, lo, hi)
    requires var t := Last(hist);
             && t.Node?
             && Rep(h', sub) && Distinct(sub) && Ordered(Graft(t, k, sub), lo, hi)
             && Parent(t, k) in h && Parent(t, k) in h'
             && h'[Parent(t, k)] == h[Parent(t, k)].SetChild(h[Parent(t, k)].Side(k), sub.id)
             && OneWrite(h, h', Parent(t, k))
             && End(t, k).id != Parent(t, k)
             && (forall a :: a in Ids(sub) ==> FreshFor(hist, a) || a == End(t, k).id)
    ensures var u := Graft(Last(hist), k, sub);
            && HistOk(h', hist + [u], lo, hi) && PathsKept(h, Last(hist), u)
            && Ids(u) == Ids(Last(hist)) - {End(Last(hist), k).id} + Ids(sub)
  {
    var t := Last(hist);
    var u := Graft(t, k, sub);
    var w := Parent(t, k);
    RepIds(h, t);
    GraftIds(t, k, sub);
    GraftRep(h, h', t, k, sub);
    assert Last(hist) == hist[|hist| - 1];
    forall q, n | n in Path(t, q) && n in h && !h[n].leaf && n in Ids(u) ensures n in Path(u, q) {
      GraftPath(t, k, sub, q);
      EndIsLeaf(h, t, k);
    }
    StepKeepsHistory(h, h', hist, u, w, lo, hi);
  }

  /** A splice of the end leaf of k's path, written through the router above the last one, keeps the history. */
  lemma SpliceKeepsHistory(h: Heap, h': Heap, hist: History, k: int, lo: int, hi: int)
    requires HistOk(h, hist, lo, hi)
    requires var t := Last(hist);
             && t.Node? && Toward(t, k).Node? && Ordered(Splice(t, k), lo, hi)
             && var g := GrandParent(t, k);
             && g in h && g in h'
             && h'[g] == h[g].SetChild(h[g].Side(k), Sibling(t, k).id)
             && OneWrite(h, h', g)
             && g != Parent(t, k) && g != End(t, k).id
    ensures var u := Splice(Last(hist), k);
            && HistOk(h', hist + [u], lo, hi) && PathsKept(h, Last(hist), u)
            && Ids(u) == Ids(Last(hist)) - {Parent(Last(hist), k), End(Last(hist), k).id}
  {
    var t := Last(hist);
    var u := Splice(t, k);
    var g := GrandParent(t, k);
    RepIds(h, t);
    SpliceIds(t, k);
    SpliceRep(h, h', t, k);
    forall q, n | n in Path(t, q) && n in h && !h[n].leaf && n in Ids(u) ensures n in Path(u, q) {
      SplicePath(t, k, q);
    }
    StepKeepsHistory(h, h', hist, u, g, lo, hi);
  }
}
