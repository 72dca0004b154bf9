/** What a step of src/bst-lock2/bst_bronson_java.c finds around the node it works on: which nodes are there, which are
    different, and what their heights become. */
module BronsonReady {
  import opened BronsonTree
  import opened BronsonSteps

  const UNLINK_REQUIRED := -1
  const REBALANCE_REQUIRED := -2
  const NOTHING_REQUIRED := -3

  /** node_conditon: one of the three codes above, or the height that n should have */
  function NodeCondition(h: Heap, n: Ref): int
    requires n in h
  {
    var nl, nr := h[n].left, h[n].right;
    if (nl == NULL || nr == NULL) && h[n].value == 0 then UNLINK_REQUIRED else
    var hl0, hr0 := Height(h, nl), Height(h, nr);
    var hnrepl := 1 + Max(hl0, hr0);
    var bal := hl0 - hr0;
    if bal < -1 || bal > 1 then REBALANCE_REQUIRED
    else if h[n].height != hnrepl then hnrepl else NOTHING_REQUIRED
  }

  /** The height of n is right if those of its children are. */
  predicate Accurate(h: Heap, n: Ref)
    requires n in h
  {
    h[n].height == 1 + Max(Height(h, h[n].left), Height(h, h[n].right))
  }

  function WithHeight(h: Heap, n: Ref, v: int): Heap
    requires n in h
  {
    h[n := h[n].(height := v)]
  }

  /** What Valid says of the nodes next to n. */
  lemma Around(h: Heap, g: Layout, held: map<int, int>, n: Ref)
    requires Valid(h, g, held) && n in g.keys
    ensures n in h && (h[n].left != NULL ==> h[n].left in g.keys && h[n].left in h && h[n].left != ROOT && h[n].left != n)
    ensures h[n].right != NULL ==> h[n].right in g.keys && h[n].right in h && h[n].right != ROOT && h[n].right != n
    ensures n != ROOT ==> h[n].parent in g.keys && h[n].parent in h && h[n].height >= 1 && h[n].parent != n
    ensures n == ROOT ==> h[n].left == NULL && h[n].value == 0
    ensures h[n].left != NULL ==> h[h[n].left].parent == n && h[h[n].left].height >= 1
    ensures h[n].right != NULL ==> h[h[n].right].parent == n && h[h[n].right].height >= 1
  {
    if n != ROOT {
      assert LinkOk(h, g, n) && EntryOk(h, g, held, n);
      Apart(h, g, held, n);
    }
    assert NodeOk(h, g, n);
    if h[n].left != NULL {
      ChildApart(h, g, held, n, false);
      assert EntryOk(h, g, held, h[n].left);
    }
    if h[n].right != NULL {
      ChildApart(h, g, held, n, true);
      assert EntryOk(h, g, held, h[n].right);
    }
  }

  predicate IsHeight(c: int) {
    c != UNLINK_REQUIRED && c != REBALANCE_REQUIRED && c != NOTHING_REQUIRED
  }

  /** The codes are not heights: a condition that is none of them is the height that makes n accurate. */
  lemma ConditionMeans(h: Heap, n: Ref)
    requires n in h && h[n].left != n && h[n].right != n && Height(h, h[n].left) >= 0 && Height(h, h[n].right) >= 0
    ensures NodeCondition(h, n) == NOTHING_REQUIRED ==> Accurate(h, n)
    ensures NodeCondition(h, n) == UNLINK_REQUIRED <==> (h[n].left == NULL || h[n].right == NULL) && h[n].value == 0
    ensures IsHeight(NodeCondition(h, n)) ==>
              NodeCondition(h, n) >= 1 && Accurate(WithHeight(h, n, NodeCondition(h, n)), n)
  {
  }

  lemma ConditionKeeps(h: Heap, g: Layout, held: map<int, int>, n: Ref)
    requires Valid(h, g, held) && NULL !in h && n in g.keys && n in h
    ensures h[n].left != n && h[n].right != n && Height(h, h[n].left) >= 0 && Height(h, h[n].right) >= 0
    ensures IsHeight(NodeCondition(h, n)) ==>
              h[n].parent in g.keys && Valid(WithHeight(h, n, NodeCondition(h, n)), g, held)
  {
    Around(h, g, held, n);
    ConditionMeans(h, n);
    var c := NodeCondition(h, n);
    hide Valid, NodeCondition, Accurate;
    if IsHeight(c) {
      HeightKeeps(h, g, held, n, c, WithHeight(h, n, c));
    }
  }

  lemma AccurateKept(h: Heap, x: Ref, p: Ref, v: int)
    requires x in h && p in h && x != p && h[x].left != p && h[x].right != p && Accurate(h, x)
    ensures Accurate(WithHeight(h, p, v), x)
  {
  }

  predicate NotBelow(h: Heap, x: Ref, p: Ref)
    requires x in h
  {
    h[x].left != p && h[x].right != p
  }

  lemma RestKept(h: Heap, x: Ref, p: Ref, v: int)
    requires x in h && p in h && x != p && h[x].left != p && h[x].right != p && AtRest(h, x)
    ensures AtRest(WithHeight(h, p, v), x)
  {
  }

  lemma HeightBack(h: Heap, p: Ref, v: int)
    requires p in h
    ensures WithHeight(WithHeight(h, p, v), p, h[p].height) == h && WithHeight(h, p, h[p].height) == h
  {
  }

  /** n needs neither an unlink nor a turn, and its height is right. */
  predicate AtRest(h: Heap, n: Ref)
    requires n in h
  {
    NodeCondition(h, n) == NOTHING_REQUIRED
  }

  predicate Level(a: int, b: int) {
    -1 <= a - b <= 1
  }

  lemma RestMeans(h: Heap, n: Ref)
    requires n in h && Height(h, h[n].left) >= 0 && Height(h, h[n].right) >= 0
    ensures AtRest(h, n) <==>
            && Accurate(h, n) && Level(Height(h, h[n].left), Height(h, h[n].right))
            && !((h[n].left == NULL || h[n].right == NULL) && h[n].value == 0)
  {
  }

  /** What a repair of the height of p does, and who is damaged afterwards: nobody if p was at rest, the parent if the
      height of p has changed, p itself if it needs more. */
  ghost predicate HeightFixed(h: Heap, p: Ref, h': Heap, damaged: Ref) {
    && p in h && p in h'
    && if AtRest(h, p) then damaged == NULL && h' == h
       else if IsHeight(NodeCondition(h, p)) then
         damaged == h[p].parent && h' == WithHeight(h, p, h'[p].height) && AtRest(h', p)
       else damaged == p && h' == h
  }

  /** After a turn that left heap m, the lowest of the nodes it concerned that is not at rest is the damaged one. */
  ghost predicate LowestDamaged(m: Heap, low: Ref, high: Ref, p: Ref, h': Heap, damaged: Ref) {
    && low in m && high in m
    && if !AtRest(m, low) then damaged == low && h' == m
       else if !AtRest(m, high) then damaged == high && h' == m
       else HeightFixed(m, p, h', damaged)
  }

  lemma HeightRests(h: Heap, n: Ref)
    requires n in h && h[n].left != n && h[n].right != n && Height(h, h[n].left) >= 0 && Height(h, h[n].right) >= 0
    requires IsHeight(NodeCondition(h, n))
    ensures AtRest(WithHeight(h, n, NodeCondition(h, n)), n)
  {
  }

  // ----- unlinking

  /** The pieces of an unlink are different nodes. */
  lemma UnlinkReady(h: Heap, g: Layout, held: map<int, int>, n: Ref)
    requires Valid(h, g, held) && n in g.keys && n != ROOT && n in h
    ensures h[n].parent in h && (h[h[n].parent].left == n || h[h[n].parent].right == n)
    ensures h[n].parent != n && h[n].left != n && h[n].right != n && h[n].left != h[n].parent && h[n].right != h[n].parent
    ensures h[n].parent in Without(g, n).keys
  {
    assert LinkOk(h, g, n);
    Apart(h, g, held, n);
  }

  lemma UnlinkKeeps(h: Heap, g: Layout, held: map<int, int>, n: Ref, h': Heap)
    requires Valid(h, g, held) && n in g.keys && n != ROOT && n in h && (h[n].left == NULL || h[n].right == NULL)
    requires Unlinked(h, h[n].parent, n, if h[n].left != NULL then h[n].left else h[n].right, h')
    ensures Valid(h', Without(g, n), held - {h[n].key})
  {
    var p, s := h[n].parent, if h[n].left != NULL then h[n].left else h[n].right;
    assert EntryOk(h, g, held, n);
    Around(h, g, held, n);
    assert Unlink(h, g, p, n, s, h', Without(g, n));
    hide Valid, Unlink, Unlinked, EntryOk;
    UnlinkValid(h, g, held, p, n, s, h', Without(g, n));
  }

  lemma UnlinkedHeight(h: Heap, p: Ref, n: Ref, s: Ref, h': Heap)
    requires Unlinked(h, p, n, s, h')
    ensures h'[p].height == h[p].height
  {
  }

  lemma RoutingKey(h: Heap, g: Layout, held: map<int, int>, n: Ref)
    requires Valid(h, g, held) && n in g.keys && n != ROOT && n in h && h[n].value == 0
    ensures h[n].key !in held && held - {h[n].key} == held
  {
    hide NodeOk, LinkOk, KeysDiffer, HasKey;
    assert EntryOk(h, g, held, n);
    hide Valid, KeyOk;
  }

  // ----- single turns

  /** The pieces of a turn at n are there, and different nodes; b is the other child of n. */
  lemma TurnReady(h: Heap, g: Layout, held: map<int, int>, n: Ref, right: bool, b: Ref)
    requires Valid(h, g, held) && n in g.keys && n != ROOT && n in h && Child(h[n], !right) != NULL
             && Child(h[n], !right) in h
    requires b == Child(h[n], right)
    ensures var j := JointAt(h, n, right);
            && Different(j) && n in g.span && j.np in g.keys && j.np in h && j.c in g.keys && (j.d != NULL ==> j.d in h && j.d in g.keys)
            && (b != NULL ==> b in h && b != j.np && b != j.n && b != j.c && b != j.d)
            && (NULL !in h ==> Height(h, j.d) >= 0 && Height(h, j.e) >= 0 && Height(h, b) >= 0)
  {
    hide NodeOk, LinkOk, KeysDiffer;
    assert n in g.span;
    hide Valid;
    JointApart(h, g, held, n, right);
    Around(h, g, held, n);
    Around(h, g, held, Child(h[n], !right));
    Apart(h, g, held, n);
  }

  /** A turn that sets the heights from those of the children leaves both nodes accurate. */
  lemma TurnAccurate(h: Heap, j: Joint, right: bool, b: Ref, h': Heap)
    requires Turned(h, j, right, h') && Different(j) && NULL !in h && j.c == Child(h[j.n], !right)
             && j == JointAt(h, j.n, right)
    requires b == Child(h[j.n], right) && (b != NULL ==> b != j.np && b != j.n && b != j.c && b != j.d)
    requires h'[j.n].height == 1 + Max(Height(h, j.d), Height(h, b))
    requires h'[j.c].height == 1 + Max(Height(h, j.e), h'[j.n].height)
    ensures Accurate(h', j.n) && Accurate(h', j.c)
  {
  }

  /** Whether they are at rest then */
  lemma TurnRests(h: Heap, j: Joint, right: bool, b: Ref, h': Heap)
    requires Turned(h, j, right, h') && Different(j) && NULL !in h && j.c == Child(h[j.n], !right)
             && j == JointAt(h, j.n, right)
    requires b == Child(h[j.n], right) && (b != NULL ==> b != j.np && b != j.n && b != j.c && b != j.d)
    requires Height(h, j.d) >= 0 && Height(h, b) >= 0 && Height(h, j.e) >= 0
    requires (b == NULL <==> Height(h, b) == 0) && (j.e == NULL <==> Height(h, j.e) == 0)
    requires h'[j.n].height == 1 + Max(Height(h, j.d), Height(h, b))
    requires h'[j.c].height == 1 + Max(Height(h, j.e), h'[j.n].height)
    ensures AtRest(h', j.n) <==>
            Level(Height(h, j.d), Height(h, b)) && !((j.d == NULL || Height(h, b) == 0) && h[j.n].value == 0)
    ensures AtRest(h', j.c) <==>
            Level(Height(h, j.e), h'[j.n].height) && !(Height(h, j.e) == 0 && h[j.c].value == 0)
    ensures h'[j.n].value == h[j.n].value && h'[j.c].value == h[j.c].value
  {
  }

  lemma TurnedAbove(h: Heap, j: Joint, right: bool, b: Ref, h': Heap)
    requires Turned(h, j, right, h') && Different(j) && j.c == Child(h[j.n], !right) && j == JointAt(h, j.n, right)
    requires b == Child(h[j.n], right) && (b != NULL ==> b != j.np)
    ensures j.np in h' && j.n in h' && j.c in h' && h'[j.np].height == h[j.np].height
    ensures h'[j.n].left != j.np || j.np == NULL
    ensures h'[j.n].right != j.np || j.np == NULL
    ensures h'[j.c].left != j.np && h'[j.c].right != j.np
  {
  }

  // ----- double turns

  /** The interval of a child lies in that of its parent. */
  lemma ChildSpan(h: Heap, g: Layout, held: map<int, int>, p: Ref, right: bool)
    requires Valid(h, g, held) && p in g.keys && Child(h[p], right) != NULL
    ensures var c := Child(h[p], right);
            && c in g.keys && c != ROOT && c != p && h[c].parent == p && p in g.span && c in g.span
            && g.span[p].lo <= g.span[c].lo < g.keys[c] < g.span[c].hi <= g.span[p].hi
            && !(g.span[c].lo < g.keys[p] < g.span[c].hi)
  {
    assert NodeOk(h, g, p);
    assert Fits(h, g, p, right, Child(h[p], right));
    assert NodeOk(h, g, Child(h[p], right));
  }

  lemma ParentOutside(h: Heap, g: Layout, held: map<int, int>, n: Ref)
    requires Valid(h, g, held) && n in g.keys && n != ROOT
    ensures h[n].parent in g.keys && n in g.span && !(g.span[n].lo < g.keys[h[n].parent] < g.span[n].hi)
  {
    Apart(h, g, held, n);
    assert NodeOk(h, g, h[n].parent);
  }

  /** A child of the lowest node of a knot is none of the nodes above. */
  lemma LowestChild(h: Heap, g: Layout, held: map<int, int>, n: Ref, right: bool, side: bool)
    requires Valid(h, g, held) && n in g.keys && n != ROOT && n in h
    requires Child(h[n], !right) in h && Child(h[Child(h[n], !right)], right) in h
    requires Child(h[n], !right) != NULL && Child(h[Child(h[n], !right)], right) != NULL
    ensures var c := Child(h[n], !right); var d := Child(h[c], right); var y := Child(h[d], side);
            y != NULL ==> y in h && y != ROOT && y != n && y != c && y != d && y != h[n].parent
  {
    var c := Child(h[n], !right);
    var d := Child(h[c], right);
    hide Valid;
    ParentOutside(h, g, held, n);
    ChildSpan(h, g, held, n, !right);
    ChildSpan(h, g, held, c, right);
    Around(h, g, held, d);
    if Child(h[d], side) != NULL {
      ChildSpan(h, g, held, d, side);
    }
  }

  lemma JointsMakeKnot(h: Heap, n: Ref, right: bool)
    requires n in h && NULL !in h && Child(h[n], !right) in h && Child(h[Child(h[n], !right)], right) in h
    requires Different(JointAt(h, n, right)) && Different(JointAt(h, Child(h[n], !right), !right))
    requires var k := KnotAt(h, n, right);
             && k.np in h && h[k.c].parent == n && (k.f != NULL ==> k.np != k.f) && (k.x != NULL ==> k.np != k.x)
             && Child(h[n], right) != k.c
    ensures DoubleReady(h, KnotAt(h, n, right), right)
  {
  }

  /** The pieces of a double turn are there, and different nodes. */
  lemma KnotReady(h: Heap, g: Layout, held: map<int, int>, n: Ref, right: bool)
    requires Valid(h, g, held) && n in g.keys && n != ROOT && n in h && NULL !in h
    requires Child(h[n], !right) in h && Child(h[Child(h[n], !right)], right) in h
    ensures var k := KnotAt(h, n, right);
            && DoubleReady(h, k, right) && k.np in h && k.np in g.keys && k.c in g.keys && k.d in g.keys
            && n in g.span && k.c in g.span && (k.f != NULL ==> k.f in h) && (k.x != NULL ==> k.x in h)
  {
    var c := Child(h[n], !right);
    hide Valid, Different, DoubleReady;
    LowestChild(h, g, held, n, right, false);
    LowestChild(h, g, held, n, right, true);
    ChildSpan(h, g, held, n, !right);
    TurnReady(h, g, held, n, right, Child(h[n], right));
    TurnReady(h, g, held, c, !right, Child(h[c], !right));
    JointsMakeKnot(h, n, right);
  }

  predicate Beside(k: Knot, y: Ref) {
    y != NULL ==> y != k.np && y != k.n && y != k.c && y != k.d && y != k.f && y != k.x
  }

  /** The other children of n and c are different from all of these. */
  lemma KnotSides(h: Heap, g: Layout, held: map<int, int>, n: Ref, right: bool, b: Ref, e: Ref)
    requires Valid(h, g, held) && n in g.keys && n != ROOT && n in h && NULL !in h
    requires Child(h[n], !right) in h && Child(h[Child(h[n], !right)], right) in h
    requires b == Child(h[n], right) && e == Child(h[Child(h[n], !right)], !right)
    requires DoubleReady(h, KnotAt(h, n, right), right)
    ensures var k := KnotAt(h, n, right); Beside(k, b) && Beside(k, e) && Height(h, b) >= 0 && Height(h, e) >= 0
    ensures var k := KnotAt(h, n, right); Height(h, k.f) >= 0 && Height(h, k.x) >= 0
    ensures (b == NULL <==> Height(h, b) == 0) && (e == NULL <==> Height(h, e) == 0)
    ensures var k := KnotAt(h, n, right); k.f == NULL <==> Height(h, k.f) == 0
  {
    var k := KnotAt(h, n, right);
    hide Valid;
    ParentOutside(h, g, held, n);
    ChildSpan(h, g, held, n, !right);
    ChildSpan(h, g, held, k.c, right);
    Around(h, g, held, n);
    Around(h, g, held, k.c);
    Around(h, g, held, k.d);
    if b != NULL {
      ChildSpan(h, g, held, n, right);
    }
    if e != NULL {
      ChildSpan(h, g, held, k.c, !right);
    }
    TurnReady(h, g, held, n, right, b);
    TurnReady(h, g, held, k.c, !right, e);
  }

  /** The children f and x of the lowest node hang below c and n, whose versions say that they change. */
  ghost predicate Shared(h: Heap, n: Ref, c: Ref, f: Ref, x: Ref, right: bool, h': Heap) {
    && n in h && c in h && (f != NULL ==> f in h) && (x != NULL ==> x in h) && h'.Keys == h.Keys
    && (forall y :: y in h && y != n && y != c && y != f && y != x ==> h'[y] == h[y])
    && (f != NULL ==> h'[f] == h[f].(parent := c)) && (x != NULL ==> h'[x] == h[x].(parent := n))
    && h'[n] == WithChild(h[n], !right, x).(version := BeginChange(h[n].version))
    && h'[c] == WithChild(h[c], right, f).(version := BeginChange(h[c].version))
  }

  ghost predicate Lifted(h: Heap, np: Ref, n: Ref, c: Ref, d: Ref, right: bool, nodeOvl: nat, childOvl: nat,
                         hn: int, hc: int, hd: int, h': Heap) {
    && np in h && n in h && c in h && d in h && h'.Keys == h.Keys
    && (forall y :: y in h && y != np && y != n && y != c && y != d ==> h'[y] == h[y])
    && h'[np] == ReplaceChild(h[np], n, d)
    && h'[d] == WithChild(WithChild(h[d], !right, c), right, n).(parent := np, height := hd)
    && h'[n] == h[n].(parent := d, height := hn, version := EndChange(nodeOvl))
    && h'[c] == h[c].(parent := d, height := hc, version := EndChange(childOvl))
  }

  lemma SharedKeys(h: Heap, n: Ref, c: Ref, f: Ref, x: Ref, right: bool, h': Heap)
    requires Shared(h, n, c, f, x, right, h')
    ensures h'.Keys == h.Keys
  {
  }

  lemma LiftedHeights(h: Heap, np: Ref, n: Ref, c: Ref, d: Ref, right: bool, nodeOvl: nat, childOvl: nat,
                      hn: int, hc: int, hd: int, h': Heap)
    requires Lifted(h, np, n, c, d, right, nodeOvl, childOvl, hn, hc, hd, h') && n != c && n != d && c != d
    ensures h'.Keys == h.Keys && n in h' && c in h' && d in h'
    ensures h'[n].height == hn && h'[c].height == hc && h'[d].height == hd
  {
  }

  lemma LiftedDoubly(h: Heap, k: Knot, right: bool, hn: int, hc: int, hd: int, h1: Heap, h': Heap)
    requires DoubleReady(h, k, right) && k.np in h && hn >= 1 && hc >= 1 && hd >= 1
    requires Shared(h, k.n, k.c, k.f, k.x, right, h1)
    requires Lifted(h1, k.np, k.n, k.c, k.d, right, h[k.n].version, h[k.c].version, hn, hc, hd, h')
    ensures DoublyTurned(h, k, right, h')
  {
  }

  lemma DoubledAbove(h: Heap, k: Knot, right: bool, b: Ref, e: Ref, h': Heap)
    requires DoublyTurned(h, k, right, h') && DoubleReady(h, k, right)
    requires b == Child(h[k.n], right) && e == Child(h[k.c], !right) && Beside(k, b) && Beside(k, e)
    ensures k.np in h' && k.n in h' && k.c in h' && k.d in h' && h'[k.np].height == h[k.np].height
    ensures k.np == NULL || (h'[k.n].left != k.np && h'[k.n].right != k.np && h'[k.c].left != k.np
            && h'[k.c].right != k.np)
    ensures h'[k.d].left != k.np && h'[k.d].right != k.np
  {
  }

  lemma DoubleAccurate(h: Heap, k: Knot, right: bool, b: Ref, e: Ref, h': Heap)
    requires DoublyTurned(h, k, right, h') && DoubleReady(h, k, right)
    requires b == Child(h[k.n], right) && e == Child(h[k.c], !right) && Beside(k, b) && Beside(k, e)
    requires h'[k.n].height == 1 + Max(Height(h, k.x), Height(h, b))
    requires h'[k.c].height == 1 + Max(Height(h, e), Height(h, k.f))
    requires h'[k.d].height == 1 + Max(h'[k.c].height, h'[k.n].height)
    ensures Accurate(h', k.n) && Accurate(h', k.c) && Accurate(h', k.d)
  {
  }

  lemma DoubleRests(h: Heap, k: Knot, right: bool, b: Ref, e: Ref, h': Heap)
    requires DoublyTurned(h, k, right, h') && DoubleReady(h, k, right)
    requires b == Child(h[k.n], right) && e == Child(h[k.c], !right) && Beside(k, b) && Beside(k, e)
    requires Height(h, k.x) >= 0 && Height(h, b) >= 0 && Height(h, k.f) >= 0 && Height(h, e) >= 0
    requires (b == NULL <==> Height(h, b) == 0) && (e == NULL <==> Height(h, e) == 0)
    requires k.f == NULL <==> Height(h, k.f) == 0
    requires h'[k.n].height == 1 + Max(Height(h, k.x), Height(h, b))
    requires h'[k.c].height == 1 + Max(Height(h, e), Height(h, k.f))
    requires h'[k.d].height == 1 + Max(h'[k.c].height, h'[k.n].height)
    ensures AtRest(h', k.n) <==>
            Level(Height(h, k.x), Height(h, b)) && !((k.x == NULL || Height(h, b) == 0) && h[k.n].value == 0)
    ensures AtRest(h', k.c) <==>
            Level(Height(h, e), Height(h, k.f)) && !((Height(h, e) == 0 || Height(h, k.f) == 0) && h[k.c].value == 0)
    ensures AtRest(h', k.d) <==> Level(h'[k.c].height, h'[k.n].height)
    ensures h'[k.n].value == h[k.n].value
  {
  }

  /** A double turn leaves c level, and no routing node with a side to spare. */
  predicate DoubleFits(h: Heap, c: Ref, outer: int, inner: int)
    requires c in h
  {
    Level(outer, inner) && !((outer == 0 || inner == 0) && h[c].value == 0)
  }

  /** All of this at once */
  lemma DoubleAfter(h: Heap, k: Knot, right: bool, b: Ref, e: Ref, h': Heap)
    requires DoublyTurned(h, k, right, h') && DoubleReady(h, k, right)
    requires b == Child(h[k.n], right) && e == Child(h[k.c], !right) && Beside(k, b) && Beside(k, e)
    requires Height(h, k.x) >= 0 && Height(h, b) >= 0 && Height(h, k.f) >= 0 && Height(h, e) >= 0
    requires (b == NULL <==> Height(h, b) == 0) && (e == NULL <==> Height(h, e) == 0)
    requires k.f == NULL <==> Height(h, k.f) == 0
    requires h'[k.n].height == 1 + Max(Height(h, k.x), Height(h, b))
    requires h'[k.c].height == 1 + Max(Height(h, e), Height(h, k.f))
    requires h'[k.d].height == 1 + Max(h'[k.c].height, h'[k.n].height)
    ensures k.np in h' && k.n in h' && k.c in h' && k.d in h' && h'[k.np].height == h[k.np].height
    ensures Accurate(h', k.n) && Accurate(h', k.c) && Accurate(h', k.d) && h'[k.n].value == h[k.n].value
    ensures AtRest(h', k.n) <==>
            Level(Height(h, k.x), Height(h, b)) && !((k.x == NULL || Height(h, b) == 0) && h[k.n].value == 0)
    ensures DoubleFits(h, k.c, Height(h, e), Height(h, k.f)) ==> AtRest(h', k.c)
    ensures AtRest(h', k.d) <==> Level(h'[k.c].height, h'[k.n].height)
    ensures k.np == NULL || (h'[k.n].left != k.np && h'[k.n].right != k.np && h'[k.c].left != k.np
            && h'[k.c].right != k.np)
    ensures h'[k.d].left != k.np && h'[k.d].right != k.np
  {
    DoubledAbove(h, k, right, b, e, h');
    DoubleAccurate(h, k, right, b, e, h');
    DoubleRests(h, k, right, b, e, h');
    hide DoublyTurned, DoubleReady, Beside, Accurate, AtRest;
  }

  // ----- which turn

  /** What a turn at n leaves, with heights from those of the children */
  ghost predicate TurnedWell(h: Heap, n: Ref, right: bool, h': Heap) {
    && n in h && n in h' && Child(h[n], !right) in h && Child(h[n], !right) in h'
    && Turned(h, JointAt(h, n, right), right, h') && Different(JointAt(h, n, right))
    && Accurate(h', n) && Accurate(h', Child(h[n], !right))
  }

  /** What a double turn at n leaves, with heights from those of the children */
  ghost predicate DoubledWell(h: Heap, n: Ref, right: bool, h': Heap) {
    && n in h && n in h' && Child(h[n], !right) in h && Child(h[Child(h[n], !right)], right) in h
    && var k := KnotAt(h, n, right);
       && k.c in h' && k.d in h' && DoublyTurned(h, k, right, h') && DoubleReady(h, k, right)
       && Accurate(h', n) && Accurate(h', k.c) && Accurate(h', k.d)
  }

  /** How rebalancing mends n, too heavy on one side: not at all, leaving x as the damaged node, or by a turn or a
      double turn at x, which is n or a node below it. */
  datatype Mend = Leave(x: Ref) | TurnAt(x: Ref, right: bool) | DoubleTurnAt(x: Ref, right: bool)

  ghost predicate Lower(g: Layout, c: Ref, n: Ref)
    requires n in g.span
  {
    c in g.span && Inside(g, c) < Inside(g, n)
  }

  /** Turning at n is put off as long as its child on the heavy side leans the other way and a double turn does not
      fit. In a valid tree the child is in the heap, and inside its parent's interval. */
  ghost function MendOf(h: Heap, g: Layout, n: Ref, right: bool): Mend
    requires n in g.span && n in h
    decreases Inside(g, n)
  {
    var c := Child(h[n], !right);
    if c !in h || !Lower(g, c, n) then Leave(n)
    else if h[c].height - Height(h, Child(h[n], right)) <= 1 then Leave(n)
    else if Height(h, Child(h[c], !right)) >= Height(h, Child(h[c], right)) then TurnAt(n, right)
    else if Doubles(h, c, right) then DoubleTurnAt(n, right)
    else MendOf(h, g, c, !right)
  }

  predicate Doubles(h: Heap, c: Ref, right: bool)
    requires c in h
  {
    var d := Child(h[c], right);
    d in h && DoubleFits(h, c, Height(h, Child(h[c], !right)), Height(h, Child(h[d], !right)))
  }

  /** The nodes at and below n are inside its interval, and n is not in that of its child. */
  lemma InsideOwn(h: Heap, g: Layout, held: map<int, int>, n: Ref, side: bool)
    requires Valid(h, g, held) && n in g.keys && n in g.span && n in h
    ensures n in Inside(g, n)
    ensures var c := Child(h[n], side);
            c != NULL ==> c in g.keys && c in g.span && c in h && Inside(g, c) <= Inside(g, n) && n !in Inside(g, c)
  {
    assert NodeOk(h, g, n);
    if Child(h[n], side) != NULL {
      ChildSmaller(h, g, held, n, side);
      ChildSpan(h, g, held, n, side);
    }
  }

  lemma LowerTwice(g: Layout, a: Ref, b: Ref, c: Ref)
    requires b in g.span && c in g.span && Lower(g, a, b) && Lower(g, b, c)
    ensures Lower(g, a, c)
  {
    hide Inside;
  }

  /** Only n itself or a node below is turned or left. */
  lemma {:induction false} MendBelow(h: Heap, g: Layout, n: Ref, right: bool)
    requires n in g.span && n in h
    ensures MendOf(h, g, n, right).x == n || Lower(g, MendOf(h, g, n, right).x, n)
    decreases Inside(g, n)
  {
    var c := Child(h[n], !right);
    if c in h && Lower(g, c, n) {
      MendBelow(h, g, c, !right);
      hide Inside, Doubles, Lower;
      if MendOf(h, g, c, !right).x != c {
        LowerTwice(g, MendOf(h, g, c, !right).x, c, n);
      }
    }
  }

  /** The child of n is left alone exactly if it leans by no more than one. */
  lemma LeavesChild(h: Heap, g: Layout, c: Ref, right: bool)
    requires c in g.span && c in h && Child(h[c], right) in h && Lower(g, Child(h[c], right), c)
    ensures MendOf(h, g, c, !right) == Leave(c) <==>
            h[Child(h[c], right)].height - Height(h, Child(h[c], !right)) <= 1
  {
    var d := Child(h[c], right);
    assert d in g.span && d != c;
    MendBelow(h, g, d, right);
    assert MendOf(h, g, d, right).x != c;
    hide Inside, Doubles, Lower;
  }

  /** A child of a node is lower, and in the heap. */
  lemma Placed(h: Heap, g: Layout, held: map<int, int>, n: Ref, side: bool)
    requires Valid(h, g, held) && NULL !in h && n in g.keys && n in g.span
    ensures n in h
    ensures var c := Child(h[n], side);
            if c == NULL then Height(h, c) == 0
            else c in h && c in g.keys && c in g.span && c != ROOT && Lower(g, c, n) && h[c].height >= 1
  {
    Around(h, g, held, n);
    if Child(h[n], side) != NULL {
      ChildSmaller(h, g, held, n, side);
    }
    hide Valid, Inside;
  }

  lemma LeansThisWay(h: Heap, g: Layout, n: Ref, right: bool)
    requires n in g.span && n in h && Child(h[n], !right) in h && Lower(g, Child(h[n], !right), n)
    requires h[Child(h[n], !right)].height - Height(h, Child(h[n], right)) > 1
    ensures var c := Child(h[n], !right);
            MendOf(h, g, n, right) ==
              if Height(h, Child(h[c], !right)) >= Height(h, Child(h[c], right)) then TurnAt(n, right)
              else if Doubles(h, c, right) then DoubleTurnAt(n, right)
              else MendOf(h, g, c, !right)
  {
    hide Inside, Doubles, Lower;
  }

  /** When rebalancing n, which is not at rest, comes to nothing and goes on to its child c, exactly: c leans the other
      way by one, and a double turn would leave it a routing node with a side to spare, or not level. If c is at rest,
      the repair of the tree ends there. */
  lemma StopsEarlyIff(h: Heap, g: Layout, held: map<int, int>, n: Ref, right: bool)
    requires Valid(h, g, held) && NULL !in h && n in g.keys && n in g.span && n != ROOT && n in h
    requires Child(h[n], !right) != NULL && Child(h[n], !right) in h
    requires h[Child(h[n], !right)].height - Height(h, Child(h[n], right)) > 1
    ensures !AtRest(h, n)
    ensures var c := Child(h[n], !right);
            var lean := Height(h, Child(h[c], right)) - Height(h, Child(h[c], !right));
            MendOf(h, g, n, right) == Leave(c) <==> lean == 1 && !Doubles(h, c, right)
  {
    var c := Child(h[n], !right);
    hide *;
    Placed(h, g, held, n, !right);
    Placed(h, g, held, n, right);
    Placed(h, g, held, c, right);
    Placed(h, g, held, c, !right);
    NotLevel(h, n, right);
    LeansThisWay(h, g, n, right);
    if Child(h[c], right) != NULL {
      LeavesChild(h, g, c, right);
    }
    HeightOfChild(h, c, right);
    HeightOfChild(h, c, !right);
  }

  lemma HeightOfChild(h: Heap, c: Ref, side: bool)
    requires c in h
    ensures Child(h[c], side) in h ==> Height(h, Child(h[c], side)) == h[Child(h[c], side)].height
  {
  }

  lemma NotLevel(h: Heap, n: Ref, right: bool)
    requires n in h && Child(h[n], !right) in h && h[Child(h[n], !right)].height - Height(h, Child(h[n], right)) > 1
    ensures !AtRest(h, n)
  {
  }

  ghost predicate Mended(h: Heap, m: Mend, h': Heap, damaged: Ref) {
    && m.x in h && m.x in h' && h[m.x].parent in h && h[m.x].parent in h'
    && var p := h[m.x].parent;
       var mid := WithHeight(h', p, h[p].height);
       match m
       case Leave(x) => h' == h && damaged == x
       case TurnAt(x, right) =>
         TurnedWell(h, x, right, mid) && LowestDamaged(mid, x, Child(h[x], !right), p, h', damaged)
       case DoubleTurnAt(x, right) =>
         DoubledWell(h, x, right, mid) && KnotAt(h, x, right).c in h' && AtRest(h', KnotAt(h, x, right).c)
         && LowestDamaged(mid, x, KnotAt(h, x, right).d, p, h', damaged)
  }

  // ----- the way down

  lemma ChildSmaller(h: Heap, g: Layout, held: map<int, int>, n: Ref, right: bool)
    requires Valid(h, g, held) && n in g.keys && n in g.span && Child(h[n], right) != NULL
    ensures Child(h[n], right) in g.keys && Child(h[n], right) in g.span
    ensures Inside(g, Child(h[n], right)) < Inside(g, n)
  {
    assert NodeOk(h, g, n);
    InsideShrinks(h, g, n, right);
  }

  lemma InHeap(h: Heap, g: Layout, held: map<int, int>, n: Ref)
    requires Valid(h, g, held)
    ensures n in g.keys ==> n in h && n in g.span && (h[n].parent != NULL ==> n != ROOT)
  {
  }

  lemma DoubledAccurate(h: Heap, n: Ref, right: bool, h': Heap)
    requires DoubledWell(h, n, right, h')
    ensures var k := KnotAt(h, n, right); Accurate(h', n) && Accurate(h', k.c) && Accurate(h', k.d)
  {
    hide DoublyTurned, DoubleReady, Accurate;
  }
}
