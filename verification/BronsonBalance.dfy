/** That the rebalancing of src/bst-lock2/bst_bronson_java.c restores balance: from a tree in which every node but one is at
    rest, and in which every node has a value, it leads upwards from that node, one node after the other, to a tree in
    which every node is at rest. At rest is: heights right, and those of the two subtrees no more than one apart.
 */
module BronsonBalance {
  import opened BronsonTree
  import opened BronsonSteps
  import opened BronsonReady

  // ----- links and heights, apart from keys

  ghost predicate ChildOk(h: Heap, q: set<Ref>, x: Ref, c: Ref)
    requires q <= h.Keys
  {
    c == NULL || (c in q && h[c].parent == x && h[c].height >= 1 && c != ROOT && c != x)
  }

  /** q are the nodes of the tree: children point back. */
  ghost predicate Hangs(h: Heap, q: set<Ref>) {
    && NULL !in h && q <= h.Keys
    && forall x :: x in q ==>
         ChildOk(h, q, x, h[x].left) && ChildOk(h, q, x, h[x].right) && (h[x].left == h[x].right ==> h[x].left == NULL)
  }

  lemma ValidHangs(h: Heap, g: Layout, held: map<int, int>)
    requires Valid(h, g, held)
    ensures Hangs(h, g.keys.Keys)
  {
    assert NULL !in h && g.keys.Keys <= h.Keys;
    hide Valid;
    forall x | x in g.keys
      ensures ChildOk(h, g.keys.Keys, x, h[x].left) && ChildOk(h, g.keys.Keys, x, h[x].right)
      ensures h[x].left == h[x].right ==> h[x].left == NULL
    {
      Around(h, g, held, x);
      ChildrenDiffer(h, g, held, x);
    }
  }

  lemma ChildrenDiffer(h: Heap, g: Layout, held: map<int, int>, x: Ref)
    requires Valid(h, g, held) && x in g.keys
    ensures x in h && (h[x].left == h[x].right ==> h[x].left == NULL)
  {
    Around(h, g, held, x);
    if x != ROOT {
      Apart(h, g, held, x);
    }
  }

  ghost predicate RestBut(h: Heap, q: set<Ref>, d: Ref) {
    q <= h.Keys && forall x :: x in q && x != ROOT && x != d ==> AtRest(h, x)
  }

  ghost predicate Whole(h: Heap, q: set<Ref>) {
    q <= h.Keys && forall x :: x in q && x != ROOT ==> h[x].value != 0
  }

  predicate Right(height: int, a: int, b: int) {
    Level(a, b) && height == 1 + Max(a, b)
  }

  /** The height was right before one of the two subtrees grew or shrank by one. */
  predicate Nearly(height: int, a: int, b: int) {
    || Right(height, a, b) || Right(height, a - 1, b) || Right(height, a + 1, b) || Right(height, a, b - 1)
    || Right(height, a, b + 1)
  }

  predicate NearRest(h: Heap, d: Ref)
    requires d in h
  {
    Nearly(h[d].height, Height(h, h[d].left), Height(h, h[d].right))
  }

  /** Every node is at rest, but perhaps d, one of whose subtrees has just grown or shrunk by one. */
  ghost predicate AvlBut(h: Heap, q: set<Ref>, d: Ref) {
    RestBut(h, q, d) && (d in q && d != ROOT ==> NearRest(h, d))
  }

  lemma RestIsRight(h: Heap, q: set<Ref>, x: Ref)
    requires Hangs(h, q) && x in q
    ensures Height(h, h[x].left) >= 0 && Height(h, h[x].right) >= 0
    ensures h[x].left == NULL <==> Height(h, h[x].left) == 0
    ensures h[x].right == NULL <==> Height(h, h[x].right) == 0
    ensures h[x].value != 0 ==> (AtRest(h, x) <==> Right(h[x].height, Height(h, h[x].left), Height(h, h[x].right)))
    ensures AtRest(h, x) ==> Right(h[x].height, Height(h, h[x].left), Height(h, h[x].right))
  {
    assert ChildOk(h, q, x, h[x].left) && ChildOk(h, q, x, h[x].right);
    hide Hangs;
  }

  /** Another node is as before if its own cell and the heights of its children are. */
  lemma RestSame(h: Heap, h': Heap, x: Ref)
    requires x in h && x in h' && h'[x].left == h[x].left && h'[x].right == h[x].right && h'[x].height == h[x].height
    requires h'[x].value == h[x].value
    requires Height(h', h[x].left) == Height(h, h[x].left) && Height(h', h[x].right) == Height(h, h[x].right)
    ensures AtRest(h', x) <==> AtRest(h, x)
  {
  }

  // ----- a height is repaired

  lemma FixOthers(h: Heap, q: set<Ref>, d: Ref, h': Heap, p: Ref, x: Ref)
    requires Hangs(h, q) && d in q && d in h' && h' == WithHeight(h, d, h'[d].height) && p == h[d].parent
    requires x in q && x != d && x != p
    ensures x in h' && (AtRest(h', x) <==> AtRest(h, x))
  {
    assert ChildOk(h, q, x, h[x].left) && ChildOk(h, q, x, h[x].right);
    RestSame(h, h', x);
  }

  lemma FixParent(h: Heap, q: set<Ref>, d: Ref, h': Heap, p: Ref)
    requires Hangs(h, q) && d in q && d in h' && h' == WithHeight(h, d, h'[d].height) && p in q && p != d && AtRest(h, p)
    requires NearRest(h, d) && AtRest(h', d) && Level(Height(h, h[d].left), Height(h, h[d].right))
    ensures p in h' && NearRest(h', p)
  {
    RestIsRight(h, q, p);
    RestIsRight(h, q, d);
    assert ChildOk(h, q, d, h[d].left) && ChildOk(h, q, d, h[d].right);
    assert ChildOk(h, q, p, h[p].left) && ChildOk(h, q, p, h[p].right) && (h[p].left == h[p].right ==> h[p].left == NULL);
    var now := h'[d].height;
    assert now == 1 + Max(Height(h, h[d].left), Height(h, h[d].right));
    assert -1 <= now - h[d].height <= 1;
  }

  lemma HeightNotLevel(h: Heap, q: set<Ref>, d: Ref)
    requires Hangs(h, q) && d in q && h[d].value != 0
    ensures IsHeight(NodeCondition(h, d)) || AtRest(h, d) ==> Level(Height(h, h[d].left), Height(h, h[d].right))
    ensures !IsHeight(NodeCondition(h, d)) && !AtRest(h, d) ==> !Level(Height(h, h[d].left), Height(h, h[d].right))
  {
    assert ChildOk(h, q, d, h[d].left) && ChildOk(h, q, d, h[d].right);
    hide Hangs;
  }

  lemma WholeStays(h: Heap, q: set<Ref>, d: Ref, v: int)
    requires Whole(h, q) && d in h
    ensures Whole(WithHeight(h, d, v), q)
  {
  }

  /** fix_height_nl at the damaged node passes the damage on to the parent, or ends it, unless a turn is needed. */
  lemma FixPasses(h: Heap, q: set<Ref>, d: Ref, h': Heap, damaged: Ref)
    requires Hangs(h, q) && AvlBut(h, q, d) && Whole(h, q) && d in q && d != ROOT && h[d].parent in q && h[d].parent != d
    requires HeightFixed(h, d, h', damaged)
    ensures AvlBut(h', q, damaged) && Whole(h', q)
    ensures damaged == d ==> h' == h && !Level(Height(h, h[d].left), Height(h, h[d].right))
    ensures damaged == d || damaged == NULL || damaged == h[d].parent
  {
    var p := h[d].parent;
    HeightNotLevel(h, q, d);
    if IsHeight(NodeCondition(h, d)) && !AtRest(h, d) {
      WholeStays(h, q, d, h'[d].height);
      hide Whole, AtRest, NearRest;
      forall x | x in q && x != ROOT && x != p ensures x in h' && AtRest(h', x) {
        if x != d {
          FixOthers(h, q, d, h', p, x);
        }
      }
      if p != ROOT {
        FixParent(h, q, d, h', p);
      }
    }
  }

  // ----- a turn

  lemma TurnOthers(h: Heap, q: set<Ref>, n: Ref, right: bool, h': Heap, x: Ref)
    requires Hangs(h, q) && TurnedWell(h, n, right, h') && n in q && x in q
    requires x != n && x != Child(h[n], !right) && x != h[n].parent
    ensures x in h' && (AtRest(h', x) <==> AtRest(h, x))
  {
    assert ChildOk(h, q, x, h[x].left) && ChildOk(h, q, x, h[x].right);
    assert ChildOk(h, q, n, h[n].left) && ChildOk(h, q, n, h[n].right);
    hide Hangs, Accurate;
    RestSame(h, h', x);
  }

  /** The heights about a damaged node n that needs a turn: a and l of its subtrees, e and d of those of the higher one. */
  lemma TurnNumbers(height: int, a: int, l: int, e: int, d: int)
    requires Nearly(height, a, l) || Nearly(height, l, a)
    requires a - l > 1 && Right(a, e, d)
    ensures a == l + 2 && (height == l + 2 || height == l + 3)
    ensures e >= d ==> e == l + 1 && (d == l || d == l + 1)
    ensures e < d ==> e == l && d == l + 1
  {
  }

  lemma TurnHeights(h: Heap, q: set<Ref>, n: Ref, right: bool, h': Heap)
    requires Hangs(h, q) && Hangs(h', q) && n in q && TurnedWell(h, n, right, h')
    ensures var c, l := Child(h[n], !right), Height(h, Child(h[n], right));
            var e, d := Height(h, Child(h[c], !right)), Height(h, Child(h[c], right));
            && c in q && h'[n].height == 1 + Max(d, l) && h'[c].height == 1 + Max(e, h'[n].height)
            && h'[n].value == h[n].value && h'[c].value == h[c].value
            && Height(h', Child(h'[n], right)) == l && Height(h', Child(h'[n], !right)) == d
            && Height(h', Child(h'[c], !right)) == e && Height(h', Child(h'[c], right)) == h'[n].height
  {
    var c := Child(h[n], !right);
    assert ChildOk(h, q, n, h[n].left) && ChildOk(h, q, n, h[n].right);
    assert ChildOk(h, q, c, h[c].left) && ChildOk(h, q, c, h[c].right);
  }

  lemma TurnNodes(h: Heap, q: set<Ref>, n: Ref, right: bool, h': Heap)
    requires Hangs(h, q) && Hangs(h', q) && AvlBut(h, q, n) && Whole(h, q) && n in q && n != ROOT && TurnedWell(h, n, right, h')
    requires var c := Child(h[n], !right);
             && c in q && c != ROOT && c != n && h[c].height - Height(h, Child(h[n], right)) > 1
             && Height(h, Child(h[c], !right)) >= Height(h, Child(h[c], right))
    ensures AtRest(h', n) && AtRest(h', Child(h[n], !right))
    ensures -1 <= h'[Child(h[n], !right)].height - h[n].height <= 1
  {
    var c := Child(h[n], !right);
    TurnHeights(h, q, n, right, h');
    RestIsRight(h, q, c);
    RestIsRight(h', q, c);
    RestIsRight(h', q, n);
    hide Hangs, TurnedWell, AtRest;
    TurnNumbers(h[n].height, h[c].height, Height(h, Child(h[n], right)), Height(h, Child(h[c], !right)),
                Height(h, Child(h[c], right)));
  }

  predicate HasParent(h: Heap, q: set<Ref>, n: Ref)
    requires n in h
  {
    var p := h[n].parent;
    p in q && p in h && p != n && (h[p].left == n || h[p].right == n)
  }

  /** A node at rest below which one subtree has been replaced by one at most one higher or lower */
  lemma ParentNear(h: Heap, q: set<Ref>, p: Ref, n: Ref, top: Ref, h': Heap)
    requires Hangs(h, q) && p in q && p in h' && n in h && AtRest(h, p) && (h[p].left == n || h[p].right == n) && n != NULL
    requires h'[p] == ReplaceChild(h[p], n, top) && -1 <= Height(h', top) - h[n].height <= 1
    requires var other := if h[p].left == n then h[p].right else h[p].left; Height(h', other) == Height(h, other)
    ensures NearRest(h', p)
  {
    RestIsRight(h, q, p);
    assert h[p].left != h[p].right;
    hide Hangs, AtRest;
  }

  lemma OtherChild(h: Heap, q: set<Ref>, p: Ref, n: Ref) returns (other: Ref)
    requires Hangs(h, q) && p in q && n in q && (h[p].left == n || h[p].right == n) && n != NULL && p != n
    ensures other == if h[p].left == n then h[p].right else h[p].left
    ensures other == NULL || (other in q && h[other].parent == p && other != n && other != p)
  {
    other := if h[p].left == n then h[p].right else h[p].left;
    assert h[p].left != h[p].right;
    assert ChildOk(h, q, p, h[p].left) && ChildOk(h, q, p, h[p].right);
  }

  lemma TurnParent(h: Heap, q: set<Ref>, n: Ref, right: bool, h': Heap)
    requires Hangs(h, q) && n in q && TurnedWell(h, n, right, h') && HasParent(h, q, n) && AtRest(h, h[n].parent)
    requires -1 <= h'[Child(h[n], !right)].height - h[n].height <= 1
    ensures h[n].parent in h' && NearRest(h', h[n].parent)
  {
    var p, c := h[n].parent, Child(h[n], !right);
    assert n != NULL;
    var other := OtherChild(h, q, p, n);
    assert ChildOk(h, q, n, h[n].left) && ChildOk(h, q, n, h[n].right);
    hide Hangs, AtRest, Accurate;
    assert Height(h', other) == Height(h, other);
    ParentNear(h, q, p, n, c, h');
  }

  lemma TurnWhole(h: Heap, q: set<Ref>, n: Ref, right: bool, h': Heap)
    requires Whole(h, q) && NULL !in h && TurnedWell(h, n, right, h')
    ensures Whole(h', q)
  {
    hide Accurate, Different;
    forall x | x in q && x != ROOT ensures x in h' && h'[x].value != 0 {
      assert h'[x].value == h[x].value;
    }
  }

  /** A single turn at the damaged node passes the damage on to the parent. */
  lemma TurnPasses(h: Heap, q: set<Ref>, n: Ref, right: bool, h': Heap)
    requires Hangs(h, q) && Hangs(h', q) && AvlBut(h, q, n) && Whole(h, q) && n in q && n != ROOT && TurnedWell(h, n, right, h')
    requires HasParent(h, q, n)
    requires var c := Child(h[n], !right);
             && c in q && c != ROOT && c != n && h[c].height - Height(h, Child(h[n], right)) > 1
             && Height(h, Child(h[c], !right)) >= Height(h, Child(h[c], right))
    ensures AtRest(h', n) && AtRest(h', Child(h[n], !right))
    ensures AvlBut(h', q, h[n].parent) && Whole(h', q)
  {
    var p, c := h[n].parent, Child(h[n], !right);
    TurnNodes(h, q, n, right, h');
    TurnWhole(h, q, n, right, h');
    if p != ROOT {
      TurnParent(h, q, n, right, h');
    }
    hide Whole, AtRest, NearRest, TurnedWell;
    forall x | x in q && x != ROOT && x != p ensures x in h' && AtRest(h', x) {
      if x != n && x != c {
        TurnOthers(h, q, n, right, h', x);
      }
    }
  }

  // ----- a double turn

  lemma DoubleOthers(h: Heap, q: set<Ref>, n: Ref, right: bool, h': Heap, x: Ref)
    requires Hangs(h, q) && DoubledWell(h, n, right, h') && n in q && x in q
    requires x != n && x != Child(h[n], !right) && x != h[n].parent && x != Child(h[Child(h[n], !right)], right)
    ensures x in h' && (AtRest(h', x) <==> AtRest(h, x))
  {
    var k := KnotAt(h, n, right);
    assert ChildOk(h, q, x, h[x].left) && ChildOk(h, q, x, h[x].right);
    assert ChildOk(h, q, n, h[n].left) && ChildOk(h, q, n, h[n].right);
    assert ChildOk(h, q, k.c, h[k.c].left) && ChildOk(h, q, k.c, h[k.c].right);
    hide Hangs, Accurate;
    RestSame(h, h', x);
  }

  lemma DoubleHeights(h: Heap, q: set<Ref>, n: Ref, right: bool, h': Heap)
    requires Hangs(h, q) && Hangs(h', q) && n in q && DoubledWell(h, n, right, h')
    ensures var k, l := KnotAt(h, n, right), Height(h, Child(h[n], right));
            var e, f, x := Height(h, Child(h[k.c], !right)), Height(h, k.f), Height(h, k.x);
            && k.c in q && k.d in q && h'[n].height == 1 + Max(x, l) && h'[k.c].height == 1 + Max(e, f)
            && h'[k.d].height == 1 + Max(h'[n].height, h'[k.c].height)
            && h'[n].value == h[n].value && h'[k.c].value == h[k.c].value && h'[k.d].value == h[k.d].value
            && Height(h', Child(h'[n], right)) == l && Height(h', Child(h'[n], !right)) == x
            && Height(h', Child(h'[k.c], !right)) == e && Height(h', Child(h'[k.c], right)) == f
            && Height(h', Child(h'[k.d], right)) == h'[n].height && Height(h', Child(h'[k.d], !right)) == h'[k.c].height
  {
    var k := KnotAt(h, n, right);
    assert ChildOk(h, q, n, h[n].left) && ChildOk(h, q, n, h[n].right);
    assert ChildOk(h, q, k.c, h[k.c].left) && ChildOk(h, q, k.c, h[k.c].right);
    assert ChildOk(h, q, k.d, h[k.d].left) && ChildOk(h, q, k.d, h[k.d].right);
    hide Hangs;
  }

  lemma DoubleNodes(h: Heap, q: set<Ref>, n: Ref, right: bool, h': Heap)
    requires Hangs(h, q) && Hangs(h', q) && AvlBut(h, q, n) && Whole(h, q) && n in q && n != ROOT && DoubledWell(h, n, right, h')
    requires var k := KnotAt(h, n, right);
             && k.c in q && k.c != ROOT && k.c != n && k.d in q && k.d != ROOT && k.d != n
             && h[k.c].height - Height(h, Child(h[n], right)) > 1
             && Height(h, Child(h[k.c], !right)) < Height(h, k.d)
    ensures var k := KnotAt(h, n, right);
            && AtRest(h', n) && AtRest(h', k.c) && AtRest(h', k.d) && -1 <= h'[k.d].height - h[n].height <= 1
  {
    var k := KnotAt(h, n, right);
    DoubleHeights(h, q, n, right, h');
    RestIsRight(h, q, k.c);
    RestIsRight(h, q, k.d);
    RestIsRight(h', q, k.c);
    RestIsRight(h', q, k.d);
    RestIsRight(h', q, n);
    assert Height(h, k.d) == h[k.d].height;
    hide Hangs, DoubledWell, AtRest;
    TurnNumbers(h[n].height, h[k.c].height, Height(h, Child(h[n], right)), Height(h, Child(h[k.c], !right)), Height(h, k.d));
  }

  lemma DoubleParent(h: Heap, q: set<Ref>, n: Ref, right: bool, h': Heap)
    requires Hangs(h, q) && n in q && DoubledWell(h, n, right, h') && HasParent(h, q, n) && AtRest(h, h[n].parent)
    requires -1 <= h'[KnotAt(h, n, right).d].height - h[n].height <= 1
    ensures h[n].parent in h' && NearRest(h', h[n].parent)
  {
    var p, k := h[n].parent, KnotAt(h, n, right);
    assert n != NULL;
    var other := OtherChild(h, q, p, n);
    assert ChildOk(h, q, n, h[n].left) && ChildOk(h, q, n, h[n].right);
    assert ChildOk(h, q, k.c, h[k.c].left) && ChildOk(h, q, k.c, h[k.c].right);
    hide Hangs, AtRest, Accurate;
    assert Height(h', other) == Height(h, other);
    ParentNear(h, q, p, n, k.d, h');
  }

  lemma DoubleWhole(h: Heap, q: set<Ref>, n: Ref, right: bool, h': Heap)
    requires Whole(h, q) && NULL !in h && DoubledWell(h, n, right, h')
    ensures Whole(h', q)
  {
    hide Accurate, DoubleReady;
    forall x | x in q && x != ROOT ensures x in h' && h'[x].value != 0 {
      assert h'[x].value == h[x].value;
    }
  }

  /** So does a double turn. */
  lemma DoublePasses(h: Heap, q: set<Ref>, n: Ref, right: bool, h': Heap)
    requires Hangs(h, q) && Hangs(h', q) && AvlBut(h, q, n) && Whole(h, q) && n in q && n != ROOT && DoubledWell(h, n, right, h')
    requires HasParent(h, q, n)
    requires var k := KnotAt(h, n, right);
             && k.c in q && k.c != ROOT && k.c != n && k.d in q && k.d != ROOT && k.d != n
             && h[k.c].height - Height(h, Child(h[n], right)) > 1
             && Height(h, Child(h[k.c], !right)) < Height(h, k.d)
    ensures AtRest(h', n) && AtRest(h', KnotAt(h, n, right).d)
    ensures AvlBut(h', q, h[n].parent) && Whole(h', q)
  {
    var p, k := h[n].parent, KnotAt(h, n, right);
    DoubleNodes(h, q, n, right, h');
    DoubleWhole(h, q, n, right, h');
    if p != ROOT {
      DoubleParent(h, q, n, right, h');
    }
    hide Whole, AtRest, NearRest, DoubledWell;
    forall x | x in q && x != ROOT && x != p ensures x in h' && AtRest(h', x) {
      if x != n && x != k.c && x != k.d {
        DoubleOthers(h, q, n, right, h', x);
      }
    }
  }

  // ----- one round of the repair

  /** With every node but n at rest, and none without a value, the turn is made at n itself. */
  lemma MendsHere(h: Heap, g: Layout, n: Ref, right: bool)
    requires Hangs(h, g.keys.Keys) && AvlBut(h, g.keys.Keys, n) && Whole(h, g.keys.Keys) && n in g.keys && n != ROOT
    requires n in g.span && Child(h[n], !right) in h && Child(h[n], !right) in g.keys && Lower(g, Child(h[n], !right), n)
    requires h[Child(h[n], !right)].height - Height(h, Child(h[n], right)) > 1
    ensures var c := Child(h[n], !right);
            MendOf(h, g, n, right) ==
              if Height(h, Child(h[c], !right)) >= Height(h, Child(h[c], right)) then TurnAt(n, right)
              else DoubleTurnAt(n, right)
  {
    var q, c := g.keys.Keys, Child(h[n], !right);
    assert c != n && c != ROOT && ChildOk(h, q, n, h[n].left) && ChildOk(h, q, n, h[n].right);
    var d, e := Child(h[c], right), Height(h, Child(h[c], !right));
    assert ChildOk(h, q, c, h[c].left) && ChildOk(h, q, c, h[c].right);
    RestIsRight(h, q, c);
    hide Inside, Lower;
    if e < Height(h, d) {
      assert d in q && d != n;
      RestIsRight(h, q, d);
      hide Hangs, AtRest;
      TurnNumbers(h[n].height, h[c].height, Height(h, Child(h[n], right)), e, Height(h, d));
      assert DoubleFits(h, c, e, Height(h, Child(h[d], !right)));
    }
  }

  lemma HangsHeight(h: Heap, q: set<Ref>, p: Ref, v: int)
    requires Hangs(h, q) && p in q && (p == ROOT || v >= 1)
    ensures Hangs(WithHeight(h, p, v), q)
  {
    var h' := WithHeight(h, p, v);
    forall x | x in q
      ensures ChildOk(h', q, x, h'[x].left) && ChildOk(h', q, x, h'[x].right) && (h'[x].left == h'[x].right ==> h'[x].left == NULL)
    {
      assert ChildOk(h, q, x, h[x].left) && ChildOk(h, q, x, h[x].right) && (h[x].left == h[x].right ==> h[x].left == NULL);
    }
  }

  lemma RootFixed(h: Heap, q: set<Ref>, h': Heap, damaged: Ref)
    requires Hangs(h, q) && RestBut(h, q, ROOT) && Whole(h, q) && ROOT in q && h[ROOT].parent == NULL
    requires HeightFixed(h, ROOT, h', damaged)
    ensures RestBut(h', q, NULL) && Whole(h', q) && (damaged == NULL || damaged == ROOT)
  {
    hide AtRest, NodeCondition;
    if h' != h {
      WholeStays(h, q, ROOT, h'[ROOT].height);
      forall x | x in q && x != ROOT ensures x in h' && AtRest(h', x) {
        FixOthers(h, q, ROOT, h', NULL, x);
      }
    }
  }

  /** What follows the turn: the parent's height is repaired. */
  lemma AfterTurn(mid: Heap, q: set<Ref>, p: Ref, h': Heap, damaged: Ref)
    requires Hangs(mid, q) && AvlBut(mid, q, p) && Whole(mid, q) && p in q && (p == ROOT ==> mid[p].parent == NULL)
    requires p != ROOT ==> mid[p].parent in q && mid[p].parent != p
    requires HeightFixed(mid, p, h', damaged)
    ensures AvlBut(h', q, damaged) && Whole(h', q)
    ensures damaged == NULL || damaged == p || damaged == mid[p].parent
  {
    if p == ROOT {
      RootFixed(mid, q, h', damaged);
    } else {
      FixPasses(mid, q, p, h', damaged);
    }
  }

  /** The parent of a node that is turned, before and after */
  lemma TurnKeepsAbove(h: Heap, n: Ref, right: bool, h': Heap)
    requires TurnedWell(h, n, right, h')
    ensures h[n].parent in h && h[n].parent in h' && h'[h[n].parent].parent == h[h[n].parent].parent
  {
  }

  lemma DoubleKeepsAbove(h: Heap, n: Ref, right: bool, h': Heap)
    requires DoubledWell(h, n, right, h')
    ensures h[n].parent in h && h[n].parent in h' && h'[h[n].parent].parent == h[h[n].parent].parent
  {
  }

  predicate ParentsThere(h: Heap, q: set<Ref>, n: Ref)
    requires n in h
  {
    && HasParent(h, q, n) && (h[n].parent == ROOT ==> h[ROOT].parent == NULL)
    && (h[n].parent != ROOT ==> HasParent(h, q, h[n].parent))
  }

  ghost predicate Heavy(h: Heap, g: Layout, n: Ref, right: bool) {
    && n in g.keys && n != ROOT && n in g.span && n in h
    && Child(h[n], !right) in h && Child(h[n], !right) in g.keys && Child(h[n], !right) != ROOT && Lower(g, Child(h[n], !right), n)
    && h[Child(h[n], !right)].height - Height(h, Child(h[n], right)) > 1
  }

  /** Mending the damaged node passes the damage on upwards, or ends it. */
  lemma MendPasses(h: Heap, g: Layout, n: Ref, right: bool, h': Heap, damaged: Ref)
    requires Hangs(h, g.keys.Keys) && Hangs(h', g.keys.Keys) && AvlBut(h, g.keys.Keys, n) && Whole(h, g.keys.Keys)
    requires Heavy(h, g, n, right) && ParentsThere(h, g.keys.Keys, n) && (h[n].parent != ROOT ==> h[h[n].parent].height >= 1)
    requires Mended(h, MendOf(h, g, n, right), h', damaged)
    ensures AvlBut(h', g.keys.Keys, damaged) && Whole(h', g.keys.Keys)
    ensures damaged == NULL || damaged == h[n].parent || damaged == h[h[n].parent].parent
  {
    var q, p, c := g.keys.Keys, h[n].parent, Child(h[n], !right);
    assert c != n && p in h && p in h';
    MendsHere(h, g, n, right);
    var mid := WithHeight(h', p, h[p].height);
    HangsHeight(h', q, p, h[p].height);
    hide Hangs, AvlBut, Whole, Inside, MendOf, TurnedWell, DoubledWell, HeightFixed, AtRest;
    if Height(h, Child(h[c], !right)) >= Height(h, Child(h[c], right)) {
      TurnPasses(h, q, n, right, mid);
      TurnKeepsAbove(h, n, right, mid);
    } else {
      DoublePasses(h, q, n, right, mid);
      DoubleKeepsAbove(h, n, right, mid);
    }
    AfterTurn(mid, q, p, h', damaged);
  }

  // ----- rounds of the repair, in a valid tree

  lemma ValidParents(h: Heap, g: Layout, held: map<int, int>, n: Ref)
    requires Valid(h, g, held) && n in g.keys && n != ROOT
    ensures n in h && ParentsThere(h, g.keys.Keys, n) && (h[n].parent != ROOT ==> h[h[n].parent].height >= 1)
  {
    Around(h, g, held, n);
    assert LinkOk(h, g, n) && RootOk(h, g);
    var p := h[n].parent;
    Around(h, g, held, p);
    if p != ROOT {
      assert LinkOk(h, g, p);
    }
    hide Valid;
  }

  lemma ValidHeavy(h: Heap, g: Layout, held: map<int, int>, n: Ref, right: bool)
    requires Valid(h, g, held) && NULL !in h && n in g.keys && n in g.span && n != ROOT && n in h
    requires Height(h, Child(h[n], !right)) - Height(h, Child(h[n], right)) > 1
    ensures Heavy(h, g, n, right)
  {
    hide Valid, Lower;
    Placed(h, g, held, n, !right);
    Placed(h, g, held, n, right);
  }

  lemma HeightRound(h: Heap, g: Layout, held: map<int, int>, n: Ref, h': Heap, damaged: Ref)
    requires Valid(h, g, held) && n in g.keys && n != ROOT && n in h
    requires AvlBut(h, g.keys.Keys, n) && Whole(h, g.keys.Keys) && HeightFixed(h, n, h', damaged)
    ensures AvlBut(h', g.keys.Keys, damaged) && Whole(h', g.keys.Keys)
    ensures damaged == n || damaged == NULL || damaged == h[n].parent
  {
    ValidHangs(h, g, held);
    ValidParents(h, g, held, n);
    hide Valid, Hangs, AvlBut, Whole, HeightFixed;
    FixPasses(h, g.keys.Keys, n, h', damaged);
  }

  lemma ValueNoUnlink(h: Heap, n: Ref)
    requires n in h && h[n].value != 0 && Height(h, h[n].left) >= 0 && Height(h, h[n].right) >= 0
    ensures NodeCondition(h, n) != UNLINK_REQUIRED
    ensures NodeCondition(h, n) == REBALANCE_REQUIRED ==>
              var right := Height(h, h[n].left) > Height(h, h[n].right);
              Height(h, Child(h[n], !right)) - Height(h, Child(h[n], right)) > 1
  {
  }

  lemma NoUnlink(h: Heap, g: Layout, held: map<int, int>, n: Ref)
    requires Valid(h, g, held) && Whole(h, g.keys.Keys) && n in g.keys && n != ROOT && n in h
    ensures NodeCondition(h, n) != UNLINK_REQUIRED
    ensures NodeCondition(h, n) == REBALANCE_REQUIRED ==>
              var right := Height(h, h[n].left) > Height(h, h[n].right);
              Height(h, Child(h[n], !right)) - Height(h, Child(h[n], right)) > 1
  {
    ValidHangs(h, g, held);
    hide Valid, NodeCondition, AtRest, Hangs;
    RestIsRight(h, g.keys.Keys, n);
    ValueNoUnlink(h, n);
  }

  lemma MendRound(h: Heap, g: Layout, held: map<int, int>, n: Ref, h': Heap, g': Layout, held': map<int, int>, damaged: Ref)
    requires Valid(h, g, held) && Valid(h', g', held') && g'.keys == g.keys && NULL !in h
    requires n in g.keys && n in g.span && n != ROOT && n in h && NodeCondition(h, n) == REBALANCE_REQUIRED
    requires AvlBut(h, g.keys.Keys, n) && Whole(h, g.keys.Keys)
    requires Mended(h, MendOf(h, g, n, Height(h, h[n].left) > Height(h, h[n].right)), h', damaged)
    ensures AvlBut(h', g.keys.Keys, damaged) && Whole(h', g.keys.Keys) && h[n].parent in h
    ensures damaged == NULL || damaged == h[n].parent || damaged == h[h[n].parent].parent
  {
    NoUnlink(h, g, held, n);
    hide Valid, Hangs, AvlBut, Whole, Mended, MendOf, NodeCondition, Heavy, ParentsThere;
    ValidHangs(h, g, held);
    ValidHangs(h', g', held');
    ValidParents(h, g, held, n);
    var right := Height(h, h[n].left) > Height(h, h[n].right);
    ValidHeavy(h, g, held, n, right);
    MendPasses(h, g, n, right, h', damaged);
  }

  /** A repair that stops where nothing is to be done has left every node at rest. */
  lemma StopsBalanced(h: Heap, q: set<Ref>, node: Ref)
    requires AvlBut(h, q, node) && (node in q && node != ROOT ==> AtRest(h, node))
    ensures RestBut(h, q, NULL)
  {
    hide AtRest;
  }

  // ----- going upwards

  /** Nodes that are not inside the interval of n keep theirs. */
  ghost predicate OutsideKept(g: Layout, g': Layout, n: Ref) {
    && g'.keys == g.keys && n in g.span
    && forall x :: x in g.keys && x in g.span && x !in Inside(g, n) ==> x in g'.span && g'.span[x] == g.span[x]
  }

  /** Only the intervals of these have changed. */
  predicate OnlyThese(g: Layout, g': Layout, these: set<Ref>) {
    g'.keys == g.keys && forall x :: x in g.span && x !in these ==> x in g'.span && g'.span[x] == g.span[x]
  }

  lemma TurnSpans(g: Layout, j: Joint, right: bool)
    requires j.n in g.span && j.c in g.keys
    ensures OnlyThese(g, TurnedLayout(g, j, right), {j.n, j.c})
  {
  }

  lemma DoubleSpans(h: Heap, g: Layout, k: Knot, right: bool)
    requires k.n in g.span && k.c in g.span && k.d in g.keys
    ensures OnlyThese(g, DoubledLayout(h, g, k, right), {k.n, k.c, k.d})
  {
  }

  lemma TheseInside(g: Layout, g': Layout, these: set<Ref>, n: Ref)
    requires OnlyThese(g, g', these) && n in g.span && these <= Inside(g, n)
    ensures OutsideKept(g, g', n)
  {
    hide Inside;
  }

  /** A child, and what is inside its interval, is inside that of the node. */
  lemma ChildInside(h: Heap, g: Layout, held: map<int, int>, n: Ref, side: bool)
    requires Valid(h, g, held) && n in g.keys && n in g.span && n in h && Child(h[n], side) != NULL
    ensures n in Inside(g, n)
    ensures var c := Child(h[n], side);
            c in g.keys && c in g.span && c in h && c in Inside(g, c) && Inside(g, c) <= Inside(g, n)
  {
    InsideOwn(h, g, held, n, side);
    hide Inside;
    InsideOwn(h, g, held, Child(h[n], side), side);
    hide Valid;
  }

  lemma TurnOutside(h: Heap, g: Layout, held: map<int, int>, n: Ref, right: bool)
    requires Valid(h, g, held) && n in g.keys && n in g.span && n in h && Child(h[n], !right) in h && Child(h[n], !right) != NULL
    ensures Child(h[n], !right) in g.keys && OutsideKept(g, TurnedLayout(g, JointAt(h, n, right), right), n)
  {
    hide Valid, Inside, OnlyThese, OutsideKept, TurnedLayout;
    ChildInside(h, g, held, n, !right);
    var j := JointAt(h, n, right);
    TurnSpans(g, j, right);
    hide *;
    TheseInside(g, TurnedLayout(g, j, right), {j.n, j.c}, n);
  }

  lemma DoubleOutside(h: Heap, g: Layout, held: map<int, int>, n: Ref, right: bool)
    requires Valid(h, g, held) && n in g.keys && n in g.span && n in h && Child(h[n], !right) in h && Child(h[n], !right) != NULL
    requires Child(h[Child(h[n], !right)], right) in h && Child(h[Child(h[n], !right)], right) != NULL
    ensures var k := KnotAt(h, n, right);
            k.n in g.span && k.c in g.span && k.d in g.keys && OutsideKept(g, DoubledLayout(h, g, k, right), n)
  {
    hide Valid, Inside, OnlyThese, OutsideKept, DoubledLayout;
    ChildInside(h, g, held, n, !right);
    ChildInside(h, g, held, Child(h[n], !right), right);
    var k := KnotAt(h, n, right);
    assert k.d in Inside(g, n);
    DoubleSpans(h, g, k, right);
    TheseInside(g, DoubledLayout(h, g, k, right), {k.n, k.c, k.d}, n);
  }

  /** What a double turn needs to know before it begins */
  lemma KnotFound(h: Heap, g: Layout, held: map<int, int>, n: Ref, right: bool, b: Ref, e: Ref)
    requires Valid(h, g, held) && n in g.keys && n != ROOT && n in h && NULL !in h
    requires Child(h[n], !right) in h && Child(h[Child(h[n], !right)], right) in h
    requires b == Child(h[n], right) && e == Child(h[Child(h[n], !right)], !right)
    ensures var k := KnotAt(h, n, right);
            && DoubleReady(h, k, right) && k.np in h && k.np in g.keys && k.c in g.keys && k.d in g.keys
            && n in g.span && k.c in g.span && (k.f != NULL ==> k.f in h) && (k.x != NULL ==> k.x in h)
            && Beside(k, b) && Beside(k, e) && Height(h, b) >= 0 && Height(h, e) >= 0
            && Height(h, k.f) >= 0 && Height(h, k.x) >= 0 && (k.f == NULL <==> Height(h, k.f) == 0)
            && OutsideKept(g, DoubledLayout(h, g, k, right), n)
    ensures (b == NULL <==> Height(h, b) == 0) && (e == NULL <==> Height(h, e) == 0)
  {
    hide Valid, DoubleReady, Beside, OutsideKept, DoubledLayout;
    KnotReady(h, g, held, n, right);
    KnotSides(h, g, held, n, right, b, e);
    DoubleOutside(h, g, held, n, right);
  }

  lemma SameOutside(g: Layout, n: Ref)
    requires n in g.span
    ensures OutsideKept(g, g, n)
  {
    hide Inside;
  }

  lemma BelowOutside(h: Heap, g: Layout, held: map<int, int>, n: Ref, side: bool, g': Layout)
    requires Valid(h, g, held) && n in g.keys && n in g.span && n in h && Child(h[n], side) != NULL
    requires Child(h[n], side) in g.span && OutsideKept(g, g', Child(h[n], side))
    ensures OutsideKept(g, g', n)
  {
    InsideOwn(h, g, held, n, side);
    hide Valid, Inside;
  }

  /** damaged is above n, and so are more nodes below it, or it is none that could be damaged. */
  ghost predicate Higher(g: Layout, n: Ref, g': Layout, damaged: Ref)
    requires n in g.span
  {
    damaged in g'.keys && damaged != ROOT ==> damaged in g'.span && |Inside(g', damaged)| > |Inside(g, n)|
  }

  lemma {:induction false} FewerInside(a: set<Ref>, b: set<Ref>)
    requires a <= b
    ensures |a| <= |b| && (a != b ==> |a| < |b|)
  {
    if a != {} {
      var x :| x in a;
      FewerInside(a - {x}, b - {x});
      assert a != b ==> a - {x} != b - {x};
    } else if b != {} {
      var x :| x in b;
    }
  }

  lemma SameInside(g: Layout, g': Layout, x: Ref)
    requires g'.keys == g.keys && x in g.span && x in g'.span && g'.span[x] == g.span[x]
    ensures Inside(g', x) == Inside(g, x)
  {
  }

  /** The parent of n holds more inside its interval than n, and keeps it. */
  lemma ParentHigher(h: Heap, g: Layout, held: map<int, int>, n: Ref, g': Layout, a: Ref)
    requires Valid(h, g, held) && n in g.keys && n != ROOT && n in g.span && n in h && a in g.span && OutsideKept(g, g', a)
    requires Inside(g, a) <= Inside(g, n)
    ensures var p := h[n].parent;
            && p in g.keys && p in g.span && p in g'.span && Inside(g', p) == Inside(g, p) && Inside(g, n) < Inside(g, p)
            && |Inside(g, n)| < |Inside(g, p)|
  {
    var p := h[n].parent;
    assert LinkOk(h, g, n) && p in g.span && p in h;
    var side := h[p].left != n;
    hide Valid, LinkOk;
    ParentOutside(h, g, held, n);
    InsideOwn(h, g, held, n, side);
    ChildSmaller(h, g, held, p, side);
    assert p !in Inside(g, n);
    hide Inside;
    SameInside(g, g', p);
    FewerInside(Inside(g, n), Inside(g, p));
  }

  /** From n the repair goes to its parent or the one above. */
  lemma GoesHigher(h: Heap, g: Layout, held: map<int, int>, n: Ref, g': Layout, damaged: Ref)
    requires Valid(h, g, held) && n in g.keys && n != ROOT && n in g.span && n in h && OutsideKept(g, g', n)
    requires h[n].parent in h && (damaged == NULL || damaged == h[n].parent || damaged == h[h[n].parent].parent)
    ensures Higher(g, n, g', damaged)
  {
    ParentHigher(h, g, held, n, g', n);
    var p := h[n].parent;
    if p != ROOT {
      ParentHigher(h, g, held, p, g', n);
    } else {
      assert h[ROOT].parent == NULL;
    }
    assert NULL !in g.keys;
    hide Valid, Inside;
  }

  // ----- what an update does before the repair

  lemma InsertOthers(h: Heap, q: set<Ref>, p: Ref, right: bool, k: int, v: int, r: Ref, h': Heap, x: Ref)
    requires Hangs(h, q) && p in q && r !in h && r != NULL && x in q && x != p
    requires h' == h[r := NewLeaf(p, k, v)][p := WithChild(h[p], right, r)]
    ensures x in h' && h'[x].value == h[x].value && (AtRest(h', x) <==> AtRest(h, x))
  {
    assert ChildOk(h, q, x, h[x].left) && ChildOk(h, q, x, h[x].right);
    hide Hangs;
    RestSame(h, h', x);
  }

  lemma LeafRests(h: Heap, q: set<Ref>, p: Ref, right: bool, k: int, v: int, r: Ref, h': Heap)
    requires NULL !in h && p in h && r !in h && r != NULL && v != 0
    requires h' == h[r := NewLeaf(p, k, v)][p := WithChild(h[p], right, r)]
    ensures r in h' && h'[r].value != 0 && AtRest(h', r)
  {
    assert h'[r] == NewLeaf(p, k, v);
  }

  lemma InsertParent(h: Heap, q: set<Ref>, p: Ref, right: bool, k: int, v: int, r: Ref, h': Heap)
    requires Hangs(h, q) && p in q && Child(h[p], right) == NULL && AtRest(h, p) && r !in h && r != NULL
    requires h' == h[r := NewLeaf(p, k, v)][p := WithChild(h[p], right, r)]
    ensures p in h' && h'[p].value == h[p].value && NearRest(h', p)
  {
    RestIsRight(h, q, p);
    assert ChildOk(h, q, p, h[p].left) && ChildOk(h, q, p, h[p].right);
    hide Hangs, AtRest;
    assert Height(h', Child(h[p], !right)) == Height(h, Child(h[p], !right)) && Height(h', r) == 1;
  }

  /** A new leaf leaves all other nodes at rest, and its parent with a subtree that has grown by one. */
  lemma InsertPasses(h: Heap, q: set<Ref>, p: Ref, right: bool, k: int, v: int, r: Ref, h': Heap)
    requires Hangs(h, q) && RestBut(h, q, NULL) && Whole(h, q) && p in q && Child(h[p], right) == NULL
    requires r !in h && r != NULL && r != ROOT && v != 0
    requires h' == h[r := NewLeaf(p, k, v)][p := WithChild(h[p], right, r)]
    ensures AvlBut(h', q + {r}, p) && Whole(h', q + {r})
  {
    assert NULL !in h && q <= h.Keys && p != NULL && h'.Keys == h.Keys + {r};
    hide Hangs, AtRest, NearRest;
    LeafRests(h, q, p, right, k, v, r, h');
    if p != ROOT {
      InsertParent(h, q, p, right, k, v, r, h');
    }
    forall x | x in q + {r} && x != ROOT && x != p ensures x in h' && AtRest(h', x) && h'[x].value != 0 {
      if x in q {
        InsertOthers(h, q, p, right, k, v, r, h', x);
      }
    }
  }

  /** An unlink leaves all others at rest, and the parent with a subtree that has shrunk by one. */
  lemma UnlinkOthers(h: Heap, q: set<Ref>, p: Ref, n: Ref, s: Ref, h': Heap, x: Ref)
    requires Hangs(h, q) && Unlinked(h, p, n, s, h') && n in q && h[n].parent == p && x in q && x != n && x != p
    requires s == NULL || (s in q && h[s].parent == n)
    ensures x in h' && h'[x].value == h[x].value && (AtRest(h', x) <==> AtRest(h, x))
  {
    assert ChildOk(h, q, x, h[x].left) && ChildOk(h, q, x, h[x].right);
    hide Hangs;
    RestSame(h, h', x);
  }

  lemma UnlinkParent(h: Heap, q: set<Ref>, p: Ref, n: Ref, s: Ref, h': Heap)
    requires Hangs(h, q) && Unlinked(h, p, n, s, h') && n in q && p in q && p != n && AtRest(h, p) && AtRest(h, n) && n != NULL
    requires (h[p].left == n || h[p].right == n) && (h[n].left == NULL || h[n].right == NULL)
    requires s == (if h[n].left != NULL then h[n].left else h[n].right)
    ensures p in h' && NearRest(h', p)
  {
    RestIsRight(h, q, n);
    var other := OtherChild(h, q, p, n);
    assert ChildOk(h, q, n, h[n].left) && ChildOk(h, q, n, h[n].right);
    assert Height(h', s) == Height(h, s);
    assert s == NULL || h[s].parent == n;
    assert Height(h', other) == Height(h, other);
    hide Hangs, AtRest;
    ParentNear(h, q, p, n, s, h');
  }

  lemma UnlinkPasses(h: Heap, q: set<Ref>, p: Ref, n: Ref, s: Ref, h': Heap)
    requires Hangs(h, q) && RestBut(h, q, NULL) && Whole(h, q) && Unlinked(h, p, n, s, h') && n in q && p in q && n != ROOT
    requires h[n].parent == p && (h[p].left == n || h[p].right == n) && (h[n].left == NULL || h[n].right == NULL)
    requires s == (if h[n].left != NULL then h[n].left else h[n].right)
    ensures AvlBut(h', q - {n}, p) && Whole(h', q - {n})
  {
    assert n != NULL && AtRest(h, n) && (p != ROOT ==> AtRest(h, p)) && h'.Keys == h.Keys && p != n;
    assert ChildOk(h, q, n, h[n].left) && ChildOk(h, q, n, h[n].right);
    assert p != ROOT ==> h'[p].value == h[p].value;
    assert Whole(h, q);
    hide AtRest, NearRest, Unlinked, Hangs;
    if p != ROOT {
      UnlinkParent(h, q, p, n, s, h');
    }
    forall x | x in q - {n} && x != ROOT && x != p ensures x in h' && AtRest(h', x) && h'[x].value != 0 {
      UnlinkOthers(h, q, p, n, s, h', x);
    }
  }

  /** The height of the node where the tree has changed is repaired; that may be the root. */
  lemma FirstRepair(h: Heap, g: Layout, held: map<int, int>, n: Ref, h': Heap, damaged: Ref)
    requires Valid(h, g, held) && n in g.keys && n in h && AvlBut(h, g.keys.Keys, n) && Whole(h, g.keys.Keys)
    requires HeightFixed(h, n, h', damaged)
    ensures AvlBut(h', g.keys.Keys, damaged) && Whole(h', g.keys.Keys)
  {
    if n == ROOT {
      assert h[ROOT].parent == NULL;
      ValidHangs(h, g, held);
      hide Valid, Hangs, Whole, HeightFixed, AtRest;
      RootFixed(h, g.keys.Keys, h', damaged);
    } else {
      hide Valid, AvlBut, Whole, HeightFixed;
      HeightRound(h, g, held, n, h', damaged);
    }
  }

  /** A value that is changed where two children are leaves every node at rest. */
  lemma ValueRests(h: Heap, q: set<Ref>, n: Ref, v: int)
    requires RestBut(h, q, NULL) && n in q && NULL !in h && (v != 0 || (h[n].left != NULL && h[n].right != NULL))
    ensures RestBut(h[n := h[n].(value := v)], q, NULL)
    ensures Whole(h, q) && v != 0 ==> Whole(h[n := h[n].(value := v)], q)
  {
    var h' := h[n := h[n].(value := v)];
    forall x | x in q && x != ROOT ensures AtRest(h', x) {
      assert AtRest(h, x);
      assert Height(h', h[x].left) == Height(h, h[x].left) && Height(h', h[x].right) == Height(h, h[x].right);
    }
  }

  lemma UnlinkBalanced(h: Heap, g: Layout, held: map<int, int>, p: Ref, n: Ref, s: Ref, h': Heap)
    requires Valid(h, g, held) && n in g.keys && n != ROOT && n in h && p == h[n].parent
    requires RestBut(h, g.keys.Keys, NULL) && Whole(h, g.keys.Keys) && Unlinked(h, p, n, s, h')
    requires (h[n].left == NULL || h[n].right == NULL) && s == (if h[n].left != NULL then h[n].left else h[n].right)
    ensures AvlBut(h', Without(g, n).keys.Keys, p) && Whole(h', Without(g, n).keys.Keys)
  {
    ValidHangs(h, g, held);
    ValidParents(h, g, held, n);
    assert Without(g, n).keys.Keys == g.keys.Keys - {n};
    hide Valid, Hangs, AvlBut, RestBut, Whole, Unlinked, Without;
    UnlinkPasses(h, g.keys.Keys, p, n, s, h');
  }

  lemma InsertBalanced(h: Heap, g: Layout, held: map<int, int>, p: Ref, right: bool, k: int, v: int, r: Ref, h': Heap)
    requires Valid(h, g, held) && p in g.keys && p in g.span && p in h && Child(h[p], right) == NULL
    requires RestBut(h, g.keys.Keys, NULL) && Whole(h, g.keys.Keys) && r !in h && r != NULL && r != ROOT && v != 0
    requires h' == h[r := NewLeaf(p, k, v)][p := WithChild(h[p], right, r)]
    ensures AvlBut(h', WithLeaf(g, p, right, k, r).keys.Keys, p) && Whole(h', WithLeaf(g, p, right, k, r).keys.Keys)
  {
    ValidHangs(h, g, held);
    assert WithLeaf(g, p, right, k, r).keys.Keys == g.keys.Keys + {r};
    hide Valid, Hangs, AvlBut, RestBut, Whole, WithLeaf;
    InsertPasses(h, g.keys.Keys, p, right, k, v, r, h');
  }

  lemma LeafIsNew(h: Heap, g: Layout, held: map<int, int>, p: Ref, right: bool, k: int, r: Ref)
    requires Valid(h, g, held) && p in g.keys && p in g.span && r !in h
    ensures |WithLeaf(g, p, right, k, r).keys| == |g.keys| + 1
  {
    assert r !in g.keys;
  }

  lemma WithoutFewer(g: Layout, n: Ref)
    ensures |Without(g, n).keys| <= |g.keys|
  {
    FewerInside(Without(g, n).keys.Keys, g.keys.Keys);
  }

  /** The height of the root is nobody's concern. */
  lemma RootHeight(h: Heap, g: Layout, held: map<int, int>, v: int)
    requires Valid(h, g, held) && AvlBut(h, g.keys.Keys, ROOT) && Whole(h, g.keys.Keys) && ROOT in h
    ensures RestBut(WithHeight(h, ROOT, v), g.keys.Keys, NULL) && Whole(WithHeight(h, ROOT, v), g.keys.Keys)
  {
    ValidHangs(h, g, held);
    assert h[ROOT].parent == NULL && NULL !in g.keys;
    WholeStays(h, g.keys.Keys, ROOT, v);
    hide Valid, Whole, Hangs, AtRest;
    var h' := WithHeight(h, ROOT, v);
    forall x | x in g.keys && x != ROOT ensures AtRest(h', x) {
      FixOthers(h, g.keys.Keys, ROOT, h', NULL, x);
    }
  }
}
