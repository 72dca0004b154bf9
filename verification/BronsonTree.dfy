/** The nodes of the partially external AVL tree of src/bst-lock2/bst_bronson_java.c and .h, as one thread finds them,
    and what holds of them between its steps.

    The proofs give every node of the tree an interval (lo, hi) in which the keys below it lie. An interval may be
    smaller than the room that the nodes above leave, but then the rest of the room holds no key. So an unlink changes
    no interval, and a rotation only those of the nodes it turns.
 */
module BronsonTree {
  type Ref = nat

  const NULL: Ref := 0

  /** What bst_initialize returns; the tree is its right child. */
  const ROOT: Ref := 1

  /** The room between two bounds outside which no key lies: the differences of the keys inside fit in an int. */
  const ROOM := 0x8000_0001

  const NOT_FOUND := 2
  const RETRY := 3

  const UINT64 := 0x1_0000_0000_0000_0000

  const UNLINKED_OVL := 2

  /** ovl | 1 */
  function BeginChange(ovl: nat): nat {
    if ovl % 2 == 0 then ovl + 1 else ovl
  }

  /** (ovl | 3) + 1 */
  function EndChange(ovl: nat): nat {
    var next := ovl - ovl % 4 + 4;
    if next < UINT64 then next else next - UINT64
  }

  predicate IsUnlinked(ovl: nat) {
    ovl % 4 >= 2
  }

  predicate IsShrinkingOrUnlinked(ovl: nat) {
    ovl % 4 != 0
  }

  lemma FourDivides(q: int)
    ensures (4 * q) % 4 == 0 && (4 * q + 1) % 4 == 1
  {
  }

  lemma EndIsMultiple(ovl: nat)
    requires ovl < UINT64 && ovl % 4 == 0
    ensures EndChange(ovl) < UINT64 && EndChange(ovl) % 4 == 0
  {
    var q := ovl / 4;
    assert ovl == 4 * q;
    if ovl + 4 < UINT64 {
      assert EndChange(ovl) == 4 * (q + 1);
      FourDivides(q + 1);
    } else {
      assert EndChange(ovl) == 4 * (q + 1 - UINT64 / 4);
      FourDivides(q + 1 - UINT64 / 4);
    }
  }

  /** A change leads from a quiet version to another, and is neither quiet nor an unlink itself. */
  lemma ChangeEnds(ovl: nat)
    requires ovl < UINT64 && !IsShrinkingOrUnlinked(ovl)
    ensures EndChange(ovl) < UINT64 && !IsShrinkingOrUnlinked(EndChange(ovl))
    ensures IsShrinkingOrUnlinked(BeginChange(ovl)) && !IsUnlinked(BeginChange(ovl))
    ensures !IsUnlinked(ovl) && IsUnlinked(UNLINKED_OVL)
  {
    EndIsMultiple(ovl);
    FourDivides(ovl / 4);
    hide EndChange;
  }

  function Max(a: int, b: int): int {
    if a > b then a else b
  }

  /** union node_t without its lock */
  datatype Node = Node(height: int, key: int, value: int, version: nat, parent: Ref, left: Ref, right: Ref)

  type Heap = map<Ref, Node>

  /** CHILD */
  function Child(n: Node, right: bool): Ref {
    if right then n.right else n.left
  }

  /** set_child */
  function WithChild(n: Node, right: bool, c: Ref): Node {
    if right then n.(right := c) else n.(left := c)
  }

  /** HEIGHT; NULL is in no heap. */
  function Height(h: Heap, n: Ref): int {
    if n in h then h[n].height else 0
  }

  // ----- where keys lie

  type Keys = map<Ref, int>

  datatype Span = Span(lo: int, hi: int)

  /** The nodes of the tree: their keys, with bot for the root, and their intervals. All keys lie between bot and
      top. */
  datatype Layout = Layout(bot: int, top: int, keys: Keys, span: map<Ref, Span>)

  predicate KeyOk(g: Layout, k: int) {
    g.bot < k < g.top
  }

  ghost predicate NoneIn(q: Keys, lo: int, hi: int) {
    forall m :: m in q ==> !(lo < q[m] < hi)
  }

  /** All keys in (lo, hi) are in (l, u). */
  ghost predicate Covers(q: Keys, lo: int, hi: int, l: int, u: int) {
    forall m :: m in q && lo < q[m] < hi ==> l < q[m] < u
  }

  ghost predicate KeysDiffer(q: Keys) {
    forall m, n :: m in q && n in q && q[m] == q[n] ==> m == n
  }

  /** The keys in (a, k) lie in (l, h), so on either side of c they are where those of (l, h) are. */
  lemma Inherit(q: Keys, a: int, k: int, l: int, h: int, c: int)
    requires Covers(q, a, k, l, h) && a <= l < c < h <= k
    ensures NoneIn(q, l, c) ==> NoneIn(q, a, c)
    ensures NoneIn(q, c, h) ==> NoneIn(q, c, k)
    ensures forall x, y :: Covers(q, l, c, x, y) ==> Covers(q, a, c, x, y)
    ensures forall x, y :: Covers(q, c, h, x, y) ==> Covers(q, c, k, x, y)
  {
  }

  // ----- the tree

  ghost predicate Dom(h: Heap, g: Layout) {
    && ROOT in g.keys && g.keys[ROOT] == g.bot && NULL !in h
    && g.span.Keys == g.keys.Keys && g.keys.Keys <= h.Keys
  }

  /** The keys between Low and High belong to that side of n. */
  ghost function Low(g: Layout, n: Ref, right: bool): int
    requires n in g.keys && n in g.span
  {
    if right then g.keys[n] else g.span[n].lo
  }

  ghost function High(g: Layout, n: Ref, right: bool): int
    requires n in g.keys && n in g.span
  {
    if right then g.span[n].hi else g.keys[n]
  }

  /** c is all there is on that side of n. */
  ghost predicate Fits(h: Heap, g: Layout, n: Ref, right: bool, c: Ref)
    requires Dom(h, g) && n in g.keys
  {
    var lo, hi := Low(g, n, right), High(g, n, right);
    if c == NULL then NoneIn(g.keys, lo, hi)
    else c in g.keys && c != ROOT && h[c].parent == n && lo <= g.span[c].lo && g.span[c].hi <= hi
         && Covers(g.keys, lo, hi, g.span[c].lo, g.span[c].hi)
  }

  ghost predicate NodeOk(h: Heap, g: Layout, n: Ref)
    requires Dom(h, g) && n in g.keys
  {
    && g.span[n].lo < g.keys[n] < g.span[n].hi
    && Fits(h, g, n, false, h[n].left) && Fits(h, g, n, true, h[n].right)
  }

  /** The link up agrees with a link down. */
  ghost predicate LinkOk(h: Heap, g: Layout, n: Ref)
    requires Dom(h, g) && n in g.keys
  {
    var p := h[n].parent;
    p in g.keys && (h[p].left == n || h[p].right == n)
  }

  /** The node says of its key what the map does. */
  ghost predicate EntryOk(h: Heap, g: Layout, held: map<int, int>, n: Ref)
    requires Dom(h, g) && n in g.keys
  {
    var x := h[n];
    && x.key == g.keys[n] && KeyOk(g, x.key) && x.height >= 1 && x.version < UINT64 && !IsShrinkingOrUnlinked(x.version)
    && (x.value != 0 ==> x.key in held && held[x.key] == x.value)
    && (x.value == 0 ==> x.key !in held)
  }

  ghost predicate RootOk(h: Heap, g: Layout)
    requires Dom(h, g)
  {
    var x := h[ROOT];
    && x.parent == NULL && x.left == NULL && x.value == 0 && x.version == 0
    && g.span[ROOT] == Span(g.bot - 1, g.top) && g.bot < g.top <= g.bot + ROOM
  }

  ghost predicate HasKey(q: Keys, k: int) {
    exists n :: n in q && n != ROOT && q[n] == k
  }

  /** What is not in the tree has been unlinked. */
  ghost predicate AllKnown(h: Heap, g: Layout) {
    forall r :: r in h ==> r in g.keys || h[r].version == UNLINKED_OVL
  }

  /** The heap is a search tree in which every node points back at its parent, and holds exactly the map. */
  ghost predicate Valid(h: Heap, g: Layout, held: map<int, int>) {
    && Dom(h, g) && RootOk(h, g) && KeysDiffer(g.keys)
    && (forall n :: n in g.keys ==> NodeOk(h, g, n))
    && (forall n :: n in g.keys && n != ROOT ==> LinkOk(h, g, n) && EntryOk(h, g, held, n))
    && (forall k :: k in held ==> HasKey(g.keys, k))
    && AllKnown(h, g)
  }

  /** Parent and child are different nodes, as their intervals are nested, and it is a child on one side only. */
  lemma Apart(h: Heap, g: Layout, held: map<int, int>, n: Ref)
    requires Valid(h, g, held) && n in g.keys && n != ROOT
    ensures var p := h[n].parent;
            && p in g.keys && p != n && h[n].left != p && h[n].right != p && h[n].left != n && h[n].right != n
            && (h[n].left != NULL ==> h[n].left != h[n].right)
            && (h[p].left == n ==> h[p].right != n && g.span[p].lo <= g.span[n].lo && g.span[n].hi <= g.keys[p])
            && (h[p].left != n ==> h[p].right == n && g.keys[p] <= g.span[n].lo && g.span[n].hi <= g.span[p].hi)
  {
    var p, l, r := h[n].parent, h[n].left, h[n].right;
    assert LinkOk(h, g, n) && NodeOk(h, g, n) && NodeOk(h, g, p);
    assert (l != NULL ==> NodeOk(h, g, l)) && (r != NULL ==> NodeOk(h, g, r));
  }

  // ----- single rotations

  /** n replaced by c among the children of p */
  function ReplaceChild(p: Node, n: Ref, c: Ref): Node {
    if p.left == n then p.(left := c) else p.(right := c)
  }

  function SetParent(h: Heap, n: Ref, p: Ref): Heap
    requires n == NULL || n in h
  {
    if n == NULL then h else h[n := h[n].(parent := p)]
  }

  /** The nodes that a turn concerns: n below np, its child c, the child d of c towards the other side of n, and the
      other child e of c. */
  datatype Joint = Joint(np: Ref, n: Ref, c: Ref, d: Ref, e: Ref)

  function JointAt(h: Heap, n: Ref, right: bool): Joint
    requires n in h && Child(h[n], !right) in h
  {
    var c := Child(h[n], !right);
    Joint(h[n].parent, n, c, Child(h[c], right), Child(h[c], !right))
  }

  predicate Different(j: Joint) {
    && j.np != j.n && j.np != j.c && j.np != j.d && j.n != j.c && j.n != j.d && j.c != j.d
    && j.e != j.np && j.e != j.n && j.e != j.c && (j.d != NULL ==> j.e != j.d)
    && j.n != ROOT && j.c != ROOT && j.d != ROOT && j.e != ROOT
  }

  /** h' is h after c has been lifted over n to the one side, with new heights. */
  ghost predicate Turned(h: Heap, j: Joint, right: bool, h': Heap)
  {
    && j.np in h && j.n in h && j.c in h && (j.d == NULL || j.d in h) && h'.Keys == h.Keys
    && (forall x :: x in h && x != j.np && x != j.n && x != j.c && x != j.d ==> h'[x] == h[x])
    && h'[j.np] == ReplaceChild(h[j.np], j.n, j.c) && (j.d != NULL ==> h'[j.d] == h[j.d].(parent := j.n))
    && h'[j.c] == WithChild(h[j.c], right, j.n).(parent := j.np, height := h'[j.c].height)
    && h'[j.n] == WithChild(h[j.n], !right, j.d).(parent := j.c, height := h'[j.n].height,
       version := EndChange(h[j.n].version))
    && h'[j.c].height >= 1 && h'[j.n].height >= 1
  }

  /** c gets the interval of n, and n the part of it on its side of c. */
  ghost function TurnedLayout(g: Layout, j: Joint, right: bool): (r: Layout)
    requires j.n in g.span && j.c in g.keys
    ensures r.bot == g.bot && r.top == g.top && r.keys == g.keys
  {
    var s, k := g.span[j.n], g.keys[j.c];
    g.(span := g.span[j.c := s][j.n := if right then Span(k, s.hi) else Span(s.lo, k)])
  }

  /** The facts about the nodes of a turn before and after that the lemmas below use. */
  ghost predicate Turn(h: Heap, g: Layout, j: Joint, right: bool, h': Heap, g': Layout) {
    && Dom(h, g) && Different(j)
    && j.np in g.keys && j.n in g.keys && j.c in g.keys && (j.d == NULL || j.d in g.keys)
    && j.c == Child(h[j.n], !right) && j == JointAt(h, j.n, right)
    && Turned(h, j, right, h') && g' == TurnedLayout(g, j, right)
  }

  lemma TurnDom(h: Heap, g: Layout, j: Joint, right: bool, h': Heap, g': Layout)
    requires Turn(h, g, j, right, h', g')
    ensures Dom(h', g') && g'.keys == g.keys && j.n in g.keys && j.n != ROOT
  {
  }

  lemma TurnLower(h: Heap, g: Layout, j: Joint, right: bool, h': Heap, g': Layout)
    requires Turn(h, g, j, right, h', g') && Dom(h', g')
    requires NodeOk(h, g, j.n) && NodeOk(h, g, j.c)
    ensures NodeOk(h', g', j.n)
  {
    hide Covers, NoneIn, KeysDiffer;
    Inherit(g.keys, Low(g, j.n, !right), High(g, j.n, !right), g.span[j.c].lo, g.span[j.c].hi, g.keys[j.c]);
  }

  lemma TurnUpper(h: Heap, g: Layout, j: Joint, right: bool, h': Heap, g': Layout)
    requires Turn(h, g, j, right, h', g') && Dom(h', g')
    requires NodeOk(h, g, j.n) && NodeOk(h, g, j.c)
    ensures NodeOk(h', g', j.c)
  {
    assert Covers(g.keys, g'.span[j.n].lo, g'.span[j.n].hi, g'.span[j.n].lo, g'.span[j.n].hi);
    hide Covers, NoneIn, KeysDiffer;
    Inherit(g.keys, Low(g, j.n, !right), High(g, j.n, !right), g.span[j.c].lo, g.span[j.c].hi, g.keys[j.c]);
  }

  lemma TurnAbove(h: Heap, g: Layout, j: Joint, right: bool, h': Heap, g': Layout)
    requires Turn(h, g, j, right, h', g') && Dom(h', g')
    requires NodeOk(h, g, j.np) && NodeOk(h, g, j.n) && NodeOk(h, g, j.c) && LinkOk(h, g, j.n)
    ensures NodeOk(h', g', j.np)
  {
    hide Covers, NoneIn, KeysDiffer;
  }

  lemma TurnRest(h: Heap, g: Layout, j: Joint, right: bool, h': Heap, g': Layout, x: Ref)
    requires Turn(h, g, j, right, h', g') && Dom(h', g')
    requires x in g.keys && x != j.n && x != j.c && x != j.np
    requires NodeOk(h, g, x) && NodeOk(h, g, j.n) && NodeOk(h, g, j.c)
    ensures NodeOk(h', g', x)
  {
    hide Covers, NoneIn, KeysDiffer;
  }

  lemma TurnLinks(h: Heap, g: Layout, j: Joint, right: bool, h': Heap, g': Layout, x: Ref)
    requires Turn(h, g, j, right, h', g') && Dom(h', g')
    requires x in g.keys && LinkOk(h, g, x) && LinkOk(h, g, j.n)
    ensures LinkOk(h', g', x)
  {
  }

  lemma TurnEntries(h: Heap, g: Layout, held: map<int, int>, j: Joint, right: bool, h': Heap, g': Layout, x: Ref)
    requires Turn(h, g, j, right, h', g') && Dom(h', g')
    requires x in g.keys && EntryOk(h, g, held, x)
    ensures EntryOk(h', g', held, x)
  {
    ChangeEnds(h[x].version);
    hide EndChange, IsShrinkingOrUnlinked;
  }

  lemma JointApart(h: Heap, g: Layout, held: map<int, int>, n: Ref, right: bool)
    requires Valid(h, g, held) && n in g.keys && n != ROOT && Child(h[n], !right) != NULL
    ensures h[n].parent in g.keys && Child(h[n], !right) in g.keys && Child(h[n], !right) in h
    ensures var j := JointAt(h, n, right);
            Different(j) && (j.d == NULL || j.d in g.keys) && (j.e == NULL || j.e in g.keys)
  {
    var np, c := h[n].parent, Child(h[n], !right);
    assert NodeOk(h, g, n) && LinkOk(h, g, n) && NodeOk(h, g, np) && NodeOk(h, g, c);
    var d, e := Child(h[c], right), Child(h[c], !right);
    assert (d != NULL ==> NodeOk(h, g, d)) && (e != NULL ==> NodeOk(h, g, e));
    hide Valid, Covers, NoneIn;
    Apart(h, g, held, n);
    Apart(h, g, held, c);
  }

  lemma TurnRoot(h: Heap, g: Layout, j: Joint, right: bool, h': Heap, g': Layout)
    requires Turn(h, g, j, right, h', g') && Dom(h', g') && RootOk(h, g)
    ensures RootOk(h', g')
  {
  }

  lemma TurnNodes(h: Heap, g: Layout, held: map<int, int>, j: Joint, right: bool, h': Heap, g': Layout)
    requires Turn(h, g, j, right, h', g') && Dom(h', g') && Valid(h, g, held)
    ensures forall x :: x in g'.keys ==> NodeOk(h', g', x)
  {
    assert NodeOk(h, g, j.n) && NodeOk(h, g, j.c) && NodeOk(h, g, j.np) && LinkOk(h, g, j.n);
    assert g'.keys == g.keys;
    hide NodeOk, LinkOk, EntryOk, Turn;
    TurnLower(h, g, j, right, h', g');
    TurnUpper(h, g, j, right, h', g');
    TurnAbove(h, g, j, right, h', g');
    forall x | x in g'.keys ensures NodeOk(h', g', x) {
      if x != j.n && x != j.c && x != j.np {
        TurnRest(h, g, j, right, h', g', x);
      }
    }
  }

  lemma TurnKnown(h: Heap, g: Layout, j: Joint, right: bool, h': Heap, g': Layout)
    requires Turn(h, g, j, right, h', g') && AllKnown(h, g)
    ensures AllKnown(h', g')
  {
  }

  lemma TurnValid(h: Heap, g: Layout, held: map<int, int>, j: Joint, right: bool, h': Heap, g': Layout)
    requires Turn(h, g, j, right, h', g') && Valid(h, g, held)
    ensures Valid(h', g', held)
  {
    hide Turn, RootOk, NodeOk, LinkOk, EntryOk, KeysDiffer, HasKey, AllKnown;
    TurnDom(h, g, j, right, h', g');
    TurnKnown(h, g, j, right, h', g');
    TurnRoot(h, g, j, right, h', g');
    TurnNodes(h, g, held, j, right, h', g');
    forall x | x in g'.keys && x != ROOT ensures LinkOk(h', g', x) && EntryOk(h', g', held, x) {
      assert LinkOk(h, g, x) && EntryOk(h, g, held, x) && (j.n != ROOT ==> LinkOk(h, g, j.n));
      TurnLinks(h, g, j, right, h', g', x);
      TurnEntries(h, g, held, j, right, h', g', x);
    }
  }

  lemma MakeTurn(h: Heap, g: Layout, n: Ref, right: bool, h': Heap)
    requires Dom(h, g) && n in g.keys && h[n].parent in g.keys && Child(h[n], !right) in g.keys
    requires Child(h[n], !right) in h && Different(JointAt(h, n, right)) && Turned(h, JointAt(h, n, right), right, h')
    requires JointAt(h, n, right).d == NULL || JointAt(h, n, right).d in g.keys
    ensures Turn(h, g, JointAt(h, n, right), right, h', TurnedLayout(g, JointAt(h, n, right), right))
    ensures TurnedLayout(g, JointAt(h, n, right), right).keys == g.keys
  {
    hide Turned, Different;
  }

  /** A turn at n keeps the tree and what it holds. */
  lemma TurnKeeps(h: Heap, g: Layout, held: map<int, int>, n: Ref, right: bool, h': Heap)
    requires Valid(h, g, held) && n in g.keys && n != ROOT && Child(h[n], !right) != NULL && Child(h[n], !right) in h
    requires Turned(h, JointAt(h, n, right), right, h')
    ensures Child(h[n], !right) in g.keys && Valid(h', TurnedLayout(g, JointAt(h, n, right), right), held)
    ensures TurnedLayout(g, JointAt(h, n, right), right).keys == g.keys
  {
    assert Dom(h, g);
    hide Valid, Turned, Different, Turn, TurnedLayout;
    JointApart(h, g, held, n, right);
    MakeTurn(h, g, n, right, h');
    TurnValid(h, g, held, JointAt(h, n, right), right, h', TurnedLayout(g, JointAt(h, n, right), right));
  }

  // ----- double rotations

  /** A turn with given heights, as a heap */
  function TurnHeap(h: Heap, j: Joint, right: bool, hn: int, hc: int): Heap
    requires j.np in h && j.n in h && j.c in h && (j.d == NULL || j.d in h)
  {
    SetParent(h, j.d, j.n)[
      j.np := ReplaceChild(h[j.np], j.n, j.c)][
      j.c := WithChild(h[j.c], right, j.n).(parent := j.np, height := hc)][
      j.n := WithChild(h[j.n], !right, j.d).(parent := j.c, height := hn, version := EndChange(h[j.n].version))]
  }

  lemma TurnHeapTurns(h: Heap, j: Joint, right: bool, hn: int, hc: int)
    requires j.np in h && j.n in h && j.c in h && (j.d == NULL || j.d in h) && Different(j) && hn >= 1 && hc >= 1
    ensures Turned(h, j, right, TurnHeap(h, j, right, hn, hc))
  {
  }

  /** The nodes of a double turn: d is lifted over c and n, and f and x, its children on the sides of c and n, stay
      with those. */
  datatype Knot = Knot(np: Ref, n: Ref, c: Ref, d: Ref, f: Ref, x: Ref)

  function KnotAt(h: Heap, n: Ref, right: bool): Knot
    requires n in h && Child(h[n], !right) in h && Child(h[Child(h[n], !right)], right) in h
  {
    var c := Child(h[n], !right);
    var d := Child(h[c], right);
    Knot(h[n].parent, n, c, d, Child(h[d], !right), Child(h[d], right))
  }

  predicate AllDifferent(k: Knot) {
    && k.np != k.n && k.np != k.c && k.np != k.d && k.np != k.f && k.np != k.x && k.n != k.c && k.n != k.d && k.n != k.f
    && k.n != k.x && k.c != k.d && k.c != k.f && k.c != k.x && k.d != k.f && k.d != k.x && (k.f != NULL ==> k.f != k.x)
  }

  ghost predicate DoublyTurned(h: Heap, k: Knot, right: bool, h': Heap) {
    && k.np in h && k.n in h && k.c in h && k.d in h && (k.f == NULL || k.f in h) && (k.x == NULL || k.x in h)
    && h'.Keys == h.Keys
    && (forall y :: y in h && y != k.np && y != k.n && y != k.c && y != k.d && y != k.f && y != k.x ==> h'[y] == h[y])
    && (k.f != NULL ==> h'[k.f] == h[k.f].(parent := k.c)) && (k.x != NULL ==> h'[k.x] == h[k.x].(parent := k.n))
    && h'[k.np] == ReplaceChild(h[k.np], k.n, k.d)
    && h'[k.n] == WithChild(h[k.n], !right, k.x).(parent := k.d, height := h'[k.n].height,
       version := EndChange(h[k.n].version))
    && h'[k.c] == WithChild(h[k.c], right, k.f).(parent := k.d, height := h'[k.c].height,
       version := EndChange(h[k.c].version))
    && h'[k.d] == WithChild(WithChild(h[k.d], !right, k.c), right, k.n).(parent := k.np, height := h'[k.d].height)
    && h'[k.n].height >= 1 && h'[k.c].height >= 1 && h'[k.d].height >= 1
  }

  /** The first of the two turns that make up a double turn */
  function Midway(h: Heap, k: Knot, right: bool, hc: int): Heap
    requires k.n in h && k.c in h && k.d in h && (k.f == NULL || k.f in h)
  {
    TurnHeap(h, Joint(k.n, k.c, k.d, k.f, k.x), !right, hc, 1)
  }

  ghost predicate DoubleReady(h: Heap, k: Knot, right: bool) {
    && AllDifferent(k) && k.n in h && k.c in h && k.d in h && k.c != NULL && k.d != NULL
    && k.n != ROOT && k.c != ROOT && k.d != ROOT && k.f != ROOT && k.x != ROOT
    && Child(h[k.n], !right) == k.c && Child(h[k.n], right) != k.c && Child(h[k.c], right) == k.d
       && k == KnotAt(h, k.n, right)
    && h[k.c].parent == k.n && NULL !in h
  }

  lemma FirstHalf(h: Heap, k: Knot, right: bool, h': Heap)
    requires DoublyTurned(h, k, right, h') && DoubleReady(h, k, right)
    ensures JointAt(h, k.c, !right) == Joint(k.n, k.c, k.d, k.f, k.x)
    ensures Turned(h, JointAt(h, k.c, !right), !right, Midway(h, k, right, h'[k.c].height))
  {
    TurnHeapTurns(h, Joint(k.n, k.c, k.d, k.f, k.x), !right, h'[k.c].height, 1);
  }

  lemma SecondHalf(h: Heap, k: Knot, right: bool, h': Heap)
    requires DoublyTurned(h, k, right, h') && DoubleReady(h, k, right)
    ensures var mid := Midway(h, k, right, h'[k.c].height);
            && k.n in mid && k.d in mid && Child(mid[k.n], !right) == k.d
            && JointAt(mid, k.n, right) == Joint(k.np, k.n, k.d, k.x, k.c)
            && Turned(mid, JointAt(mid, k.n, right), right, h')
  {
    var mid := Midway(h, k, right, h'[k.c].height);
    TurnHeapTurns(h, Joint(k.n, k.c, k.d, k.f, k.x), !right, h'[k.c].height, 1);
    assert mid[k.np] == h[k.np] && (k.x != NULL ==> mid[k.x] == h[k.x]);
    assert mid[k.n] == WithChild(h[k.n], !right, k.d);
    assert mid[k.d] == WithChild(h[k.d], !right, k.c).(parent := k.n, height := 1);
    assert mid[k.c] == h'[k.c] && (k.f != NULL ==> mid[k.f] == h'[k.f]);
    hide TurnHeap, Midway;
  }

  ghost function DoubledLayout(h: Heap, g: Layout, k: Knot, right: bool): (r: Layout)
    requires k.n in g.span && k.c in g.span && k.d in g.keys
    ensures r.bot == g.bot && r.top == g.top && r.keys == g.keys
  {
    var g' := TurnedLayout(g, Joint(k.n, k.c, k.d, k.f, k.x), !right);
    if k.n in g'.span then TurnedLayout(g', Joint(k.np, k.n, k.d, k.x, k.c), right) else g'
  }

  /** A double turn is two single ones, of d over c and then of d over n, and so keeps the tree as they do. */
  lemma DoubleTurnKeeps(h: Heap, g: Layout, held: map<int, int>, k: Knot, right: bool, h': Heap)
    requires Valid(h, g, held) && k.n in g.keys && k.c in g.keys && k.d in g.keys && k.n in g.span && k.c in g.span
    requires DoublyTurned(h, k, right, h') && DoubleReady(h, k, right) && k.c in h'
    ensures Valid(h', DoubledLayout(h, g, k, right), held) && DoubledLayout(h, g, k, right).keys == g.keys
  {
    var mid := Midway(h, k, right, h'[k.c].height);
    FirstHalf(h, k, right, h');
    SecondHalf(h, k, right, h');
    assert k.c != ROOT && k.n != ROOT && k.d != NULL && Child(h[k.c], right) == k.d;
    hide Valid, DoublyTurned, DoubleReady, Turned, Midway;
    TurnKeeps(h, g, held, k.c, !right, mid);
    TurnKeeps(mid, TurnedLayout(g, JointAt(h, k.c, !right), !right), held, k.n, right, h');
  }
}
