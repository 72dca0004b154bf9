/** Leaf-oriented ("external") binary search trees.

    Both concurrent trees of the repository keep their keys in the leaves and use two-child
    routers above them. This module has the abstract tree, the two changes an update can make
    to it (graft a router over a leaf, splice a leaf and its router out), and what it means for
    a heap of cells to represent a tree. Everything here is about values; the interleavings
    are in BstTk and BstEllen.
 */
module ExternalTree {
  import opened Options

  /** Addresses. Memory is never reused during a run, so an address can be named after the
      update attempt that allocated it. */
  datatype Addr = Base(n: nat) | Made(maker: nat, part: nat)

  datatype Tree =
    | Leaf(id: Addr, key: int, val: int)
    | Node(id: Addr, key: int, left: Tree, right: Tree)

  /** A node in memory. The child pointers of a leaf mean nothing. */
  datatype Cell = Cell(key: int, val: int, leaf: bool, left: Addr, right: Addr) {
    function Child(side: bool): Addr {
      if side then right else left
    }

    /** The side (true is right) on which a search for k continues. */
    predicate Side(k: int) {
      k >= key
    }

    function Next(k: int): Addr {
      Child(Side(k))
    }

    function SetChild(side: bool, a: Addr): Cell {
      if side then this.(right := a) else this.(left := a)
    }
  }

  type Heap = map<Addr, Cell>

  function Lookup(m: map<int, int>, k: int): Option<int> {
    if k in m then Some(m[k]) else None
  }

  // ----- the abstract tree

  function Ids(t: Tree): set<Addr> {
    match t
    case Leaf(id, _, _) => {id}
    case Node(id, _, l, r) => {id} + Ids(l) + Ids(r)
  }

  predicate Distinct(t: Tree) {
    match t
    case Leaf(_, _, _) => true
    case Node(id, _, l, r) =>
      id !in Ids(l) && id !in Ids(r) && Ids(l) !! Ids(r) && Distinct(l) && Distinct(r)
  }

  /** Every key lies in [lo, hi), smaller keys to the left, the router's key and larger ones to the right. */
  predicate Ordered(t: Tree, lo: int, hi: int) {
    match t
    case Leaf(_, key, _) => lo <= key < hi
    case Node(_, key, l, r) => lo < key < hi && Ordered(l, lo, key) && Ordered(r, key, hi)
  }

  /** The finite map an external tree stands for: its leaves. */
  function Contents(t: Tree): map<int, int> {
    match t
    case Leaf(_, key, val) => map[key := val]
    case Node(_, _, l, r) => Contents(l) + Contents(r)
  }

  function Toward(t: Tree, k: int): Tree
    requires t.Node?
  {
    if k < t.key then t.left else t.right
  }

  function Away(t: Tree, k: int): Tree
    requires t.Node?
  {
    if k < t.key then t.right else t.left
  }

  /** The nodes a search for k visits. */
  function Path(t: Tree, k: int): set<Addr> {
    match t
    case Leaf(id, _, _) => {id}
    case Node(id, key, l, r) => {id} + if k < key then Path(l, k) else Path(r, k)
  }

  /** The leaf a search for k ends at. */
  function End(t: Tree, k: int): (e: Tree)
    ensures e.Leaf? && e.id in Ids(t) && e.id in Path(t, k)
  {
    match t
    case Leaf(_, _, _) => t
    case Node(_, key, l, r) => if k < key then End(l, k) else End(r, k)
  }

  /** The last router a search for k visits. */
  function Parent(t: Tree, k: int): (p: Addr)
    requires t.Node?
    ensures p in Ids(t) && p in Path(t, k)
  {
    if Toward(t, k).Leaf? then t.id else Parent(Toward(t, k), k)
  }

  /** The router above Parent. */
  function GrandParent(t: Tree, k: int): (g: Addr)
    requires t.Node? && Toward(t, k).Node?
    ensures g in Ids(t)
  {
    if Toward(Toward(t, k), k).Leaf? then t.id else GrandParent(Toward(t, k), k)
  }

  /** The subtree next to the leaf a search for k ends at. */
  function Sibling(t: Tree, k: int): (s: Tree)
    requires t.Node?
    ensures s.id in Ids(t)
  {
    if Toward(t, k).Leaf? then Away(t, k) else Sibling(Toward(t, k), k)
  }

  /** t with the leaf at the end of k's path replaced by sub. */
  function Graft(t: Tree, k: int, sub: Tree): Tree {
    match t
    case Leaf(_, _, _) => sub
    case Node(id, key, l, r) =>
      if k < key then Node(id, key, Graft(l, k, sub), r) else Node(id, key, l, Graft(r, k, sub))
  }

  /** t without the leaf at the end of k's path and without that leaf's router. */
  function Splice(t: Tree, k: int): Tree
    requires t.Node?
  {
    if Toward(t, k).Leaf? then Away(t, k)
    else if k < t.key then Node(t.id, t.key, Splice(t.left, k), t.right)
    else Node(t.id, t.key, t.left, Splice(t.right, k))
  }

  /** The three-node subtree an insertion puts in the place of leaf e: a router at address a,
      the new leaf at b, and e's key and value at c. */
  function Fork(a: Addr, b: Addr, c: Addr, k: int, v: int, e: Tree): Tree
    requires e.Leaf?
  {
    if k < e.key then Node(a, e.key, Leaf(b, k, v), Leaf(c, e.key, e.val))
    else Node(a, k, Leaf(c, e.key, e.val), Leaf(b, k, v))
  }

  lemma ContentsBounds(t: Tree, lo: int, hi: int)
    requires Ordered(t, lo, hi)
    ensures forall q :: q in Contents(t) ==> lo <= q < hi
  {
  }

  /** A search finds exactly what the tree contains. */
  lemma {:induction false} SearchCorrect(t: Tree, lo: int, hi: int, k: int)
    requires Ordered(t, lo, hi)
    ensures lo <= End(t, k).key < hi
    ensures Lookup(Contents(t), k) == if End(t, k).key == k then Some(End(t, k).val) else None
  {
    if t.Node? {
      ContentsBounds(t.left, lo, t.key);
      ContentsBounds(t.right, t.key, hi);
      if k < t.key {
        SearchCorrect(t.left, lo, t.key, k);
      } else {
        SearchCorrect(t.right, t.key, hi, k);
      }
    }
  }

  lemma PutLeft(l: map<int, int>, r: map<int, int>, k: int, v: int)
    requires k !in r
    ensures l[k := v] + r == (l + r)[k := v]
  {
  }

  lemma PutRight(l: map<int, int>, r: map<int, int>, k: int, v: int)
    ensures l + r[k := v] == (l + r)[k := v]
  {
  }

  lemma TakeLeft(l: map<int, int>, r: map<int, int>, k: int)
    requires k !in r
    ensures (l - {k}) + r == (l + r) - {k}
  {
  }

  lemma TakeRight(l: map<int, int>, r: map<int, int>, k: int)
    requires k !in l
    ensures l + (r - {k}) == (l + r) - {k}
  {
  }

  /** Replacing the end leaf by a fork adds exactly one binding. */
  lemma {:induction false} GraftContents(t: Tree, lo: int, hi: int, k: int, v: int, a: Addr, b: Addr, c: Addr)
    requires Ordered(t, lo, hi) && lo <= k < hi && End(t, k).key != k
    ensures k !in Contents(t)
    ensures var u := Graft(t, k, Fork(a, b, c, k, v, End(t, k)));
            Ordered(u, lo, hi) && Contents(u) == Contents(t)[k := v]
  {
    SearchCorrect(t, lo, hi, k);
    if t.Node? {
      if k < t.key {
        GraftContents(t.left, lo, t.key, k, v, a, b, c);
        ContentsBounds(t.right, t.key, hi);
        PutLeft(Contents(t.left), Contents(t.right), k, v);
      } else {
        GraftContents(t.right, t.key, hi, k, v, a, b, c);
        PutRight(Contents(t.left), Contents(t.right), k, v);
      }
    }
  }

  /** Splicing removes exactly one binding. */
  lemma {:induction false} SpliceContents(t: Tree, lo: int, hi: int, k: int)
    requires t.Node? && Ordered(t, lo, hi) && End(t, k).key == k
    ensures Ordered(Splice(t, k), lo, hi)
    ensures Contents(Splice(t, k)) == Contents(t) - {k}
  {
    if k < t.key {
      ContentsBounds(t.right, t.key, hi);
      TakeLeft(Contents(t.left), Contents(t.right), k);
      if t.left.Leaf? {
        Widen(t.right, t.key, hi, lo, hi);
      } else {
        SpliceContents(t.left, lo, t.key, k);
      }
    } else {
      ContentsBounds(t.left, lo, t.key);
      TakeRight(Contents(t.left), Contents(t.right), k);
      if t.right.Leaf? {
        Widen(t.left, lo, t.key, lo, hi);
      } else {
        SpliceContents(t.right, t.key, hi, k);
      }
    }
  }

  lemma Widen(t: Tree, lo: int, hi: int, lo': int, hi': int)
    requires Ordered(t, lo, hi) && lo' <= lo && hi <= hi'
    ensures Ordered(t, lo', hi')
  {
  }

  // ----- identities and paths under the two changes

  lemma {:induction false} GraftIds(t: Tree, k: int, sub: Tree)
    requires Distinct(t) && Distinct(sub)
    requires Ids(sub) !! (Ids(t) - {End(t, k).id})
    ensures Distinct(Graft(t, k, sub))
    ensures Ids(Graft(t, k, sub)) == Ids(t) - {End(t, k).id} + Ids(sub)
  {
    if t.Node? {
      if k < t.key {
        GraftIds(t.left, k, sub);
      } else {
        GraftIds(t.right, k, sub);
      }
    }
  }

  lemma {:induction false} SpliceIds(t: Tree, k: int)
    requires t.Node? && Distinct(t)
    ensures Distinct(Splice(t, k))
    ensures Ids(Splice(t, k)) == Ids(t) - {Parent(t, k), End(t, k).id}
  {
    if Toward(t, k).Node? {
      SpliceIds(Toward(t, k), k);
    }
  }

  lemma PathInIds(t: Tree, q: int)
    ensures Path(t, q) <= Ids(t)
  {
  }

  /** No search path loses a node to a graft, except the leaf that was replaced. */
  lemma {:induction false} GraftPath(t: Tree, k: int, sub: Tree, q: int)
    ensures Path(t, q) - {End(t, k).id} <= Path(Graft(t, k, sub), q)
  {
    if t.Node? {
      if k < t.key {
        GraftPath(t.left, k, sub, q);
      } else {
        GraftPath(t.right, k, sub, q);
      }
    }
  }

  /** No search path loses a node to a splice, except the two nodes that were removed. */
  lemma {:induction false} SplicePath(t: Tree, k: int, q: int)
    requires t.Node?
    ensures Path(t, q) - {Parent(t, k), End(t, k).id} <= Path(Splice(t, k), q)
  {
    if Toward(t, k).Node? {
      SplicePath(Toward(t, k), k, q);
    }
  }

  // ----- heaps that represent trees

  /** The cells reachable from t.id are exactly t: same keys, same kinds, same child pointers. */
  predicate Rep(h: Heap, t: Tree) {
    match t
    case Leaf(id, key, val) => id in h && h[id].leaf && h[id].key == key && h[id].val == val
    case Node(id, key, l, r) =>
      && id in h && !h[id].leaf && h[id].key == key
      && h[id].left == l.id && h[id].right == r.id && Rep(h, l) && Rep(h, r)
  }

  /** As Rep, for a tree of the past: child pointers may have moved on, keys and kinds have not. */
  predicate Stamped(h: Heap, t: Tree) {
    match t
    case Leaf(id, key, val) => id in h && h[id].leaf && h[id].key == key && h[id].val == val
    case Node(id, key, l, r) =>
      id in h && !h[id].leaf && h[id].key == key && Stamped(h, l) && Stamped(h, r)
  }

  /** Keys, values and kinds of existing cells never change. */
  predicate Grows(h: Heap, h': Heap) {
    forall a :: a in h ==>
      a in h' && h'[a].key == h[a].key && h'[a].val == h[a].val && h'[a].leaf == h[a].leaf
  }

  lemma RepStamped(h: Heap, t: Tree)
    requires Rep(h, t)
    ensures Stamped(h, t)
  {
  }

  lemma StampedGrows(h: Heap, h': Heap, t: Tree)
    requires Stamped(h, t) && Grows(h, h')
    ensures Stamped(h', t)
  {
  }

  lemma RepFrame(h: Heap, h': Heap, t: Tree)
    requires Rep(h, t) && forall a :: a in Ids(t) ==> a in h' && (a in h ==> h'[a] == h[a])
    ensures Rep(h', t)
  {
  }

  /** The tree a heap represents at an address is unique. */
  lemma RepUnique(h: Heap, t: Tree, u: Tree)
    requires Rep(h, t) && Rep(h, u) && t.id == u.id
    ensures t == u
  {
  }

  /** Every node on a search path points to the next one. */
  lemma {:induction false} PathStep(h: Heap, t: Tree, q: int, n: Addr)
    requires Rep(h, t) && n in Path(t, q)
    ensures n in h
    ensures !h[n].leaf ==> h[n].Next(q) in Path(t, q)
    ensures h[n].leaf ==> End(t, q) == Leaf(n, h[n].key, h[n].val)
  {
    if t.Node? {
      var c := Toward(t, q);
      if n == t.id {
        assert c.id in Path(c, q);
      } else {
        PathStep(h, c, q, n);
      }
    }
  }

  lemma {:induction false} StampedEnd(h: Heap, t: Tree, q: int, n: Addr)
    requires Stamped(h, t) && n in Path(t, q)
    ensures n in h
    ensures h[n].leaf ==> End(t, q) == Leaf(n, h[n].key, h[n].val)
  {
    if t.Node? && n != t.id {
      StampedEnd(h, Toward(t, q), q, n);
    }
  }

  lemma EndIsLeaf(h: Heap, t: Tree, k: int)
    requires Rep(h, t)
    ensures End(t, k).id in h && h[End(t, k).id].leaf
  {
  }

  /** A router on k's path whose pointer toward k is a leaf is the last router. */
  lemma {:induction false} LastRouter(h: Heap, t: Tree, k: int, p: Addr)
    requires Rep(h, t) && p in Path(t, k) && p in h && !h[p].leaf
    requires h[p].Next(k) in h && h[h[p].Next(k)].leaf
    requires Distinct(t)
    ensures t.Node? && Parent(t, k) == p && End(t, k).id == h[p].Next(k)
    ensures Sibling(t, k).id == h[p].Child(!h[p].Side(k))
  {
    assert t.Node?;
    var c := Toward(t, k);
    if p == t.id {
      PathInIds(c, k);
    } else {
      LastRouter(h, c, k, p);
      assert c.Node?;
    }
  }

  /** One step further up: g is the router above the last one. */
  lemma {:induction false} RouterAbove(h: Heap, t: Tree, k: int, g: Addr)
    requires Rep(h, t) && g in Path(t, k) && g in h && !h[g].leaf && Distinct(t)
    requires var p := h[g].Next(k); p in h && !h[p].leaf && h[p].Next(k) in h && h[h[p].Next(k)].leaf
    ensures t.Node? && Toward(t, k).Node? && GrandParent(t, k) == g && Parent(t, k) == h[g].Next(k)
  {
    assert t.Node?;
    var c := Toward(t, k);
    var p := h[g].Next(k);
    if g == t.id {
      assert c.id == p;
      assert c.Node?;
      assert Rep(h, Toward(c, k)) && Toward(c, k).id == h[p].Next(k);
      assert Toward(c, k).Leaf?;
    } else {
      RouterAbove(h, c, k, g);
    }
  }

  /** Writing one child pointer performs a graft. */
  lemma {:induction false} GraftRep(h: Heap, h': Heap, t: Tree, k: int, sub: Tree)
    requires t.Node? && Rep(h, t) && Distinct(t) && Rep(h', sub)
    requires var p := Parent(t, k); p in h && p in h' && h'[p] == h[p].SetChild(h[p].Side(k), sub.id)
    requires forall a :: a in Ids(t) && a != Parent(t, k) && a in h ==> a in h' && h'[a] == h[a]
    ensures Rep(h', Graft(t, k, sub))
  {
    var c, o := Toward(t, k), Away(t, k);
    RepIds(h, c);
    RepIds(h, o);
    RepFrame(h, h', o);
    if c.Node? {
      GraftRep(h, h', c, k, sub);
      GraftRoot(c, k, sub);
    }
  }

  lemma GraftRoot(t: Tree, k: int, sub: Tree)
    requires t.Node?
    ensures Graft(t, k, sub).Node? && Graft(t, k, sub).id == t.id && Graft(t, k, sub).key == t.key
  {
  }

  lemma RepIds(h: Heap, t: Tree)
    requires Rep(h, t)
    ensures forall a :: a in Ids(t) ==> a in h
  {
  }

  /** Writing one child pointer performs a splice. */
  lemma {:induction false} SpliceRep(h: Heap, h': Heap, t: Tree, k: int)
    requires t.Node? && Toward(t, k).Node? && Rep(h, t) && Distinct(t)
    requires var g := GrandParent(t, k);
             g in h && g in h' && h'[g] == h[g].SetChild(h[g].Side(k), Sibling(t, k).id)
    requires forall a :: a in Ids(t) && a != GrandParent(t, k) && a in h ==> a in h' && h'[a] == h[a]
    ensures Rep(h', Splice(t, k))
  {
    var c, o := Toward(t, k), Away(t, k);
    RepIds(h, c);
    RepIds(h, o);
    RepFrame(h, h', o);
    if Toward(c, k).Leaf? {
      RepFrame(h, h', Away(c, k));
    } else {
      SpliceRep(h, h', c, k);
    }
  }

  /** A node inside a subtree ordered within [lo, hi) has its key there. */
  lemma {:induction false} KeyOfId(h: Heap, t: Tree, lo: int, hi: int, a: Addr)
    requires Rep(h, t) && Ordered(t, lo, hi) && a in Ids(t)
    ensures a in h && lo <= h[a].key < hi
  {
    if t.Node? && a != t.id {
      if a in Ids(t.left) {
        KeyOfId(h, t.left, lo, t.key, a);
      } else {
        KeyOfId(h, t.right, t.key, hi, a);
      }
    }
  }

  /** A router's child on the search path, and that child's two children, have keys on the searched side. */
  lemma {:induction false} KeysOnSide(h: Heap, t: Tree, lo: int, hi: int, k: int, n: Addr)
    requires Rep(h, t) && Ordered(t, lo, hi) && n in Path(t, k) && n in h && !h[n].leaf
    ensures var c := h[n].Next(k);
            && c in h && h[n].Side(h[c].key) == h[n].Side(k)
            && (!h[c].leaf ==> forall side: bool :: h[c].Child(side) in h && h[n].Side(h[h[c].Child(side)].key) == h[n].Side(k))
  {
    assert t.Node?;
    var u := Toward(t, k);
    var lo', hi' := if k < t.key then lo else t.key, if k < t.key then t.key else hi;
    if n == t.id {
      KeyOfId(h, u, lo', hi', u.id);
      if u.Node? {
        KeyOfId(h, u, lo', hi', u.left.id);
        KeyOfId(h, u, lo', hi', u.right.id);
      }
    } else {
      KeysOnSide(h, u, lo', hi', k, n);
    }
  }

  /** The two pointers of a router in the tree differ. */
  lemma {:induction false} ChildrenDiffer(h: Heap, t: Tree, n: Addr)
    requires Rep(h, t) && Distinct(t) && n in Ids(t) && n in h && !h[n].leaf
    ensures h[n].left != h[n].right
  {
    assert t.Node?;
    if n != t.id {
      ChildrenDiffer(h, if n in Ids(t.left) then t.left else t.right, n);
    }
  }

  lemma {:induction false} SiblingNotParent(t: Tree, k: int)
    requires t.Node? && Distinct(t)
    ensures Sibling(t, k).id != Parent(t, k)
  {
    if Toward(t, k).Node? {
      SiblingNotParent(Toward(t, k), k);
    }
  }

  lemma {:induction false} NotOwnChild(h: Heap, t: Tree, k: int, n: Addr)
    requires Rep(h, t) && Distinct(t) && n in Path(t, k) && n in h && !h[n].leaf
    ensures h[n].Next(k) != n
  {
    assert t.Node?;
    var c := Toward(t, k);
    PathInIds(c, k);
    if n != t.id {
      NotOwnChild(h, c, k, n);
    }
  }
}
