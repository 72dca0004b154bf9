/** The operations of src/bst-lock2/bst_bronson_java.c, run by one thread. Without another thread no lock is contended,
    and what was read before a lock is taken is unchanged after it.

    A loop that ends only by a return is given a number of turns; None says that it has not ended after so many.
 */
module BronsonMap {
  import opened Options
  import opened BronsonReady
  import opened BronsonBalance
  import opened BronsonSteps
  import opened BronsonTree

  /** UPDATE_IF_PRESENT and UPDATE_IF_ABSENT */
  datatype Func = IfPresent | IfAbsent

  predicate ShouldUpdate(f: Func, prev: int) {
    if f.IfAbsent? then prev == 0 else prev != 0
  }

  function UpdateResult(f: Func, prev: int): int {
    if f.IfAbsent? then NOT_FOUND else prev
  }

  function NoUpdateResult(f: Func, prev: int): int {
    if f.IfAbsent? then prev else NOT_FOUND
  }

  /** The difference of two keys as it is stored in an int. */
  function AsInt(x: int): int {
    (x + 0x8000_0000) % 0x1_0000_0000 - 0x8000_0000
  }

  /** Two keys compare as they should in an int exactly when their difference fits; so do all keys of a tree. */
  lemma DifferenceKept(a: int, b: int, g: Layout)
    ensures AsInt(a - b) == a - b <==> -0x8000_0000 <= a - b < 0x8000_0000
    ensures KeyOk(g, a) && KeyOk(g, b) && g.top <= g.bot + ROOM ==> AsInt(a - b) == a - b
  {
  }

  /** The int of their differences to a third key is the same. */
  predicate SameInt(a: int, b: int) {
    (a - b) % 0x1_0000_0000 == 0
  }

  /** The one key for which k is taken in a tree whose keys lie above bot. */
  function Taken(bot: int, k: int): int {
    bot + 1 + (k - bot - 1) % 0x1_0000_0000
  }

  lemma TakenSame(bot: int, k: int)
    ensures SameInt(k, Taken(bot, k)) && bot < Taken(bot, k) <= bot + 0x1_0000_0000
  {
    var q := (k - bot - 1) / 0x1_0000_0000;
    assert k - Taken(bot, k) == q * 0x1_0000_0000;
  }

  /** Keys inside the bounds are taken for themselves, and a stored key is one for which k is taken exactly if the two
      differ by a multiple of 2^32. */
  lemma TakenIff(g: Layout, k: int, key: int)
    requires KeyOk(g, key) && g.top <= g.bot + ROOM
    ensures Taken(g.bot, k) == key <==> SameInt(k, key)
    ensures AsInt(k - key) == 0 <==> SameInt(k, key)
    ensures KeyOk(g, Taken(g.bot, k)) ==> AsInt(k - key) == Taken(g.bot, k) - key
  {
    var kk := Taken(g.bot, k);
    TakenSame(g.bot, k);
    var q := (k - kk) / 0x1_0000_0000;
    assert k - kk == q * 0x1_0000_0000;
    IntShift(kk - key, q);
    assert k - key == (kk - key) + q * 0x1_0000_0000;
  }

  lemma IntShift(x: int, q: int)
    ensures (x + q * 0x1_0000_0000) % 0x1_0000_0000 == x % 0x1_0000_0000
    ensures AsInt(x + q * 0x1_0000_0000) == AsInt(x)
  {
    ModShift(x, q);
    ModShift(x + 0x8000_0000, q);
  }

  lemma ModShift(x: int, q: int)
    ensures (x + q * 0x1_0000_0000) % 0x1_0000_0000 == x % 0x1_0000_0000
  {
  }

  /** The map as the callers see it: 0 for a key that is not there. */
  function Found(m: map<int, int>, k: int): int {
    if k in m then m[k] else 0
  }

  // ----- searching

  /** The two calls that there are: bst_add with any value, and bst_remove, whose new value is 0. */
  predicate Allowed(f: Func, newValue: int) {
    f.IfPresent? ==> newValue == 0
  }

  /** The map after an update; 0 is no value. */
  function Updated(m: map<int, int>, k: int, f: Func, newValue: int): map<int, int> {
    if f.IfPresent? then m - {k} else if k in m || newValue == 0 then m else m[k := newValue]
  }

  /** The two ways to say that there was no value */
  function Plain(r: int): int {
    if r == NOT_FOUND then 0 else r
  }

  /** What a search or an update says of a value v that it found in a node */
  function Reported(v: int): int {
    if v != 0 then v else NOT_FOUND
  }

  /** The values that callers cannot tell from the code's own NOT_FOUND and RETRY */
  predicate Reserved(v: int) {
    v == NOT_FOUND || v == RETRY
  }

  /** What an update of a key with value v answers through nodes above: a 2 comes back as 0, and after a 3 bst_add tries
      again for ever, while bst_remove, which has removed the key by then, finds nothing. */
  predicate AnswerBelow(r: Option<int>, v: int, f: Func) {
    if v == RETRY
    then if f.IfAbsent? then r == None else r.Some? && (Plain(r.value) == 0 || r.value == RETRY)
    else r.Some? && r.value != RETRY && Plain(r.value) == Plain(v)
  }

  lemma Quiet(h: Heap, g: Layout, held: map<int, int>, n: Ref)
    requires Valid(h, g, held) && n in g.keys
    ensures n in h && !IsShrinkingOrUnlinked(h[n].version) && !IsUnlinked(h[n].version) && h[n].version != UNLINKED_OVL
  {
    hide NodeOk, LinkOk, KeysDiffer, HasKey, KeyOk;
    assert n != ROOT ==> EntryOk(h, g, held, n);
    hide Valid;
    assert h[n].version % 4 == 0;
  }

  /** Why one thread that has not yet changed anything takes no retry branch for a version or a pointer: the nodes it
      meets neither shrink nor are unlinked, and are where their parents say. */
  lemma NothingToRetry(h: Heap, g: Layout, held: map<int, int>, n: Ref)
    requires Valid(h, g, held) && n in g.keys && n != ROOT
    ensures n in h && !IsShrinkingOrUnlinked(h[n].version) && h[n].version != UNLINKED_OVL
    ensures h[n].parent in h && !IsUnlinked(h[h[n].parent].version)
    ensures h[h[n].parent].left == n || h[h[n].parent].right == n
  {
    assert LinkOk(h, g, n);
    hide Valid, IsUnlinked, IsShrinkingOrUnlinked;
    Quiet(h, g, held, n);
    Quiet(h, g, held, h[n].parent);
  }

  lemma NoEntry(h: Heap, g: Layout, held: map<int, int>, k: int)
    requires Valid(h, g, held) && !HasKey(g.keys, k)
    ensures k !in held
  {
  }

  lemma WindowFits(h: Heap, g: Layout, held: map<int, int>)
    requires Valid(h, g, held)
    ensures g.bot < g.top <= g.bot + ROOM && ROOT in h && ROOT in g.keys && ROOT in g.span && h[ROOT].parent == NULL
  {
  }

  /** The map and the node agree about the key of the node. */
  lemma EntryAt(h: Heap, g: Layout, held: map<int, int>, n: Ref, k: int)
    requires Valid(h, g, held) && n in g.keys && n != ROOT
    ensures n in h && n in g.span && h[n].key == g.keys[n]
    ensures var kk := Taken(g.bot, k);
            && (h[n].key == kk ==> h[n].value == Found(held, kk) && (h[n].value == 0 <==> kk !in held))
            && (AsInt(k - h[n].key) == 0 <==> h[n].key == kk)
            && (KeyOk(g, kk) ==> AsInt(k - h[n].key) == kk - h[n].key)
    ensures h[n].value == Found(held, h[n].key) && (h[n].value == 0 <==> h[n].key !in held)
    ensures !IsShrinkingOrUnlinked(h[n].version)
  {
    hide NodeOk, LinkOk, KeysDiffer, Taken, AsInt;
    assert EntryOk(h, g, held, n);
    WindowFits(h, g, held);
    TakenIff(g, k, h[n].key);
  }

  /** The keys of the map lie inside the bounds, so each is taken for itself. */
  lemma HeldTaken(h: Heap, g: Layout, held: map<int, int>, k: int)
    requires Valid(h, g, held)
    ensures k in held ==> KeyOk(g, k) && held[k] != 0
    ensures KeyOk(g, k) ==> Taken(g.bot, k) == k
  {
    WindowFits(h, g, held);
    if k in held {
      HeldKeyOk(h, g, held, k);
    }
    if KeyOk(g, k) {
      TakenSame(g.bot, k);
      TakenIff(g, k, k);
    }
  }

  /** And it is the only one that differs from k by a multiple of 2^32. */
  lemma HeldInside(h: Heap, g: Layout, held: map<int, int>, k: int)
    requires Valid(h, g, held)
    ensures k in held ==> KeyOk(g, k) && held[k] != 0
    ensures KeyOk(g, k) ==> Taken(g.bot, k) == k
    ensures forall key :: key in held && SameInt(k, key) ==> key == Taken(g.bot, k)
    ensures SameInt(k, Taken(g.bot, k))
  {
    TakenSame(g.bot, k);
    HeldTaken(h, g, held, k);
    WindowFits(h, g, held);
    forall key | key in held && SameInt(k, key) ensures key == Taken(g.bot, k) {
      HeldKeyOk(h, g, held, key);
      TakenIff(g, k, key);
    }
  }

  lemma HeldKeyOk(h: Heap, g: Layout, held: map<int, int>, k: int)
    requires Valid(h, g, held) && k in held
    ensures KeyOk(g, k) && held[k] != 0
  {
    hide NodeOk, LinkOk, KeysDiffer;
    assert HasKey(g.keys, k);
    var m :| m in g.keys && m != ROOT && g.keys[m] == k;
    assert EntryOk(h, g, held, m);
  }

  lemma ValuesNotZero(h: Heap, g: Layout, held: map<int, int>, k: int)
    requires Valid(h, g, held)
    ensures k in held ==> held[k] != 0 && Found(held, k) != 0 && HasKey(g.keys, k)
  {
    hide NodeOk, LinkOk, KeysDiffer;
    if k in held {
      assert HasKey(g.keys, k);
      var m :| m in g.keys && m != ROOT && g.keys[m] == k;
      assert EntryOk(h, g, held, m);
    }
  }

  /** A node that has its quiet version is still in the tree. */
  lemma StillThere(h: Heap, g: Layout, held: map<int, int>, n: Ref)
    requires Valid(h, g, held) && n in h && !IsShrinkingOrUnlinked(h[n].version)
    ensures n in g.keys && n in g.span
  {
    hide NodeOk, LinkOk, EntryOk, KeysDiffer, HasKey;
    assert AllKnown(h, g);
  }

  /** An update of a key that is there, or of one that a removal does not find, leaves the map. */
  lemma UpdatedSame(m: map<int, int>, k: int, f: Func, newValue: int)
    ensures f.IfAbsent? && k in m ==> Updated(m, k, f, newValue) == m
    ensures f.IfAbsent? && newValue == 0 ==> Updated(m, k, f, newValue) == m
    ensures f.IfAbsent? && k !in m && newValue != 0 ==> Updated(m, k, f, newValue) == m[k := newValue]
    ensures f.IfPresent? ==> Updated(m, k, f, newValue) == m - {k}
    ensures f.IfPresent? && k !in m ==> Updated(m, k, f, newValue) == m
    ensures f.IfPresent? ==> Updated(m - {k}, k, f, newValue) == m - {k}
  {
  }

  lemma ChildApartIf(h: Heap, g: Layout, held: map<int, int>, p: Ref, right: bool)
    requires Valid(h, g, held) && p in g.keys && p in h
    ensures var c := Child(h[p], right);
            c != NULL ==> c in g.keys && c in h && c in g.span && c != ROOT && c != p && h[c].parent == p
    ensures NULL !in h
  {
    hide NodeOk, LinkOk, EntryOk, KeysDiffer, HasKey;
    var c := Child(h[p], right);
    if c != NULL {
      ChildApart(h, g, held, p, right);
      Around(h, g, held, p);
    }
  }

  /** The search starts at the right child of the root. */
  lemma FirstStep(h: Heap, g: Layout, held: map<int, int>, k: int)
    requires Valid(h, g, held) && KeyOk(g, k)
    ensures ROOT in h && ROOT in g.keys && ROOT in g.span && h[ROOT].parent == NULL
    ensures Low(g, ROOT, true) < k < High(g, ROOT, true)
    ensures var right := h[ROOT].right;
            if right == NULL then !HasKey(g.keys, k)
            else right in g.keys && right != ROOT && right in g.span && (HasKey(g.keys, k) ==> In(k, g.span[right]))
  {
    GoDown(h, g, held, ROOT, k);
  }

  lemma InsertReady(h: Heap, g: Layout, held: map<int, int>, p: Ref, right: bool, k: int, r: Ref)
    requires Valid(h, g, held) && p in g.keys && p in g.span && p in h && Child(h[p], right) == NULL
    requires Low(g, p, right) < k < High(g, p, right) && KeyOk(g, k) && r !in h && r != NULL
    ensures Free(h, g, p, right, k, r) && (p == ROOT ==> h[p].parent == NULL)
  {
  }

  lemma InsertNow(h: Heap, g: Layout, p: Ref, right: bool, k: int, v: int, r: Ref)
    requires Free(h, g, p, right, k, r) && v != 0 && p in h && p in g.keys && p in g.span
    ensures Inserted(h, g, p, right, k, v, r, h[r := NewLeaf(p, k, v)][p := WithChild(h[p], right, r)], WithLeaf(g, p,
            right, k, r))
  {
  }

  /** The layout in which an update goes on below p: a key that is not there yet needs room in the child's interval. */
  ghost function Opened(g: Layout, p: Ref, right: bool, c: Ref, wide: bool): Layout
    requires p in g.keys && p in g.span
  {
    if wide then Widened(g, p, right, c) else g
  }

  lemma OpenedSame(g: Layout, p: Ref, right: bool, c: Ref, wide: bool, k: int)
    requires p in g.keys && p in g.span && c in g.span && c != p
    ensures var g' := Opened(g, p, right, c, wide);
            && g'.bot == g.bot && g'.top == g.top && g'.keys == g.keys && c in g'.span && p in g'.span
            && Inside(g', p) == Inside(g, p) && (!wide ==> g' == g)
    ensures wide && Low(g, p, right) < k < High(g, p, right) ==> In(k, Opened(g, p, right, c, wide).span[c])
  {
    assert Opened(g, p, right, c, wide).span[p] == g.span[p];
  }

  lemma OpenedValid(h: Heap, g: Layout, held: map<int, int>, p: Ref, right: bool, wide: bool)
    requires Valid(h, g, held) && p in g.keys && p in g.span && p in h && Child(h[p], right) != NULL
    ensures Valid(h, Opened(g, p, right, Child(h[p], right), wide), held)
  {
    if wide {
      hide Valid;
      WidenValid(h, g, held, p, right);
    }
  }

  lemma GoesBelow(h: Heap, g: Layout, held: map<int, int>, p: Ref, right: bool, k: int, wide: bool)
    requires Valid(h, g, held) && p in g.keys && p in g.span && p in h && Child(h[p], right) != NULL
    requires wide ==> Low(g, p, right) < k < High(g, p, right)
    ensures var c := Child(h[p], right);
            var g' := Opened(g, p, right, c, wide);
            && Valid(h, g', held) && g'.bot == g.bot && g'.top == g.top && g'.keys == g.keys
            && c in g'.keys && c in g'.span && c in h && c != ROOT && h[c].parent == p && Inside(g', c) < Inside(g, p)
            && (wide ==> In(k, g'.span[c])) && (!wide ==> g' == g)
  {
    hide *;
    var c := Child(h[p], right);
    ChildApartIf(h, g, held, p, right);
    OpenedSame(g, p, right, c, wide, k);
    OpenedValid(h, g, held, p, right, wide);
    ChildSmaller(h, Opened(g, p, right, c, wide), held, p, right);
  }

  // ----- counting

  /** The nodes with a value in the interval of n */
  ghost function Present(h: Heap, g: Layout, n: Ref): set<Ref>
    requires Dom(h, g)
  {
    if n in g.keys then set m | m in Inside(g, n) && h[m].value != 0 else {}
  }

  lemma PresentIn(h: Heap, g: Layout, held: map<int, int>, n: Ref, right: bool, m: Ref)
    requires Valid(h, g, held) && n in g.keys && m in Present(h, g, Child(h[n], right))
    ensures m in Present(h, g, n) && (if right then g.keys[m] > g.keys[n] else g.keys[m] < g.keys[n])
  {
    hide KeysDiffer;
    assert NodeOk(h, g, n);
    assert Fits(h, g, n, right, Child(h[n], right));
  }

  lemma PresentBelow(h: Heap, g: Layout, held: map<int, int>, n: Ref, m: Ref)
    requires Valid(h, g, held) && n in g.keys && m in Present(h, g, n) && m != n
    ensures m in Present(h, g, h[n].left) || m in Present(h, g, h[n].right)
  {
    hide NodeOk;
    Below(h, g, held, n, m);
  }

  lemma PresentSelf(h: Heap, g: Layout, held: map<int, int>, n: Ref)
    requires Valid(h, g, held) && n in g.keys
    ensures n in Present(h, g, n) <==> h[n].value != 0
  {
    assert NodeOk(h, g, n);
  }

  lemma PresentSplits(h: Heap, g: Layout, held: map<int, int>, n: Ref)
    requires Valid(h, g, held) && n in g.keys && Dom(h, g)
    ensures var l, r := Present(h, g, h[n].left), Present(h, g, h[n].right);
            |Present(h, g, n)| == (if h[n].value != 0 then 1 else 0) + |l| + |r|
  {
    hide Valid, Present;
    var l, r := Present(h, g, h[n].left), Present(h, g, h[n].right);
    var one := if h[n].value != 0 then {n} else {};
    forall m | m in l ensures m in Present(h, g, n) && m != n && m !in r {
      PresentIn(h, g, held, n, false, m);
      if m in r {
        PresentIn(h, g, held, n, true, m);
      }
    }
    forall m | m in r ensures m in Present(h, g, n) && m != n {
      PresentIn(h, g, held, n, true, m);
    }
    forall m | m in Present(h, g, n) && m != n ensures m in l || m in r {
      PresentBelow(h, g, held, n, m);
    }
    PresentSelf(h, g, held, n);
    assert Present(h, g, n) == one + l + r;
    assert one !! l && one !! r && l !! r;
  }

  lemma {:induction false} SameNumber(s: set<Ref>, q: Keys, t: set<int>)
    requires s <= q.Keys && KeysDiffer(q) && t == set m | m in s :: q[m]
    ensures |s| == |t|
  {
    if s != {} {
      var m :| m in s;
      var s', t' := s - {m}, t - {q[m]};
      assert t' == set x | x in s' :: q[x];
      SameNumber(s', q, t');
    }
  }

  lemma PresentKey(h: Heap, g: Layout, held: map<int, int>, m: Ref)
    requires Valid(h, g, held) && m in Present(h, g, ROOT)
    ensures m in g.keys && g.keys[m] in held
  {
    hide NodeOk, LinkOk, KeysDiffer, HasKey;
    assert EntryOk(h, g, held, m);
  }

  lemma KeyPresent(h: Heap, g: Layout, held: map<int, int>, k: int) returns (m: Ref)
    requires Valid(h, g, held) && k in held
    ensures m in Present(h, g, ROOT) && m in g.keys && g.keys[m] == k
  {
    hide NodeOk, LinkOk, KeysDiffer;
    assert HasKey(g.keys, k);
    m :| m in g.keys && m != ROOT && g.keys[m] == k;
    assert EntryOk(h, g, held, m);
    InRoot(h, g, held, m);
  }

  lemma CountKeys(s: set<Ref>, q: Keys, held: map<int, int>)
    requires s <= q.Keys && KeysDiffer(q) && (forall m :: m in s ==> q[m] in held)
    requires forall k :: k in held ==> exists m :: m in s && q[m] == k
    ensures |s| == |held|
  {
    var t := set m | m in s :: q[m];
    forall k | k in held ensures k in t {
      var m :| m in s && q[m] == k;
    }
    assert held.Keys == t;
    SameNumber(s, q, t);
  }

  /** The nodes with a value are as many as the entries of the map. */
  lemma PresentCount(h: Heap, g: Layout, held: map<int, int>)
    requires Valid(h, g, held) && Dom(h, g) && KeysDiffer(g.keys)
    ensures |Present(h, g, ROOT)| == |held|
  {
    var s := Present(h, g, ROOT);
    hide Valid, KeysDiffer, Present, Dom;
    forall m | m in s ensures m in g.keys && g.keys[m] in held {
      PresentKey(h, g, held, m);
    }
    forall k | k in held ensures exists m :: m in s && g.keys[m] == k {
      var m := KeyPresent(h, g, held, k);
    }
    CountKeys(s, g.keys, held);
  }

  class Bst {
    var heap: Heap
    /** Where the next node goes; nodes are not reused. */
    var next: Ref
    /** The callers' keys lie between these two. */
    ghost const bot: int
    ghost const top: int
    ghost var layout: Layout
    ghost var contents: map<int, int>

    ghost predicate Valid()
      reads this
    {
      && BronsonTree.Valid(heap, layout, contents) && layout.bot == bot && layout.top == top
      && next > ROOT && (forall r :: r in heap <==> ROOT <= r < next)
    }

    /** bst_initialize. The callers' keys may be any whose differences fit in an int. */
    constructor (ghost b: int, ghost t: int)
      requires b < t <= b + ROOM
      ensures Valid() && contents == map[] && bot == b && top == t && TopNode() == NULL
      ensures Balanced() && AllValued() && |layout.keys| == 1
    {
      heap := map[ROOT := Node(0, 0, 0, 0, NULL, NULL, NULL)];
      next := ROOT + 1;
      bot, top := b, t;
      layout := Layout(b, t, map[ROOT := b], map[ROOT := Span(b - 1, t)]);
      contents := map[];
    }

    /** The node that every search meets first */
    function TopNode(): Ref
      reads this
    {
      if ROOT in heap then heap[ROOT].right else NULL
    }

    predicate AtTop(k: int)
      reads this
    {
      TopNode() in heap && heap[TopNode()].key == k
    }

    /** Every node of the tree is at rest: its height is right, and its subtrees are level. */
    ghost predicate Balanced()
      reads this
    {
      RestBut(heap, layout.keys.Keys, NULL)
    }

    /** Every node of the tree has a value: there are no routing nodes. */
    ghost predicate AllValued()
      reads this
    {
      Whole(heap, layout.keys.Keys)
    }

    /** Enough rounds for any repair of a tree in which every node is at rest and none is a routing node */
    ghost predicate Steady(rounds: nat)
      reads this
    {
      Balanced() && AllValued() && rounds > |layout.keys| + 1
    }

    /** Every node is at rest, but perhaps this one, one of whose subtrees has just grown or shrunk by one. */
    ghost predicate BalancedBut(node: Ref)
      reads this
    {
      AvlBut(heap, layout.keys.Keys, node)
    }

    /** fix_height_nl */
    method FixHeightNl(n: Ref) returns (damaged: Ref)
      requires Valid() && n in layout.keys && n in heap
      modifies this`heap
      ensures Valid() && (damaged == NULL || damaged in layout.keys)
      ensures n in heap && heap == WithHeight(old(heap), n, heap[n].height) && (damaged != n ==> Accurate(heap, n))
      ensures HeightFixed(old(heap), n, heap, damaged)
    {
      hide BronsonTree.Valid, NodeCondition, Accurate;
      ConditionKeeps(heap, layout, contents, n);
      ConditionMeans(heap, n);
      var c := NodeCondition(heap, n);
      if IsHeight(c) {
        HeightRests(heap, n);
        heap := WithHeight(heap, n, c);
        damaged := heap[n].parent;
      } else {
        assert heap == WithHeight(heap, n, heap[n].height);
        damaged := if c == NOTHING_REQUIRED then NULL else n;
      }
    }

    /** The assignments of attempt_unlink_nl */
    method Splice(parent: Ref, node: Ref, splice: Ref)
      requires parent in heap && node in heap && (splice != NULL ==> splice in heap)
      requires parent != node && parent != splice && node != splice
      modifies this`heap
      ensures Unlinked(old(heap), parent, node, splice, heap)
    {
      if heap[parent].left == node {
        heap := heap[parent := heap[parent].(left := splice)];
      } else {
        heap := heap[parent := heap[parent].(right := splice)];
      }
      if splice != NULL {
        heap := heap[splice := heap[splice].(parent := parent)];
      }
      heap := heap[node := heap[node].(version := UNLINKED_OVL)];
      heap := heap[node := heap[node].(value := 0)];
    }

    /** attempt_unlink_nl */
    method AttemptUnlinkNl(parent: Ref, node: Ref) returns (ok: bool)
      requires Valid() && node in layout.keys && node != ROOT && node in heap && heap[node].parent == parent
      modifies this`heap, this`layout, this`contents
      ensures Valid()
      ensures ok <==> old(heap[node].left == NULL || heap[node].right == NULL)
      ensures !ok ==> heap == old(heap) && layout == old(layout) && contents == old(contents)
      ensures ok ==> contents == old(contents) - {old(heap)[node].key} && layout == Without(old(layout), node)
      ensures ok ==> node in heap && heap[node].version == UNLINKED_OVL && parent in layout.keys && parent in heap
      ensures ok ==> parent in old(heap) && heap[parent].height == old(heap)[parent].height
      ensures ok && old(Balanced() && AllValued()) ==> BalancedBut(parent) && AllValued()
      ensures |layout.keys| <= |old(layout.keys)|
    {
      hide BronsonTree.Valid, Unlinked, Without, AvlBut, RestBut, Whole;
      Around(heap, layout, contents, node);
      UnlinkReady(heap, layout, contents, node);
      if heap[parent].left != node && heap[parent].right != node {
        return false;
      }
      var left, right := heap[node].left, heap[node].right;
      if left != NULL && right != NULL {
        return false;
      }
      var splice := if left != NULL then left else right;
      Splice(parent, node, splice);
      UnlinkKeeps(old(heap), layout, contents, node, heap);
      UnlinkedHeight(old(heap), parent, node, splice, heap);
      if old(Balanced() && AllValued()) {
        UnlinkBalanced(old(heap), layout, contents, parent, node, splice, heap);
      }
      WithoutFewer(layout, node);
      layout, contents := Without(layout, node), contents - {old(heap)[node].key};
      return true;
    }

    /** The assignments of rotate_right_nl */
    method LinkRight(np: Ref, n: Ref, nl: Ref, nlr: Ref, hn: int, hnl: int)
      requires n in heap && nl in heap && np in heap && heap[n].left == nl && (nlr != NULL ==> nlr in heap)
      requires JointAt(heap, n, true) == Joint(np, n, nl, nlr, heap[nl].left) && Different(JointAt(heap, n, true))
      requires hn >= 1 && hnl >= 1
      modifies this`heap
      ensures n in heap && nl in heap && heap[n].height == hn && heap[nl].height == hnl
      ensures Turned(old(heap), old(JointAt(heap, n, true)), true, heap)
    {
      var nodeOvl := heap[n].version;
      heap := heap[n := heap[n].(version := BeginChange(nodeOvl), left := nlr)];
      heap := SetParent(heap, nlr, n);
      heap := heap[nl := heap[nl].(right := n, parent := np)];
      heap := heap[np := ReplaceChild(heap[np], n, nl)];
      heap := heap[n := heap[n].(parent := nl, height := hn, version := EndChange(nodeOvl))];
      heap := heap[nl := heap[nl].(height := hnl)];
    }

    /** rotate_right_nl: the turn, with heights from those of the children; damaged is who needs repair next */
    method RotateRightNl(np: Ref, n: Ref, nl: Ref, hr: int, hll: int, nlr: Ref, hlr: int) returns (damaged: Ref)
      requires Valid() && n in layout.keys && n != ROOT && n in heap && heap[n].parent == np && heap[n].left == nl
      requires nl != NULL && nl in heap && heap[nl].right == nlr
      requires hr == Height(heap, heap[n].right) && hll == Height(heap, heap[nl].left) && hlr == Height(heap, nlr)
      modifies this`heap, this`layout
      ensures Valid() && (damaged == NULL || damaged in layout.keys) && layout.keys == old(layout.keys)
      ensures np in old(heap) && np in heap &&
              Turned(old(heap), old(JointAt(heap, n, true)), true, WithHeight(heap, np, old(heap)[np].height))
      ensures n in heap && nl in heap && Accurate(heap, n) && Accurate(heap, nl)
      ensures TurnedWell(old(heap), n, true, WithHeight(heap, np, old(heap)[np].height))
      ensures OutsideKept(old(layout), layout, n)
      ensures LowestDamaged(WithHeight(heap, np, old(heap)[np].height), n, nl, np, heap, damaged)
    {
      hide BronsonTree.Valid, NodeCondition, Accurate, AtRest, Turned, TurnedLayout, OutsideKept;
      ghost var b, j := heap[n].right, JointAt(heap, n, true);
      TurnReady(heap, layout, contents, n, true, b);
      TurnOutside(heap, layout, contents, n, true);
      Around(heap, layout, contents, n);
      Around(heap, layout, contents, nl);
      var hnrepl := 1 + Max(hlr, hr);
      LinkRight(np, n, nl, nlr, hnrepl, 1 + Max(hll, hnrepl));
      TurnKeeps(old(heap), layout, contents, n, true, heap);
      TurnAccurate(old(heap), j, true, b, heap);
      TurnRests(old(heap), j, true, b, heap);
      TurnedAbove(old(heap), j, true, b, heap);
      layout := TurnedLayout(layout, j, true);
      HeightBack(heap, np, 0);
      var baln, ball := hlr - hr, hll - hnrepl;
      if baln < -1 || baln > 1 || ((nlr == NULL || hr == 0) && heap[n].value == 0) {
        damaged := n;
      } else if ball < -1 || ball > 1 || (hll == 0 && heap[nl].value == 0) {
        damaged := nl;
      } else {
        ghost var turned := heap;
        damaged := FixHeightNl(np);
        HeightBack(turned, np, heap[np].height);
        AccurateKept(turned, n, np, heap[np].height);
        AccurateKept(turned, nl, np, heap[np].height);
      }
    }

    /** The assignments of rotate_left_nl */
    method LinkLeft(np: Ref, n: Ref, nr: Ref, nrl: Ref, hn: int, hnr: int)
      requires n in heap && nr in heap && np in heap && heap[n].right == nr && (nrl != NULL ==> nrl in heap)
      requires JointAt(heap, n, false) == Joint(np, n, nr, nrl, heap[nr].right) && Different(JointAt(heap, n, false))
      requires hn >= 1 && hnr >= 1
      modifies this`heap
      ensures n in heap && nr in heap && heap[n].height == hn && heap[nr].height == hnr
      ensures Turned(old(heap), old(JointAt(heap, n, false)), false, heap)
    {
      var nodeOvl := heap[n].version;
      heap := heap[n := heap[n].(version := BeginChange(nodeOvl), right := nrl)];
      heap := SetParent(heap, nrl, n);
      heap := heap[nr := heap[nr].(left := n, parent := np)];
      heap := heap[np := ReplaceChild(heap[np], n, nr)];
      heap := heap[n := heap[n].(parent := nr, height := hn, version := EndChange(nodeOvl))];
      heap := heap[nr := heap[nr].(height := hnr)];
    }

    /** rotate_left_nl: the turn, with heights from those of the children; damaged is who needs repair next */
    method RotateLeftNl(np: Ref, n: Ref, hl: int, nr: Ref, nrl: Ref, hrl: int, hrr: int) returns (damaged: Ref)
      requires Valid() && n in layout.keys && n != ROOT && n in heap && heap[n].parent == np && heap[n].right == nr
      requires nr != NULL && nr in heap && heap[nr].left == nrl
      requires hl == Height(heap, heap[n].left) && hrr == Height(heap, heap[nr].right) && hrl == Height(heap, nrl)
      modifies this`heap, this`layout
      ensures Valid() && (damaged == NULL || damaged in layout.keys) && layout.keys == old(layout.keys)
      ensures np in old(heap) && np in heap &&
              Turned(old(heap), old(JointAt(heap, n, false)), false, WithHeight(heap, np, old(heap)[np].height))
      ensures n in heap && nr in heap && Accurate(heap, n) && Accurate(heap, nr)
      ensures TurnedWell(old(heap), n, false, WithHeight(heap, np, old(heap)[np].height))
      ensures OutsideKept(old(layout), layout, n)
      ensures LowestDamaged(WithHeight(heap, np, old(heap)[np].height), n, nr, np, heap, damaged)
    {
      hide BronsonTree.Valid, NodeCondition, Accurate, AtRest, Turned, TurnedLayout, OutsideKept;
      ghost var b, j := heap[n].left, JointAt(heap, n, false);
      TurnReady(heap, layout, contents, n, false, b);
      TurnOutside(heap, layout, contents, n, false);
      Around(heap, layout, contents, n);
      Around(heap, layout, contents, nr);
      var hnrepl := 1 + Max(hrl, hl);
      LinkLeft(np, n, nr, nrl, hnrepl, 1 + Max(hrr, hnrepl));
      TurnKeeps(old(heap), layout, contents, n, false, heap);
      TurnAccurate(old(heap), j, false, b, heap);
      TurnRests(old(heap), j, false, b, heap);
      TurnedAbove(old(heap), j, false, b, heap);
      layout := TurnedLayout(layout, j, false);
      HeightBack(heap, np, 0);
      var baln, balr := hrl - hl, hrr - hnrepl;
      if baln < -1 || baln > 1 || ((nrl == NULL || hl == 0) && heap[n].value == 0) {
        damaged := n;
      } else if balr < -1 || balr > 1 || (hrr == 0 && heap[nr].value == 0) {
        damaged := nr;
      } else {
        ghost var turned := heap;
        damaged := FixHeightNl(np);
        HeightBack(turned, np, heap[np].height);
        AccurateKept(turned, n, np, heap[np].height);
        AccurateKept(turned, nr, np, heap[np].height);
      }
    }

    /** The first assignments of rotate_right_over_left_nl: the children of nlr move to n and nl */
    method ShareRight(n: Ref, nl: Ref, nlrl: Ref, nlrr: Ref)
      requires n in heap && nl in heap && (nlrl != NULL ==> nlrl in heap) && (nlrr != NULL ==> nlrr in heap)
      requires n != nl && n != nlrl && n != nlrr && nl != nlrl && nl != nlrr && (nlrl != NULL ==> nlrl != nlrr)
      modifies this`heap
      ensures Shared(old(heap), n, nl, nlrl, nlrr, true, heap)
    {
      heap := heap[n := heap[n].(version := BeginChange(heap[n].version), left := nlrr)];
      heap := heap[nl := heap[nl].(version := BeginChange(heap[nl].version), right := nlrl)];
      heap := SetParent(heap, nlrr, n);
      heap := SetParent(heap, nlrl, nl);
    }

    /** Its last assignments: nlr goes to the top, and the changes of n and nl end */
    method LiftRight(np: Ref, n: Ref, nl: Ref, nlr: Ref, nodeOvl: nat, childOvl: nat, hn: int, hnl: int, hnlr: int)
      requires np in heap && n in heap && nl in heap && nlr in heap
      requires np != n && np != nl && np != nlr && n != nl && n != nlr && nl != nlr
      modifies this`heap
      ensures Lifted(old(heap), np, n, nl, nlr, true, nodeOvl, childOvl, hn, hnl, hnlr, heap)
    {
      heap := heap[nlr := heap[nlr].(left := nl)];
      heap := heap[nl := heap[nl].(parent := nlr)];
      heap := heap[nlr := heap[nlr].(right := n)];
      heap := heap[n := heap[n].(parent := nlr)];
      heap := heap[np := ReplaceChild(heap[np], n, nlr)];
      heap := heap[nlr := heap[nlr].(parent := np, height := hnlr)];
      heap := heap[n := heap[n].(height := hn, version := EndChange(nodeOvl))];
      heap := heap[nl := heap[nl].(height := hnl, version := EndChange(childOvl))];
    }

    /** The turn of rotate_right_over_left_nl, with heights from those of the children */
    method TurnRightOverLeft(np: Ref, n: Ref, nl: Ref, hr: int, hll: int, nlr: Ref, hlrl: int)
      requires Valid() && n in layout.keys && n != ROOT && n in heap && heap[n].parent == np && heap[n].left == nl
      requires nl in heap && heap[nl].right == nlr && nlr in heap
      requires hr == Height(heap, heap[n].right) && hll == Height(heap, heap[nl].left)
               && hlrl == Height(heap, heap[nlr].left)
      modifies this`heap, this`layout
      ensures Valid() && layout.keys == old(layout.keys) && OutsideKept(old(layout), layout, n)
      ensures np in old(heap) && np in heap && n in heap && nl in heap && nlr in heap && np in layout.keys && nlr in layout.keys
      ensures np != n && np != nl && np != nlr && heap[np].height == old(heap)[np].height
      ensures DoubledWell(old(heap), n, true, heap)
      ensures var out := old(heap)[nlr].right;
              && heap[n].height == 1 + Max(Height(old(heap), out), hr) && heap[nl].height == 1 + Max(hll, hlrl)
              && (AtRest(heap, n) <==>
                   Level(Height(old(heap), out), hr) && !((out == NULL || hr == 0) && heap[n].value == 0))
      ensures AtRest(heap, nlr) <==> Level(heap[nl].height, heap[n].height)
      ensures DoubleFits(old(heap), nl, hll, hlrl) ==> AtRest(heap, nl)
      ensures NotBelow(heap, n, np) && NotBelow(heap, nl, np) && NotBelow(heap, nlr, np)
    {
      hide BronsonTree.Valid, NodeCondition, Accurate, AtRest, DoublyTurned, DoubledLayout, Shared, Lifted, Beside, OutsideKept;
      ghost var b, e, k := heap[n].right, heap[nl].left, KnotAt(heap, n, true);
      KnotFound(heap, layout, contents, n, true, b, e);
      var nodeOvl, childOvl := heap[n].version, heap[nl].version;
      var nlrl, nlrr := heap[nlr].left, heap[nlr].right;
      var hlrr := Height(heap, nlrr);
      var hnrepl, hlrepl := 1 + Max(hlrr, hr), 1 + Max(hll, hlrl);
      ShareRight(n, nl, nlrl, nlrr);
      SharedKeys(old(heap), n, nl, nlrl, nlrr, true, heap);
      ghost var shared := heap;
      LiftRight(np, n, nl, nlr, nodeOvl, childOvl, hnrepl, hlrepl, 1 + Max(hlrepl, hnrepl));
      LiftedHeights(shared, np, n, nl, nlr, true, nodeOvl, childOvl, hnrepl, hlrepl, 1 + Max(hlrepl, hnrepl), heap);
      LiftedDoubly(old(heap), k, true, hnrepl, hlrepl, 1 + Max(hlrepl, hnrepl), shared, heap);
      DoubleTurnKeeps(old(heap), layout, contents, k, true, heap);
      DoubleAfter(old(heap), k, true, b, e, heap);
      layout := DoubledLayout(old(heap), layout, k, true);
    }

    /** rotate_right_over_left_nl: nlr goes over nl and n; damaged is who needs repair next */
    method RotateRightOverLeftNl(np: Ref, n: Ref, nl: Ref, hr: int, hll: int, nlr: Ref, hlrl: int) returns (damaged: Ref)
      requires Valid() && n in layout.keys && n != ROOT && n in heap && heap[n].parent == np && heap[n].left == nl
      requires nl in heap && heap[nl].right == nlr && nlr in heap
      requires hr == Height(heap, heap[n].right) && hll == Height(heap, heap[nl].left)
               && hlrl == Height(heap, heap[nlr].left)
      modifies this`heap, this`layout
      ensures Valid() && (damaged == NULL || damaged in layout.keys) && layout.keys == old(layout.keys)
      ensures OutsideKept(old(layout), layout, n)
      ensures np in old(heap) && np in heap && n in heap && nl in heap && nlr in heap
      ensures DoubledWell(old(heap), n, true, WithHeight(heap, np, old(heap)[np].height))
      ensures Accurate(heap, n) && Accurate(heap, nl) && Accurate(heap, nlr)
      ensures LowestDamaged(WithHeight(heap, np, old(heap)[np].height), n, nlr, np, heap, damaged)
      ensures DoubleFits(old(heap), nl, hll, hlrl) ==> AtRest(heap, nl)
    {
      hide BronsonTree.Valid, NodeCondition, Accurate, AtRest, DoublyTurned, DoubledWell, OutsideKept;
      var nlrr := heap[nlr].right;
      var hlrr := Height(heap, nlrr);
      var hnrepl, hlrepl := 1 + Max(hlrr, hr), 1 + Max(hll, hlrl);
      TurnRightOverLeft(np, n, nl, hr, hll, nlr, hlrl);
      ghost var turned := heap;
      DoubledAccurate(old(heap), n, true, turned);
      HeightBack(turned, np, 0);
      var baln, ballr := hlrr - hr, hlrepl - hnrepl;
      if baln < -1 || baln > 1 || ((nlrr == NULL || hr == 0) && heap[n].value == 0) {
        damaged := n;
      } else if ballr < -1 || ballr > 1 {
        damaged := nlr;
      } else {
        damaged := FixHeightNl(np);
        HeightBack(turned, np, heap[np].height);
        AccurateKept(turned, n, np, heap[np].height);
        AccurateKept(turned, nl, np, heap[np].height);
        AccurateKept(turned, nlr, np, heap[np].height);
        if AtRest(turned, nl) {
          RestKept(turned, nl, np, heap[np].height);
        }
      }
    }

    /** The first assignments of rotate_left_over_right_nl: the children of nrl move to n and nr */
    method ShareLeft(n: Ref, nr: Ref, nrlr: Ref, nrll: Ref)
      requires n in heap && nr in heap && (nrlr != NULL ==> nrlr in heap) && (nrll != NULL ==> nrll in heap)
      requires n != nr && n != nrlr && n != nrll && nr != nrlr && nr != nrll && (nrlr != NULL ==> nrlr != nrll)
      modifies this`heap
      ensures Shared(old(heap), n, nr, nrlr, nrll, false, heap)
    {
      heap := heap[n := heap[n].(version := BeginChange(heap[n].version), right := nrll)];
      heap := heap[nr := heap[nr].(version := BeginChange(heap[nr].version), left := nrlr)];
      heap := SetParent(heap, nrll, n);
      heap := SetParent(heap, nrlr, nr);
    }

    /** Its last assignments: nrl goes to the top, and the changes of n and nr end */
    method LiftLeft(np: Ref, n: Ref, nr: Ref, nrl: Ref, nodeOvl: nat, childOvl: nat, hn: int, hnr: int, hnrl: int)
      requires np in heap && n in heap && nr in heap && nrl in heap
      requires np != n && np != nr && np != nrl && n != nr && n != nrl && nr != nrl
      modifies this`heap
      ensures Lifted(old(heap), np, n, nr, nrl, false, nodeOvl, childOvl, hn, hnr, hnrl, heap)
    {
      heap := heap[nrl := heap[nrl].(right := nr)];
      heap := heap[nr := heap[nr].(parent := nrl)];
      heap := heap[nrl := heap[nrl].(left := n)];
      heap := heap[n := heap[n].(parent := nrl)];
      heap := heap[np := ReplaceChild(heap[np], n, nrl)];
      heap := heap[nrl := heap[nrl].(parent := np, height := hnrl)];
      heap := heap[n := heap[n].(height := hn, version := EndChange(nodeOvl))];
      heap := heap[nr := heap[nr].(height := hnr, version := EndChange(childOvl))];
    }

    /** The turn of rotate_left_over_right_nl, with heights from those of the children */
    method TurnLeftOverRight(np: Ref, n: Ref, hl: int, nr: Ref, nrl: Ref, hrr: int, hrlr: int)
      requires Valid() && n in layout.keys && n != ROOT && n in heap && heap[n].parent == np && heap[n].right == nr
      requires nr in heap && heap[nr].left == nrl && nrl in heap
      requires hl == Height(heap, heap[n].left) && hrr == Height(heap, heap[nr].right)
               && hrlr == Height(heap, heap[nrl].right)
      modifies this`heap, this`layout
      ensures Valid() && layout.keys == old(layout.keys) && OutsideKept(old(layout), layout, n)
      ensures np in old(heap) && np in heap && n in heap && nr in heap && nrl in heap && np in layout.keys && nrl in layout.keys
      ensures np != n && np != nr && np != nrl && heap[np].height == old(heap)[np].height
      ensures DoubledWell(old(heap), n, false, heap)
      ensures var out := old(heap)[nrl].left;
              && heap[n].height == 1 + Max(Height(old(heap), out), hl) && heap[nr].height == 1 + Max(hrr, hrlr)
              && (AtRest(heap, n) <==>
                   Level(Height(old(heap), out), hl) && !((out == NULL || hl == 0) && heap[n].value == 0))
      ensures AtRest(heap, nrl) <==> Level(heap[nr].height, heap[n].height)
      ensures DoubleFits(old(heap), nr, hrr, hrlr) ==> AtRest(heap, nr)
      ensures NotBelow(heap, n, np) && NotBelow(heap, nr, np) && NotBelow(heap, nrl, np)
    {
      hide BronsonTree.Valid, NodeCondition, Accurate, AtRest, DoublyTurned, DoubledLayout, Shared, Lifted, Beside, OutsideKept;
      ghost var b, e, k := heap[n].left, heap[nr].right, KnotAt(heap, n, false);
      KnotFound(heap, layout, contents, n, false, b, e);
      var nodeOvl, childOvl := heap[n].version, heap[nr].version;
      var nrlr, nrll := heap[nrl].right, heap[nrl].left;
      var hrll := Height(heap, nrll);
      var hnrepl, hrrepl := 1 + Max(hrll, hl), 1 + Max(hrr, hrlr);
      ShareLeft(n, nr, nrlr, nrll);
      SharedKeys(old(heap), n, nr, nrlr, nrll, false, heap);
      ghost var shared := heap;
      LiftLeft(np, n, nr, nrl, nodeOvl, childOvl, hnrepl, hrrepl, 1 + Max(hrrepl, hnrepl));
      LiftedHeights(shared, np, n, nr, nrl, false, nodeOvl, childOvl, hnrepl, hrrepl, 1 + Max(hrrepl, hnrepl), heap);
      LiftedDoubly(old(heap), k, false, hnrepl, hrrepl, 1 + Max(hrrepl, hnrepl), shared, heap);
      DoubleTurnKeeps(old(heap), layout, contents, k, false, heap);
      DoubleAfter(old(heap), k, false, b, e, heap);
      layout := DoubledLayout(old(heap), layout, k, false);
    }

    /** rotate_left_over_right_nl: nrl goes over nr and n; damaged is who needs repair next */
    method RotateLeftOverRightNl(np: Ref, n: Ref, hl: int, nr: Ref, nrl: Ref, hrr: int, hrlr: int) returns (damaged: Ref)
      requires Valid() && n in layout.keys && n != ROOT && n in heap && heap[n].parent == np && heap[n].right == nr
      requires nr in heap && heap[nr].left == nrl && nrl in heap
      requires hl == Height(heap, heap[n].left) && hrr == Height(heap, heap[nr].right)
               && hrlr == Height(heap, heap[nrl].right)
      modifies this`heap, this`layout
      ensures Valid() && (damaged == NULL || damaged in layout.keys) && layout.keys == old(layout.keys)
      ensures OutsideKept(old(layout), layout, n)
      ensures np in old(heap) && np in heap && n in heap && nr in heap && nrl in heap
      ensures DoubledWell(old(heap), n, false, WithHeight(heap, np, old(heap)[np].height))
      ensures Accurate(heap, n) && Accurate(heap, nr) && Accurate(heap, nrl)
      ensures LowestDamaged(WithHeight(heap, np, old(heap)[np].height), n, nrl, np, heap, damaged)
      ensures DoubleFits(old(heap), nr, hrr, hrlr) ==> AtRest(heap, nr)
    {
      hide BronsonTree.Valid, NodeCondition, Accurate, AtRest, DoublyTurned, DoubledWell, OutsideKept;
      var nrll := heap[nrl].left;
      var hrll := Height(heap, nrll);
      var hnrepl, hrrepl := 1 + Max(hrll, hl), 1 + Max(hrr, hrlr);
      TurnLeftOverRight(np, n, hl, nr, nrl, hrr, hrlr);
      ghost var turned := heap;
      DoubledAccurate(old(heap), n, false, turned);
      HeightBack(turned, np, 0);
      var baln, balrl := hrll - hl, hrrepl - hnrepl;
      if baln < -1 || baln > 1 || ((nrll == NULL || hl == 0) && heap[n].value == 0) {
        damaged := n;
      } else if balrl < -1 || balrl > 1 {
        damaged := nrl;
      } else {
        damaged := FixHeightNl(np);
        HeightBack(turned, np, heap[np].height);
        AccurateKept(turned, n, np, heap[np].height);
        AccurateKept(turned, nr, np, heap[np].height);
        AccurateKept(turned, nrl, np, heap[np].height);
        if AtRest(turned, nr) {
          RestKept(turned, nr, np, heap[np].height);
        }
      }
    }

    /** rebalance_to_right_nl. The height of nl.right read under its lock is the one read before. */
    method RebalanceToRightNl(np: Ref, n: Ref, nl: Ref, hr0: int) returns (damaged: Ref)
      requires Valid() && n in layout.keys && n in layout.span && n != ROOT && n in heap && heap[n].parent == np
      requires heap[n].left == nl && nl != NULL && hr0 == Height(heap, heap[n].right)
      modifies this`heap, this`layout
      ensures Valid() && (damaged == NULL || damaged in layout.keys) && layout.keys == old(layout.keys)
      ensures Mended(old(heap), old(MendOf(heap, layout, n, true)), heap, damaged)
      ensures OutsideKept(old(layout), layout, n)
      decreases Inside(layout, n)
    {
      hide BronsonTree.Valid, NodeCondition, Accurate, AtRest, Turned, DoublyTurned, LowestDamaged, TurnedWell, DoubledWell, OutsideKept;
      Around(heap, layout, contents, n);
      Around(heap, layout, contents, nl);
      ChildSmaller(heap, layout, contents, n, false);
      var hl := heap[nl].height;
      if hl - hr0 <= 1 {
        SameOutside(layout, n);
        return n;
      }
      var nlr := heap[nl].right;
      var hll0, hlr0 := Height(heap, heap[nl].left), Height(heap, nlr);
      if hll0 >= hlr0 {
        damaged := RotateRightNl(np, n, nl, hr0, hll0, nlr, hlr0);
        return;
      }
      var hlrl := Height(heap, heap[nlr].left);
      var b := hll0 - hlrl;
      if -1 <= b <= 1 && !((hll0 == 0 || hlrl == 0) && heap[nl].value == 0) {
        damaged := RotateRightOverLeftNl(np, n, nl, hr0, hll0, nlr, hlrl);
      } else {
        damaged := RebalanceToLeftNl(n, nl, nlr, hll0);
        BelowOutside(old(heap), old(layout), contents, n, false, layout);
      }
    }

    /** rebalance_to_left_nl */
    method RebalanceToLeftNl(np: Ref, n: Ref, nr: Ref, hl0: int) returns (damaged: Ref)
      requires Valid() && n in layout.keys && n in layout.span && n != ROOT && n in heap && heap[n].parent == np
      requires heap[n].right == nr && nr != NULL && hl0 == Height(heap, heap[n].left)
      modifies this`heap, this`layout
      ensures Valid() && (damaged == NULL || damaged in layout.keys) && layout.keys == old(layout.keys)
      ensures Mended(old(heap), old(MendOf(heap, layout, n, false)), heap, damaged)
      ensures OutsideKept(old(layout), layout, n)
      decreases Inside(layout, n)
    {
      hide BronsonTree.Valid, NodeCondition, Accurate, AtRest, Turned, DoublyTurned, LowestDamaged, TurnedWell, DoubledWell, OutsideKept;
      Around(heap, layout, contents, n);
      Around(heap, layout, contents, nr);
      ChildSmaller(heap, layout, contents, n, true);
      var hr := heap[nr].height;
      if hl0 - hr >= -1 {
        SameOutside(layout, n);
        return n;
      }
      var nrl := heap[nr].left;
      var hrl0, hrr0 := Height(heap, nrl), Height(heap, heap[nr].right);
      if hrr0 >= hrl0 {
        damaged := RotateLeftNl(np, n, hl0, nr, nrl, hrl0, hrr0);
        return;
      }
      var hrlr := Height(heap, heap[nrl].right);
      var b := hrr0 - hrlr;
      if -1 <= b <= 1 && !((hrr0 == 0 || hrlr == 0) && heap[nr].value == 0) {
        damaged := RotateLeftOverRightNl(np, n, hl0, nr, nrl, hrr0, hrlr);
      } else {
        damaged := RebalanceToRightNl(n, nr, nrl, hrr0);
        BelowOutside(old(heap), old(layout), contents, n, true, layout);
      }
    }

    /** rebalance_nl. A routing node with a side to spare is unlinked, a node that is too heavy on one side is mended. */
    method RebalanceNl(np: Ref, n: Ref) returns (damaged: Ref)
      requires Valid() && n in layout.keys && n in layout.span && n != ROOT && n in heap && heap[n].parent == np
      modifies this`heap, this`layout, this`contents
      ensures Valid() && contents == old(contents) && (damaged == NULL || damaged in layout.keys)
      ensures np in old(heap) && np in heap && n in heap
      ensures var c := old(NodeCondition(heap, n));
              if c == UNLINK_REQUIRED then
                && layout == Without(old(layout), n) && heap[n].version == UNLINKED_OVL
                && HeightFixed(WithHeight(heap, np, old(heap)[np].height), np, heap, damaged)
              else if c == REBALANCE_REQUIRED then
                var right := old(Height(heap, heap[n].left) > Height(heap, heap[n].right));
                && old(Child(heap[n], !right)) != NULL && layout.keys == old(layout.keys) && OutsideKept(old(layout), layout, n)
                && Mended(old(heap), old(MendOf(heap, layout, n, right)), heap, damaged)
              else if c == NOTHING_REQUIRED then heap == old(heap) && damaged == NULL
              else HeightFixed(WithHeight(old(heap), n, c), np, heap, damaged)
    {
      hide BronsonTree.Valid, Accurate, AtRest, Without, Mended, MendOf, HeightFixed, OutsideKept;
      Around(heap, layout, contents, n);
      var nl, nr := heap[n].left, heap[n].right;
      if (nl == NULL || nr == NULL) && heap[n].value == 0 {
        RoutingKey(heap, layout, contents, n);
        var unlinked := AttemptUnlinkNl(np, n);
        ghost var spliced := heap;
        damaged := FixHeightNl(np);
        HeightBack(spliced, np, heap[np].height);
        return;
      }
      var hn, hl0, hr0 := heap[n].height, Height(heap, nl), Height(heap, nr);
      var hnrepl := 1 + Max(hl0, hr0);
      var bal := hl0 - hr0;
      if bal > 1 {
        damaged := RebalanceToRightNl(np, n, nl, hr0);
      } else if bal < -1 {
        damaged := RebalanceToLeftNl(np, n, nr, hl0);
      } else if hnrepl != hn {
        HeightKeeps(heap, layout, contents, n, hnrepl, WithHeight(heap, n, hnrepl));
        heap := WithHeight(heap, n, hnrepl);
        damaged := FixHeightNl(np);
      } else {
        damaged := NULL;
      }
    }

    /** Whether fix_height_and_rebalance has nothing to do at this node */
    predicate MayStop(node: Ref)
      reads this
    {
      node in heap && heap[node].parent != NULL ==> AtRest(heap, node)
    }

    /** fix_height_and_rebalance, for as many rounds as are given. It stops with rounds to spare only at a node that needs
        nothing, at the root or at none, and without any round only where it was called. Without routing nodes, and called
        where a subtree has just grown or shrunk by one, it leaves every node at rest when it stops. */
    method FixHeightAndRebalance(damaged: Ref, rounds: nat) returns (node: Ref, spare: nat)
      requires Valid() && (damaged == NULL || damaged in layout.keys)
      modifies this`heap, this`layout, this`contents
      ensures Valid() && contents == old(contents) && spare <= rounds
      ensures spare > 0 ==> MayStop(node)
      ensures spare == rounds ==> node == damaged && heap == old(heap) && layout == old(layout)
      ensures old(AllValued() && BalancedBut(damaged)) ==>
                && AllValued() && layout.keys == old(layout.keys) && BalancedBut(node)
                && (rounds > |layout.keys| ==> spare > 0) && (spare > 0 ==> Balanced())
    {
      hide BronsonTree.Valid, NodeCondition, Accurate, Mended, MendOf, HeightFixed, Without, AvlBut, Whole, RestBut, Higher;
      node := damaged;
      var i := 0;
      InHeap(heap, layout, contents, node);
      ClimbStarts(node);
      while i < rounds && node != NULL && heap[node].parent != NULL
        invariant Valid() && contents == old(contents) && i <= rounds
        invariant node == NULL || (node in layout.keys && node in heap && (heap[node].parent != NULL ==> node != ROOT && node in layout.span))
        invariant i == 0 ==> node == damaged && heap == old(heap) && layout == old(layout)
        invariant old(AllValued() && BalancedBut(damaged)) ==>
                    AllValued() && layout.keys == old(layout.keys) && BalancedBut(node) && Climbs(i, node)
      {
        ghost var before, lower := layout, node;
        var condition := NodeCondition(heap, node);
        NothingToRetry(heap, layout, contents, node);
        if condition == NOTHING_REQUIRED || IsUnlinked(heap[node].version) {
          Settles(node);
          return node, rounds - i;
        }
        node := Round(node, condition);
        InHeap(heap, layout, contents, node);
        if old(AllValued() && BalancedBut(damaged)) {
          ClimbsOn(i, before, lower, node);
        }
        i := i + 1;
      }
      spare := rounds - i;
      Settles(node);
    }

    /** After i rounds at least i nodes lie below the damaged one. */
    ghost predicate Climbs(i: nat, node: Ref)
      reads this
    {
      i <= |layout.keys| && (node in layout.keys && node != ROOT ==> node in layout.span && i < |Inside(layout, node)|)
    }

    lemma ClimbStarts(node: Ref)
      requires Valid()
      ensures Climbs(0, node)
    {
      if node in layout.keys && node != ROOT {
        InsideOwn(heap, layout, contents, node, false);
        assert node in Inside(layout, node);
      }
      hide BronsonTree.Valid, Inside;
    }

    lemma ClimbsOn(i: nat, before: Layout, lower: Ref, node: Ref)
      requires lower in before.keys && lower in before.span && i < |Inside(before, lower)| && before.keys == layout.keys
      requires Higher(before, lower, layout, node)
      ensures Climbs(i + 1, node)
    {
      FewerInside(Inside(before, lower), before.keys.Keys);
      hide Inside;
    }

    /** Where the loop stops */
    lemma Settles(node: Ref)
      requires Valid() && (node == NULL || node in layout.keys)
      ensures MayStop(node) && BalancedBut(node) ==> Balanced()
    {
      hide AtRest;
      if node in layout.keys && node != ROOT {
        assert LinkOk(heap, layout, node);
      }
      if MayStop(node) && BalancedBut(node) {
        StopsBalanced(heap, layout.keys.Keys, node);
      }
    }

    /** One round of the loop */
    method Round(node: Ref, condition: int) returns (damaged: Ref)
      requires Valid() && node in layout.keys && node in layout.span && node != ROOT && node in heap
      requires condition == NodeCondition(heap, node) && condition != NOTHING_REQUIRED
      modifies this`heap, this`layout, this`contents
      ensures Valid() && contents == old(contents) && (damaged == NULL || damaged in layout.keys)
      ensures old(AllValued() && BalancedBut(node)) ==>
                AllValued() && layout.keys == old(layout.keys) && BalancedBut(damaged) && Higher(old(layout), node, layout, damaged)
    {
      hide BronsonTree.Valid, NodeCondition, Accurate, Mended, MendOf, Without, AvlBut, Whole, RestBut, OutsideKept, Higher;
      Around(heap, layout, contents, node);
      if condition != UNLINK_REQUIRED && condition != REBALANCE_REQUIRED {
        damaged := FixHeightNl(node);
        if old(AllValued() && BalancedBut(node)) {
          HeightRound(old(heap), layout, contents, node, heap, damaged);
          SameOutside(layout, node);
          GoesHigher(old(heap), layout, contents, node, layout, damaged);
        }
      } else {
        hide HeightFixed;
        damaged := RebalanceNl(heap[node].parent, node);
        if old(AllValued() && BalancedBut(node)) {
          NoUnlink(old(heap), old(layout), contents, node);
          MendRound(old(heap), old(layout), contents, node, heap, layout, contents, damaged);
          GoesHigher(old(heap), old(layout), contents, node, layout, damaged);
        }
      }
    }

    /** attempt_get, with so many turns of each loop, for any key at all: what counts is the key for which it is taken.
        Found in a child, the value is reported; a 3 that comes from further below starts the loop again. */
    method AttemptGet(k: int, node: Ref, isRight: bool, turns: nat) returns (v: Option<int>)
      requires Valid() && node in layout.keys && node in layout.span && node in heap
      requires var kk := Taken(bot, k);
               KeyOk(layout, kk) ==> kk != layout.keys[node] && isRight == (kk > layout.keys[node])
                                     && (HasKey(layout.keys, kk) ==> In(kk, layout.span[node]))
      ensures var kk, child := Taken(bot, k), Child(heap[node], isRight);
              if child in heap && heap[child].key == kk then v == Some(Reported(Found(contents, kk))) || turns == 0
              else v == (if Found(contents, kk) == RETRY then None else Some(Reported(Found(contents, kk)))) || turns == 0
      decreases Inside(layout, node)
    {
      hide BronsonTree.Valid, HasKey, In, Taken, AsInt;
      ChildApartIf(heap, layout, contents, node, isRight);
      var child := Child(heap[node], isRight);
      ghost var kk := Taken(bot, k);
      HeldTaken(heap, layout, contents, kk);
      if KeyOk(layout, kk) {
        GoDown(heap, layout, contents, node, kk);
      }
      var i := 0;
      while i < turns
        invariant i > 0 ==> Found(contents, kk) == RETRY && child in heap && heap[child].key != kk
      {
        if child == NULL {
          if KeyOk(layout, kk) {
            NoEntry(heap, layout, contents, kk);
          }
          return Some(NOT_FOUND);
        }
        ChildSmaller(heap, layout, contents, node, isRight);
        EntryAt(heap, layout, contents, child, k);
        var childCmp := AsInt(k - heap[child].key);
        if childCmp == 0 {
          return Some(if heap[child].value != 0 then heap[child].value else NOT_FOUND);
        }
        var result := AttemptGet(k, child, !(childCmp < 0), turns);
        if result != Some(RETRY) {
          return result;
        }
        i := i + 1;
      }
      v := None;
    }

    /** bst_contains, for any key at all. A key in the map is found, with its value, exactly if its value is none of the
        reserved ones or the key is in the top node; otherwise a 2 is taken for no entry, and with a 3 the call never
        returns. A key that is not in the map is found, wrongly, exactly if one that differs from it by a multiple of
        2^32 is in the map and would be found. */
    method Contains(k: int, turns: nat) returns (v: Option<int>)
      requires Valid() && turns > 0
      ensures var kk := Taken(bot, k);
              v == if AtTop(kk) then Some(Found(contents, kk))
                   else if Found(contents, kk) == RETRY then None else Some(Plain(Found(contents, kk)))
      ensures k in contents ==> (v == Some(contents[k]) <==> AtTop(k) || !Reserved(contents[k]))
      ensures k !in contents ==>
                (v != Some(0) <==> exists key :: key in contents && SameInt(k, key) && (AtTop(key) || contents[key] != NOT_FOUND))
    {
      hide BronsonTree.Valid, HasKey, In, Taken, AsInt, SameInt;
      WindowFits(heap, layout, contents);
      ChildApartIf(heap, layout, contents, ROOT, true);
      ghost var kk := Taken(bot, k);
      HeldInside(heap, layout, contents, k);
      HeldInside(heap, layout, contents, kk);
      if KeyOk(layout, kk) {
        FirstStep(heap, layout, contents, kk);
      }
      var right := heap[ROOT].right;
      var i := 0;
      while i < turns
        invariant i > 0 ==> Found(contents, kk) == RETRY && right in heap && heap[right].key != kk
      {
        if right == NULL {
          if KeyOk(layout, kk) {
            NoEntry(heap, layout, contents, kk);
          }
          return Some(0);
        }
        EntryAt(heap, layout, contents, right, k);
        var rightCmp := AsInt(k - heap[right].key);
        if rightCmp == 0 {
          return Some(heap[right].value);
        }
        var vo := AttemptGet(k, right, !(rightCmp < 0), turns);
        if vo == None {
          return None;
        }
        if vo != Some(RETRY) {
          return Some(if vo.value != NOT_FOUND then vo.value else 0);
        }
        i := i + 1;
      }
      v := None;
    }

    /** attempt_node_update: the key was found at node */
    method AttemptNodeUpdate(f: Func, newValue: int, parent: Ref, node: Ref, rounds: nat) returns (r: int)
      requires Valid() && node in layout.keys && node != ROOT && node in heap && heap[node].parent == parent
      requires Allowed(f, newValue)
      modifies this`heap, this`layout, this`contents
      ensures Valid() && contents == Updated(old(contents), old(heap)[node].key, f, newValue)
      ensures r == Reported(Found(old(contents), old(heap)[node].key))
      ensures f.IfAbsent? && old(heap)[node].key in old(contents) ==> heap == old(heap) && layout == old(layout)
      ensures old(Balanced() && AllValued()) && rounds > |old(layout.keys)| ==> Balanced() && (newValue != 0 ==> AllValued())
    {
      hide BronsonTree.Valid, HasKey, Without, AvlBut, RestBut, Whole, HeightFixed;
      Around(heap, layout, contents, node);
      EntryAt(heap, layout, contents, node, heap[node].key);
      if newValue == 0 && heap[node].value == 0 {
        RoutingKey(heap, layout, contents, node);
        return NOT_FOUND;
      }
      var prev := heap[node].value;
      if newValue == 0 && (heap[node].left == NULL || heap[node].right == NULL) {
        if !ShouldUpdate(f, prev) {
          return NoUpdateResult(f, prev);
        }
        var unlinked := AttemptUnlinkNl(parent, node);
        ghost var shrunk := heap;
        var damaged := FixHeightNl(parent);
        if old(Balanced() && AllValued()) {
          FirstRepair(shrunk, layout, contents, parent, heap, damaged);
        }
        var _, _ := FixHeightAndRebalance(damaged, rounds);
        return UpdateResult(f, prev);
      }
      if !ShouldUpdate(f, prev) {
        return NoUpdateResult(f, prev);
      }
      if Balanced() {
        ValueRests(heap, layout.keys.Keys, node, newValue);
      }
      ValueKeeps(heap, layout, contents, node, newValue, heap[node := heap[node].(value := newValue)]);
      contents := SetEntry(contents, heap[node].key, newValue);
      heap := heap[node := heap[node].(value := newValue)];
      return UpdateResult(f, prev);
    }

    /** A new node below p, on a side where there is none */
    method AddChild(p: Ref, isRight: bool, k: int, v: int)
      requires Valid() && p in layout.keys && p in heap && p in layout.span && KeyOk(layout, k) && v != 0
      requires Child(heap[p], isRight) == NULL && Low(layout, p, isRight) < k < High(layout, p, isRight)
      modifies this`heap, this`next, this`layout, this`contents
      ensures Valid() && k !in old(contents) && contents == old(contents)[k := v] && next == old(next) + 1
      ensures p in layout.keys && p in heap && (p == ROOT ==> heap[p].parent == NULL)
      ensures var c := Child(heap[p], isRight); c != p && c in heap && heap[c].key == k && heap[c].value == v
      ensures |layout.keys| == |old(layout.keys)| + 1
      ensures old(Balanced() && AllValued()) ==> BalancedBut(p) && AllValued()
    {
      hide BronsonTree.Valid, Inserted, Free, AvlBut, RestBut, Whole;
      InsertReady(heap, layout, contents, p, isRight, k, next);
      InsertNow(heap, layout, p, isRight, k, v, next);
      var newChild := next;
      next := next + 1;
      heap := heap[newChild := NewLeaf(p, k, v)];
      heap := heap[p := WithChild(heap[p], isRight, newChild)];
      InsertValid(old(heap), layout, contents, p, isRight, k, v, newChild, heap, WithLeaf(layout, p, isRight, k, newChild));
      if old(Balanced() && AllValued()) {
        InsertBalanced(old(heap), layout, contents, p, isRight, k, v, newChild, heap);
      }
      LeafIsNew(old(heap), layout, contents, p, isRight, k, newChild);
      layout, contents := WithLeaf(layout, p, isRight, k, newChild), contents[k := v];
    }

    /** The same, with the tree balanced afterwards */
    method AddBelow(p: Ref, isRight: bool, k: int, v: int, rounds: nat)
      requires Valid() && p in layout.keys && p in heap && p in layout.span && KeyOk(layout, k) && v != 0
      requires Child(heap[p], isRight) == NULL && Low(layout, p, isRight) < k < High(layout, p, isRight)
      modifies this`heap, this`next, this`layout, this`contents
      ensures Valid() && k !in old(contents) && contents == old(contents)[k := v] && next > old(next)
      ensures old(Balanced() && AllValued()) && rounds > |old(layout.keys)| + 1 ==> Balanced() && AllValued()
    {
      hide BronsonTree.Valid, AvlBut, RestBut, Whole, HeightFixed;
      AddChild(p, isRight, k, v);
      ghost var grown := heap;
      var damaged := FixHeightNl(p);
      if old(Balanced() && AllValued()) {
        FirstRepair(grown, layout, contents, p, heap, damaged);
      }
      var _, _ := FixHeightAndRebalance(damaged, rounds);
    }

    /** A new key must lie inside the bounds. One that is taken for a key of the map may be any, and so may a key to be
        removed. */
    ghost predicate MayUpdate(k: int, f: Func)
      reads this
    {
      f.IfAbsent? ==> KeyOk(layout, k) || Taken(bot, k) in contents
    }

    /** attempt_update, with so many turns of each loop: the key belongs below node, or is its own. */
    method AttemptUpdate(k: int, f: Func, newValue: int, parent: Ref, node: Ref, nodeV: nat, rounds: nat, turns: nat)
      returns (r: Option<int>)
      requires Valid() && MayUpdate(k, f) && node in layout.keys && node in layout.span && node != ROOT && node in heap
      requires heap[node].parent == parent && heap[node].version == nodeV && Allowed(f, newValue) && turns >= 2
      requires f.IfAbsent? || Taken(bot, k) in contents ==> In(Taken(bot, k), layout.span[node])
      modifies this
      ensures Valid() && contents == Updated(old(contents), Taken(bot, k), f, newValue) && next >= old(next)
      ensures if old(heap)[node].key == Taken(bot, k) then r == Some(Reported(Found(old(contents), Taken(bot, k))))
              else AnswerBelow(r, Found(old(contents), Taken(bot, k)), f)
      ensures f.IfAbsent? && Taken(bot, k) in old(contents) ==> heap == old(heap) && layout == old(layout)
      ensures old(Steady(rounds)) && Found(old(contents), Taken(bot, k)) != RETRY ==> Balanced() && (newValue != 0 ==> AllValued())
      decreases Taken(bot, k) in contents, Inside(layout, node), 1
    {
      hide BronsonTree.Valid, HasKey, Updated, Taken, AsInt, RestBut, Whole;
      ghost var kk := Taken(bot, k);
      UpdatedSame(contents, kk, f, newValue);
      HeldTaken(heap, layout, contents, kk);
      HeldTaken(heap, layout, contents, k);
      EntryAt(heap, layout, contents, node, k);
      var cmp := AsInt(k - heap[node].key);
      if cmp == 0 {
        var own := AttemptNodeUpdate(f, newValue, parent, node, rounds);
        return Some(own);
      }
      r := UpdateBelow(k, f, newValue, node, !(cmp < 0), nodeV, rounds, turns);
    }

    /** Its loop. When the call below comes back with a 3, it starts again, unless node has been turned or unlinked
        meanwhile. */
    method UpdateBelow(k: int, f: Func, newValue: int, node: Ref, isRight: bool, nodeV: nat, rounds: nat, turns: nat)
      returns (r: Option<int>)
      requires Valid() && MayUpdate(k, f) && node in layout.keys && node in layout.span && node in heap
      requires heap[node].version == nodeV && !IsShrinkingOrUnlinked(nodeV) && Allowed(f, newValue) && turns >= 2
      requires f.IfAbsent? || Taken(bot, k) in contents ==>
                 In(Taken(bot, k), layout.span[node]) && Taken(bot, k) != layout.keys[node]
                 && isRight == (Taken(bot, k) > layout.keys[node])
      modifies this
      ensures Valid() && contents == Updated(old(contents), Taken(bot, k), f, newValue) && next >= old(next)
      ensures AnswerBelow(r, Found(old(contents), Taken(bot, k)), f)
      ensures f.IfAbsent? && Taken(bot, k) in old(contents) ==> heap == old(heap) && layout == old(layout)
      ensures old(Steady(rounds)) && Found(old(contents), Taken(bot, k)) != RETRY ==> Balanced() && (newValue != 0 ==> AllValued())
      decreases Taken(bot, k) in contents, Inside(layout, node), 0
    {
      hide BronsonTree.Valid, HasKey, Updated, Taken, Opened, Inside, RestBut, Whole;
      ghost var kk := Taken(bot, k);
      UpdatedSame(contents, kk, f, newValue);
      HeldTaken(heap, layout, contents, kk);
      HeldTaken(heap, layout, contents, k);
      ghost var v := Found(contents, kk);
      var i := 0;
      while i < turns
        invariant Valid() && next >= old(next) && node in heap
        invariant i == 0 ==> heap == old(heap) && layout == old(layout) && contents == old(contents)
        invariant i > 0 ==> v == RETRY && contents == Updated(old(contents), kk, f, newValue)
        invariant i > 0 && f.IfAbsent? ==> heap == old(heap) && layout == old(layout)
        invariant f.IfPresent? ==> i <= 1
      {
        if heap[node].version != nodeV {
          return Some(RETRY);
        }
        StillThere(heap, layout, contents, node);
        ValuesNotZero(heap, layout, contents, kk);
        ChildApartIf(heap, layout, contents, node, isRight);
        var child := Child(heap[node], isRight);
        if f.IfAbsent? || kk in contents {
          GoDown(heap, layout, contents, node, kk);
        }
        if child == NULL {
          if f.IfAbsent? || kk in contents {
            NoEntry(heap, layout, contents, kk);
          }
          if newValue == 0 {
            return Some(NOT_FOUND);
          }
          AddBelow(node, isRight, k, newValue, rounds);
          return Some(UpdateResult(f, 0));
        }
        GoesBelow(heap, layout, contents, node, isRight, kk, f.IfAbsent? && kk !in contents);
        layout := Opened(layout, node, isRight, child, f.IfAbsent? && kk !in contents);
        var vo := AttemptUpdate(k, f, newValue, node, child, heap[child].version, rounds, turns);
        if vo == None {
          return None;
        }
        if vo != Some(RETRY) {
          return Some(if vo.value == NOT_FOUND then 0 else vo.value);
        }
        i := i + 1;
      }
      r := None;
    }

    /** update_under_root */
    method UpdateUnderRoot(k: int, f: Func, newValue: int, rounds: nat, turns: nat) returns (r: Option<int>)
      requires Valid() && MayUpdate(k, f) && Allowed(f, newValue) && turns >= 2
      modifies this
      ensures Valid() && contents == Updated(old(contents), Taken(bot, k), f, newValue) && next >= old(next)
      ensures var was := Found(old(contents), Taken(bot, k));
              if was == RETRY then if f.IfAbsent? then r == None else r.Some? && Plain(r.value) == 0
              else r.Some? && Plain(r.value) == Plain(was)
      ensures old(TopNode()) == NULL && f.IfAbsent? && newValue != 0 ==>
                TopNode() in heap && heap[TopNode()].key == k && heap[TopNode()].value == newValue
      ensures old(Steady(rounds)) && Found(old(contents), Taken(bot, k)) != RETRY ==> Balanced() && (newValue != 0 ==> AllValued())
    {
      hide BronsonTree.Valid, HasKey, Updated, Taken, AsInt, Opened, Inside, RestBut, Whole, AvlBut;
      ghost var kk := Taken(bot, k);
      UpdatedSame(contents, kk, f, newValue);
      HeldTaken(heap, layout, contents, kk);
      HeldTaken(heap, layout, contents, k);
      ValuesNotZero(heap, layout, contents, kk);
      ghost var v := Found(contents, kk);
      var i := 0;
      while i < turns
        invariant Valid() && next >= old(next)
        invariant i == 0 ==> heap == old(heap) && layout == old(layout) && contents == old(contents)
        invariant i > 0 ==> v == RETRY && contents == Updated(old(contents), kk, f, newValue) && old(TopNode()) != NULL
        invariant f.IfPresent? ==> i <= 1
      {
        WindowFits(heap, layout, contents);
        ChildApartIf(heap, layout, contents, ROOT, true);
        if f.IfAbsent? || kk in contents {
          HeldTaken(heap, layout, contents, kk);
          FirstStep(heap, layout, contents, kk);
        }
        ValuesNotZero(heap, layout, contents, kk);
        var right := heap[ROOT].right;
        if right == NULL {
          if f.IfAbsent? || kk in contents {
            NoEntry(heap, layout, contents, kk);
          }
          if !ShouldUpdate(f, 0) {
            return Some(NoUpdateResult(f, 0));
          }
          if newValue != 0 {
            AddChild(ROOT, true, k, newValue);
            HeightKeeps(heap, layout, contents, ROOT, 2, WithHeight(heap, ROOT, 2));
            if BalancedBut(ROOT) && AllValued() {
              RootHeight(heap, layout, contents, 2);
            }
            heap := WithHeight(heap, ROOT, 2);
          }
          return Some(UpdateResult(f, 0));
        }
        GoesBelow(heap, layout, contents, ROOT, true, kk, f.IfAbsent? && kk !in contents);
        layout := Opened(layout, ROOT, true, right, f.IfAbsent? && kk !in contents);
        var vo := AttemptUpdate(k, f, newValue, ROOT, right, heap[right].version, rounds, turns);
        if vo == None {
          return None;
        }
        if vo != Some(RETRY) {
          return Some(if vo.value == NOT_FOUND then 0 else vo.value);
        }
        i := i + 1;
      }
      r := None;
    }

    /** bst_add. The entry is added exactly if there is none; the answer is right exactly if the value that is there
        already is none of the reserved ones. A key outside the bounds for which a key of the map is taken adds nothing. */
    method Add(k: int, v: int, rounds: nat, turns: nat) returns (added: Option<bool>)
      requires Valid() && MayUpdate(k, IfAbsent) && turns >= 2
      modifies this
      ensures Valid()
      ensures contents == if Taken(bot, k) in old(contents) || v == 0 then old(contents) else old(contents)[k := v]
      ensures added == var was := Found(old(contents), Taken(bot, k));
                       if was == RETRY then None else Some(was == 0 || was == NOT_FOUND)
      ensures KeyOk(layout, k) ==> Taken(bot, k) == k && (added == Some(k !in old(contents)) <==> !Reserved(Found(old(contents), k)))
      ensures old(TopNode()) == NULL && v != 0 ==>
                TopNode() in heap && heap[TopNode()].key == k && heap[TopNode()].value == v
      ensures old(Steady(rounds)) && Found(old(contents), Taken(bot, k)) != RETRY ==> Balanced() && (v != 0 ==> AllValued())
    {
      hide BronsonTree.Valid, Taken, RestBut, Whole;
      ValuesNotZero(heap, layout, contents, Taken(bot, k));
      HeldInside(heap, layout, contents, k);
      var res := UpdateUnderRoot(k, IfAbsent, v, rounds, turns);
      added := if res == None then None else Some(res.value == NOT_FOUND || res.value == 0);
    }

    /** bst_remove, for any key at all. The entry for which the key is taken is always removed; the answer is right exactly
        if it is the key's own and its value is none of the reserved ones, or there is none. */
    method Remove(k: int, rounds: nat, turns: nat) returns (v: Option<int>)
      requires Valid() && turns >= 2
      modifies this
      ensures Valid() && contents == old(contents) - {Taken(bot, k)}
      ensures var was := Found(old(contents), Taken(bot, k)); v == Some(if Reserved(was) then 0 else was)
      ensures k in old(contents) ==> Taken(bot, k) == k && (v == Some(old(contents)[k]) <==> !Reserved(old(contents)[k]))
      ensures k !in old(contents) ==>
                (contents != old(contents) <==> exists key :: key in old(contents) && SameInt(k, key))
      ensures old(Steady(rounds)) && Found(old(contents), Taken(bot, k)) != RETRY ==> Balanced()
    {
      hide BronsonTree.Valid, Taken, SameInt, RestBut, Whole;
      ValuesNotZero(heap, layout, contents, Taken(bot, k));
      HeldInside(heap, layout, contents, k);
      var res := UpdateUnderRoot(k, IfPresent, 0, rounds, turns);
      v := Some(if res == Some(NOT_FOUND) || res == None then 0 else res.value);
    }

    /** bst_size of a subtree */
    method SubtreeSize(node: Ref) returns (r: nat)
      requires Valid() && Dom(heap, layout) && node in layout.keys && node in layout.span && node in heap
      ensures r == |Present(heap, layout, node)|
      decreases Inside(layout, node)
    {
      hide BronsonTree.Valid, Inside;
      Around(heap, layout, contents, node);
      PresentSplits(heap, layout, contents, node);
      var left, right := 0, 0;
      if heap[node].left != NULL {
        ChildSmaller(heap, layout, contents, node, false);
        left := SubtreeSize(heap[node].left);
      }
      if heap[node].right != NULL {
        ChildSmaller(heap, layout, contents, node, true);
        right := SubtreeSize(heap[node].right);
      }
      r := (if heap[node].value != 0 then 1 else 0) + left + right;
    }

    /** bst_size */
    method Size() returns (r: nat)
      requires Valid()
      ensures r == |contents|
    {
      PresentCount(heap, layout, contents);
      r := SubtreeSize(ROOT);
    }
  }

  /** One key with the value 2, and then another: bst_add says that it has added a value for a key that is there,
      bst_remove that there was nothing to remove, and with the value 3 bst_add does not return. */
  method ReservedValuesFail(rounds: nat, turns: nat)
    returns (two: Option<bool>, removed: Option<int>, three: Option<bool>)
    requires turns >= 2
    ensures two == Some(true) && removed == Some(0) && three == None
  {
    hide BronsonTree.Valid;
    var t := new Bst(0, 10);
    var first := t.Add(1, NOT_FOUND, rounds, turns);
    assert 1 in t.contents && t.contents[1] == NOT_FOUND;
    two := t.Add(1, 7, rounds, turns);
    removed := t.Remove(1, rounds, turns);
    var u := new Bst(0, 10);
    first := u.Add(1, RETRY, rounds, turns);
    three := u.Add(1, 7, rounds, turns);
  }

  /** Of two keys with the value 2 at most one is in the top node, and bst_contains does not find the other; of two with
      the value 3 it does not return for the other. */
  method ContainsFails(rounds: nat, turns: nat)
    returns (one: Option<int>, two: Option<int>, three: Option<int>, four: Option<int>)
    requires turns >= 2
    ensures (one == Some(0) || two == Some(0)) && (three == None || four == None)
  {
    hide BronsonTree.Valid;
    var t := new Bst(0, 10);
    var first := t.Add(1, NOT_FOUND, rounds, turns);
    first := t.Add(2, NOT_FOUND, rounds, turns);
    assert t.contents == map[1 := NOT_FOUND, 2 := NOT_FOUND];
    one := t.Contains(1, turns);
    two := t.Contains(2, turns);
    var u := new Bst(0, 10);
    first := u.Add(1, RETRY, rounds, turns);
    first := u.Add(2, RETRY, rounds, turns);
    assert u.contents == map[1 := RETRY, 2 := RETRY];
    three := u.Contains(1, turns);
    four := u.Contains(2, turns);
  }

  /** Keys whose difference does not fit: a search for 2^32 in a tree with key 0 alone finds the value of key 0. */
  method WideKeyFails(rounds: nat, turns: nat) returns (t: Bst, v: Option<int>)
    requires turns >= 2
    ensures t.Valid() && 0x1_0000_0000 !in t.contents && v == Some(7)
  {
    hide BronsonTree.Valid;
    t := new Bst(-1, 10);
    var first := t.Add(0, 7, rounds, turns);
    assert t.contents == map[0 := 7];
    v := t.Contains(0x1_0000_0000, turns);
  }
}
