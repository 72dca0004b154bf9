/** What the other changes of the tree of src/bst-lock2 keep: heights, values, unlinked and new nodes. */
module BronsonSteps {
  import opened BronsonTree

  // ----- where a node is found

  ghost predicate In(k: int, s: Span) {
    s.lo < k < s.hi
  }

  /** The nodes whose keys lie in the interval of n. */
  ghost function Inside(g: Layout, n: Ref): (r: set<Ref>)
    requires n in g.span
    ensures forall m :: m in r <==> m in g.keys && In(g.keys[m], g.span[n])
  {
    set m | m in g.keys && In(g.keys[m], g.span[n])
  }

  lemma InsideShrinks(h: Heap, g: Layout, n: Ref, right: bool)
    requires Dom(h, g) && n in g.keys && NodeOk(h, g, n) && Child(h[n], right) != NULL
    ensures Child(h[n], right) in g.keys && Inside(g, Child(h[n], right)) < Inside(g, n)
  {
    var c := Child(h[n], right);
    assert n in Inside(g, n) && n !in Inside(g, c);
  }

  /** The side of n on which k lies, and the only way to the nodes there. */
  lemma {:induction false} Below(h: Heap, g: Layout, held: map<int, int>, y: Ref, x: Ref)
    requires Valid(h, g, held) && y in g.keys && x in g.keys && x != y && In(g.keys[x], g.span[y])
    ensures var right := g.keys[x] > g.keys[y]; var c := Child(h[y], right);
            && c in g.keys && In(g.keys[x], g.span[c])
            && Low(g, y, right) <= g.span[c].lo <= g.span[x].lo && g.span[x].hi <= g.span[c].hi <= High(g, y, right)
    decreases Inside(g, y)
  {
    assert NodeOk(h, g, y);
    assert g.keys[x] != g.keys[y];
    var right := g.keys[x] > g.keys[y];
    var c := Child(h[y], right);
    assert Fits(h, g, y, right, c);
    if x != c {
      InsideShrinks(h, g, y, right);
      Below(h, g, held, c, x);
    }
  }

  /** Intervals that share a value are nested. */
  lemma {:induction false} Nested(h: Heap, g: Layout, held: map<int, int>, y: Ref, x: Ref, z: Ref, k: int)
    requires Valid(h, g, held) && y in g.keys && x in g.keys && z in g.keys
    requires In(g.keys[x], g.span[y]) && In(g.keys[z], g.span[y]) && In(k, g.span[x]) && In(k, g.span[z])
    ensures In(g.keys[x], g.span[z]) || In(g.keys[z], g.span[x])
    decreases Inside(g, y)
  {
    if x != y && z != y {
      Below(h, g, held, y, x);
      Below(h, g, held, y, z);
      var right := g.keys[x] > g.keys[y];
      assert NodeOk(h, g, y);
      if right == (g.keys[z] > g.keys[y]) {
        InsideShrinks(h, g, y, right);
        Nested(h, g, held, Child(h[y], right), x, z, k);
      }
    }
  }

  lemma InRoot(h: Heap, g: Layout, held: map<int, int>, x: Ref)
    requires Valid(h, g, held) && x in g.keys
    ensures In(g.keys[x], g.span[ROOT])
  {
    assert x != ROOT ==> EntryOk(h, g, held, x);
  }

  // ----- heights and values

  /** h' differs from h in heights and values only. */
  ghost predicate SameLinks(h: Heap, g: Layout, h': Heap) {
    && Dom(h, g) && Dom(h', g) && h'.Keys == h.Keys
    && (forall x :: x in h && x !in g.keys ==> h'[x] == h[x])
    && forall x :: x in g.keys ==>
         h'[x].parent == h[x].parent && h'[x].left == h[x].left && h'[x].right == h[x].right
             && h'[x].version == h[x].version
  }

  lemma NodeSame(h: Heap, g: Layout, h': Heap, x: Ref)
    requires SameLinks(h, g, h') && x in g.keys
    ensures NodeOk(h, g, x) ==> NodeOk(h', g, x)
    ensures LinkOk(h, g, x) ==> LinkOk(h', g, x)
  {
    hide NoneIn, Covers;
  }

  /** With the same links the tree is as before, if the entries are in order. */
  lemma LinksSuffice(h: Heap, g: Layout, held: map<int, int>, h': Heap, held': map<int, int>)
    requires Valid(h, g, held) && SameLinks(h, g, h') && h'[ROOT].value == 0
    requires forall x :: x in g.keys && x != ROOT ==> EntryOk(h', g, held', x)
    requires forall k :: k in held' ==> HasKey(g.keys, k)
    ensures Valid(h', g, held')
  {
    hide NodeOk, LinkOk, EntryOk, HasKey, KeysDiffer;
    forall x | x in g.keys ensures NodeOk(h', g, x) && (x != ROOT ==> LinkOk(h', g, x)) {
      NodeSame(h, g, h', x);
    }
  }

  lemma UpdateLinks(h: Heap, g: Layout, n: Ref, x: Node)
    requires Dom(h, g) && n in g.keys
    requires x.parent == h[n].parent && x.left == h[n].left && x.right == h[n].right && x.version == h[n].version
    ensures SameLinks(h, g, h[n := x])
  {
  }

  lemma HeightEntry(h: Heap, g: Layout, held: map<int, int>, n: Ref, v: int, h': Heap, x: Ref)
    requires Dom(h, g) && n in g.keys && v >= 1 && h' == h[n := h[n].(height := v)] && Dom(h', g)
    requires x in g.keys && EntryOk(h, g, held, x)
    ensures EntryOk(h', g, held, x)
  {
  }

  lemma HeightKeeps(h: Heap, g: Layout, held: map<int, int>, n: Ref, v: int, h': Heap)
    requires Valid(h, g, held) && n in g.keys && v >= 1 && h' == h[n := h[n].(height := v)]
    ensures Valid(h', g, held)
  {
    hide NodeOk, LinkOk, EntryOk, HasKey, KeysDiffer;
    UpdateLinks(h, g, n, h[n].(height := v));
    forall x | x in g.keys && x != ROOT ensures EntryOk(h', g, held, x) {
      HeightEntry(h, g, held, n, v, h', x);
    }
    LinksSuffice(h, g, held, h', held);
  }

  function SetEntry(m: map<int, int>, k: int, v: int): map<int, int> {
    if v == 0 then m - {k} else m[k := v]
  }

  lemma ValueEntry(h: Heap, g: Layout, held: map<int, int>, n: Ref, v: int, h': Heap, x: Ref)
    requires Dom(h, g) && n in g.keys && h' == h[n := h[n].(value := v)] && Dom(h', g)
    requires x in g.keys && EntryOk(h, g, held, x) && (x != n ==> g.keys[x] != h[n].key)
    ensures EntryOk(h', g, SetEntry(held, h[n].key, v), x)
  {
  }

  lemma SetEntryKeys(q: Keys, held: map<int, int>, n: Ref, v: int)
    requires n in q && n != ROOT && forall k :: k in held ==> HasKey(q, k)
    ensures forall k :: k in SetEntry(held, q[n], v) ==> HasKey(q, k)
  {
    assert HasKey(q, q[n]);
  }

  /** A node gets a value, or loses it and stays for routing. */
  lemma ValueKeeps(h: Heap, g: Layout, held: map<int, int>, n: Ref, v: int, h': Heap)
    requires Valid(h, g, held) && n in g.keys && n != ROOT
    requires h' == h[n := h[n].(value := v)]
    ensures Valid(h', g, SetEntry(held, h[n].key, v))
  {
    assert EntryOk(h, g, held, n) && h[n].key == g.keys[n];
    hide NodeOk, LinkOk, EntryOk, HasKey;
    UpdateLinks(h, g, n, h[n].(value := v));
    forall x | x in g.keys && x != ROOT ensures EntryOk(h', g, SetEntry(held, h[n].key, v), x) {
      ValueEntry(h, g, held, n, v, h', x);
    }
    SetEntryKeys(g.keys, held, n, v);
    hide SetEntry, KeysDiffer;
    LinksSuffice(h, g, held, h', SetEntry(held, h[n].key, v));
  }

  // ----- unlinking

  /** attempt_unlink_nl: s, the only child of n or NULL, has been put in its place below p. */
  ghost predicate Unlinked(h: Heap, p: Ref, n: Ref, s: Ref, h': Heap) {
    && p in h && n in h && (s != NULL ==> s in h) && h'.Keys == h.Keys && p != n && p != s && n != s
    && (forall x :: x in h && x != p && x != n && x != s ==> h'[x] == h[x])
    && h'[p] == ReplaceChild(h[p], n, s) && (s != NULL ==> h'[s] == h[s].(parent := p))
    && h'[n] == h[n].(version := UNLINKED_OVL, value := 0)
  }

  ghost function Without(g: Layout, n: Ref): (r: Layout)
    ensures r.bot == g.bot && r.top == g.top
  {
    g.(keys := g.keys - {n}, span := g.span - {n})
  }

  lemma FewerKeys(q: Keys, n: Ref, lo: int, hi: int, l: int, u: int)
    ensures NoneIn(q, lo, hi) ==> NoneIn(q - {n}, lo, hi)
    ensures Covers(q, lo, hi, l, u) ==> Covers(q - {n}, lo, hi, l, u)
  {
  }

  /** Without n itself, its one child is all there was in its interval. */
  lemma OneSide(q: Keys, n: Ref, lo: int, hi: int, l: int, u: int)
    requires n in q && KeysDiffer(q) && l < q[n] < u && Covers(q, lo, hi, l, u)
    ensures NoneIn(q, l, q[n]) && NoneIn(q, q[n], u) ==> NoneIn(q - {n}, lo, hi)
    ensures forall a, b :: NoneIn(q, l, q[n]) && Covers(q, q[n], u, a, b) ==> Covers(q - {n}, lo, hi, a, b)
    ensures forall a, b :: NoneIn(q, q[n], u) && Covers(q, l, q[n], a, b) ==> Covers(q - {n}, lo, hi, a, b)
  {
  }

  ghost predicate Unlink(h: Heap, g: Layout, p: Ref, n: Ref, s: Ref, h': Heap, g': Layout) {
    && Dom(h, g) && p in g.keys && n in g.keys && n != ROOT && s != ROOT && (s != NULL ==> s in g.keys) && h[n].parent == p
    && (h[n].left == NULL || h[n].right == NULL) && s == (if h[n].left != NULL then h[n].left else h[n].right)
    && Unlinked(h, p, n, s, h') && g' == Without(g, n)
  }

  lemma UnlinkDom(h: Heap, g: Layout, p: Ref, n: Ref, s: Ref, h': Heap, g': Layout)
    requires Unlink(h, g, p, n, s, h', g')
    ensures AllKnown(h, g) ==> AllKnown(h', g')
    ensures Dom(h', g') && g'.keys == g.keys - {n} && g'.keys.Keys == g.keys.Keys - {n} && n in g.keys && n != ROOT
            && p in g'.keys
    ensures forall x :: x in g'.keys ==> g'.keys[x] == g.keys[x]
  {
  }

  lemma UnlinkAbove(h: Heap, g: Layout, p: Ref, n: Ref, s: Ref, h': Heap, g': Layout)
    requires Unlink(h, g, p, n, s, h', g') && Dom(h', g') && KeysDiffer(g.keys)
    requires NodeOk(h, g, p) && NodeOk(h, g, n) && LinkOk(h, g, n)
    ensures NodeOk(h', g', p)
  {
    hide NoneIn, Covers, KeysDiffer;
    var right := h[p].left != n;
    OneSide(g.keys, n, Low(g, p, right), High(g, p, right), g.span[n].lo, g.span[n].hi);
    var c := Child(h[p], !right);
    var s' := if c in g.keys then g.span[c] else Span(0, 0);
    FewerKeys(g.keys, n, Low(g, p, !right), High(g, p, !right), s'.lo, s'.hi);
  }

  lemma UnlinkRest(h: Heap, g: Layout, p: Ref, n: Ref, s: Ref, h': Heap, g': Layout, x: Ref)
    requires Unlink(h, g, p, n, s, h', g') && Dom(h', g')
    requires x in g.keys && x != p && x != n && NodeOk(h, g, x) && NodeOk(h, g, n)
    ensures NodeOk(h', g', x)
  {
    hide NoneIn, Covers;
    var l, r := h[x].left, h[x].right;
    var ls, rs := if l in g.keys then g.span[l] else Span(0, 0), if r in g.keys then g.span[r] else Span(0, 0);
    FewerKeys(g.keys, n, Low(g, x, false), High(g, x, false), ls.lo, ls.hi);
    FewerKeys(g.keys, n, Low(g, x, true), High(g, x, true), rs.lo, rs.hi);
  }

  lemma UnlinkLinks(h: Heap, g: Layout, p: Ref, n: Ref, s: Ref, h': Heap, g': Layout, x: Ref)
    requires Unlink(h, g, p, n, s, h', g') && Dom(h', g')
    requires x in g.keys && x != n && LinkOk(h, g, x) && LinkOk(h, g, n) && NodeOk(h, g, n)
    ensures LinkOk(h', g', x)
  {
    hide NoneIn, Covers;
  }

  lemma UnlinkPayload(h: Heap, g: Layout, p: Ref, n: Ref, s: Ref, h': Heap, g': Layout, x: Ref)
    requires Unlink(h, g, p, n, s, h', g') && Dom(h', g') && x in g.keys && x != n
    ensures x in g'.keys && g'.keys[x] == g.keys[x] && h'[x].key == h[x].key && h'[x].height == h[x].height
    ensures g'.bot == g.bot && g'.top == g.top
    ensures h'[x].value == h[x].value && h'[x].version == h[x].version
  {
  }

  lemma UnlinkEntries(h: Heap, g: Layout, held: map<int, int>, p: Ref, n: Ref, s: Ref, h': Heap, g': Layout, x: Ref)
    requires Dom(h, g) && Unlink(h, g, p, n, s, h', g') && Dom(h', g') && KeysDiffer(g.keys)
    requires n in g.keys && EntryOk(h, g, held, n) && x in g.keys && x != n && EntryOk(h, g, held, x)
    ensures x in g'.keys && EntryOk(h', g', held - {h[n].key}, x)
  {
    hide Unlink;
    assert g.keys[x] != g.keys[n];
    UnlinkPayload(h, g, p, n, s, h', g', x);
  }

  lemma UnlinkMap(q: Keys, held: map<int, int>, n: Ref)
    requires n in q && n != ROOT && KeysDiffer(q) && forall k :: k in held ==> HasKey(q, k)
    ensures KeysDiffer(q - {n}) && forall k :: k in held - {q[n]} ==> HasKey(q - {n}, k)
  {
    forall k | k in held - {q[n]} ensures HasKey(q - {n}, k) {
      assert HasKey(q, k);
      var m :| m in q && m != ROOT && q[m] == k;
      assert m in q - {n};
    }
  }

  lemma UnlinkRoot(h: Heap, g: Layout, p: Ref, n: Ref, s: Ref, h': Heap, g': Layout)
    requires Unlink(h, g, p, n, s, h', g') && Dom(h', g') && RootOk(h, g) && NodeOk(h, g, n) && LinkOk(h, g, n)
    ensures RootOk(h', g')
  {
    hide NoneIn, Covers;
  }

  lemma UnlinkNodes(h: Heap, g: Layout, held: map<int, int>, p: Ref, n: Ref, s: Ref, h': Heap, g': Layout)
    requires Valid(h, g, held) && Unlink(h, g, p, n, s, h', g') && Dom(h', g') && n in g.keys && n != ROOT && p in g.keys
    requires g'.keys.Keys == g.keys.Keys - {n}
    ensures forall x :: x in g'.keys ==> NodeOk(h', g', x)
  {
    hide NodeOk, LinkOk, EntryOk, Unlink, KeysDiffer;
    assert NodeOk(h, g, n) && LinkOk(h, g, n) && NodeOk(h, g, p);
    forall x | x in g'.keys ensures NodeOk(h', g', x) {
      if x == p {
        UnlinkAbove(h, g, p, n, s, h', g');
      } else {
        UnlinkRest(h, g, p, n, s, h', g', x);
      }
    }
  }

  /** Unlinking a node that has at most one child removes its key and nothing else. */
  lemma UnlinkValid(h: Heap, g: Layout, held: map<int, int>, p: Ref, n: Ref, s: Ref, h': Heap, g': Layout)
    requires Valid(h, g, held) && Unlink(h, g, p, n, s, h', g') && n in g.keys && n != ROOT && h[n].key == g.keys[n]
    ensures Valid(h', g', held - {h[n].key})
  {
    hide NodeOk, LinkOk, EntryOk, Unlink, RootOk, HasKey, KeysDiffer;
    UnlinkDom(h, g, p, n, s, h', g');
    assert NodeOk(h, g, n) && LinkOk(h, g, n) && EntryOk(h, g, held, n);
    UnlinkNodes(h, g, held, p, n, s, h', g');
    UnlinkRoot(h, g, p, n, s, h', g');
    UnlinkMap(g.keys, held, n);
    forall x | x in g'.keys && x != ROOT ensures LinkOk(h', g', x) && EntryOk(h', g', held - {h[n].key}, x) {
      UnlinkLinks(h, g, p, n, s, h', g', x);
      UnlinkEntries(h, g, held, p, n, s, h', g', x);
    }
  }

  // ----- a new node

  /** The side of p is empty, and k, which lies there, is not in the tree. r is to be its node. */
  ghost predicate Free(h: Heap, g: Layout, p: Ref, right: bool, k: int, r: Ref) {
    && Dom(h, g) && p in g.keys && Child(h[p], right) == NULL && Low(g, p, right) < k < High(g, p, right) && KeyOk(g, k)
    && r !in h && r != NULL
  }

  function NewLeaf(p: Ref, k: int, v: int): Node {
    Node(1, k, v, 0, p, NULL, NULL)
  }

  ghost function WithLeaf(g: Layout, p: Ref, right: bool, k: int, r: Ref): Layout
    requires p in g.keys && p in g.span
  {
    g.(keys := g.keys[r := k], span := g.span[r := Span(Low(g, p, right), High(g, p, right))])
  }

  /** set_child of a new node */
  ghost predicate Inserted(h: Heap, g: Layout, p: Ref, right: bool, k: int, v: int, r: Ref, h': Heap, g': Layout) {
    && Free(h, g, p, right, k, r) && v != 0
    && h' == h[r := NewLeaf(p, k, v)][p := WithChild(h[p], right, r)] && g' == WithLeaf(g, p, right, k, r)
  }

  lemma InsertDom(h: Heap, g: Layout, p: Ref, right: bool, k: int, v: int, r: Ref, h': Heap, g': Layout)
    requires Inserted(h, g, p, right, k, v, r, h', g')
    ensures AllKnown(h, g) ==> AllKnown(h', g')
    ensures Dom(h', g') && g'.keys == g.keys[r := k] && r !in g.keys && p in g.keys && r != ROOT
  {
  }

  /** Wherever else the new key lies, the tree leads down to p: the intervals are nested. */
  lemma InsertFits(h: Heap, g: Layout, held: map<int, int>, p: Ref, right: bool, k: int, r: Ref, x: Ref, side: bool)
    requires Valid(h, g, held) && Free(h, g, p, right, k, r) && x in g.keys && (x != p || side != right)
    requires Low(g, x, side) < k < High(g, x, side)
    ensures Child(h[x], side) in g.keys && In(k, g.span[Child(h[x], side)])
  {
    assert NodeOk(h, g, x) && NodeOk(h, g, p) && NodeOk(h, g, ROOT);
    if x != p {
      InRoot(h, g, held, x);
      InRoot(h, g, held, p);
      Nested(h, g, held, ROOT, x, p, k);
      if In(g.keys[p], g.span[x]) {
        Below(h, g, held, x, p);
      } else {
        Below(h, g, held, p, x);
      }
    }
  }

  lemma MoreKeys(q: Keys, r: Ref, k: int, lo: int, hi: int, l: int, u: int)
    requires r !in q
    ensures NoneIn(q, lo, hi) && !(lo < k < hi) ==> NoneIn(q[r := k], lo, hi)
    ensures Covers(q, lo, hi, l, u) && (lo < k < hi ==> l < k < u) ==> Covers(q[r := k], lo, hi, l, u)
  {
  }

  /** What the insertion leaves of a node x that was there. */
  lemma InsertKept(h: Heap, g: Layout, p: Ref, right: bool, k: int, v: int, r: Ref, h': Heap, g': Layout, x: Ref)
    requires Inserted(h, g, p, right, k, v, r, h', g') && Dom(h', g') && x in g.keys
    ensures x in g'.keys && g'.keys[x] == g.keys[x] && g'.span[x] == g.span[x] && x != r
    ensures g'.bot == g.bot && g'.top == g.top
    ensures h'[x] == if x == p then WithChild(h[x], right, r) else h[x]
  {
  }

  lemma InsertOldSide(h: Heap, g: Layout, p: Ref, right: bool, k: int, v: int, r: Ref, h': Heap, g': Layout,
                      x: Ref, side: bool, c: Ref)
    requires Inserted(h, g, p, right, k, v, r, h', g') && Dom(h', g') && x in g.keys && Fits(h, g, x, side, c)
    requires Low(g, x, side) < k < High(g, x, side) ==> c in g.keys && In(k, g.span[c])
    ensures Fits(h', g', x, side, c)
  {
    var s := if c in g.keys then g.span[c] else Span(0, 0);
    hide NoneIn, Covers;
    MoreKeys(g.keys, r, k, Low(g, x, side), High(g, x, side), s.lo, s.hi);
  }

  lemma InsertNewSide(h: Heap, g: Layout, p: Ref, right: bool, k: int, v: int, r: Ref, h': Heap, g': Layout)
    requires Inserted(h, g, p, right, k, v, r, h', g') && Dom(h', g')
    ensures Fits(h', g', p, right, r)
  {
  }

  /** One side of a node of the tree, seen with the new key. */
  lemma InsertSide(h: Heap, g: Layout, held: map<int, int>, p: Ref, right: bool, k: int, v: int, r: Ref, h': Heap,
      g': Layout,
                   x: Ref, side: bool)
    requires Valid(h, g, held) && Inserted(h, g, p, right, k, v, r, h', g') && Free(h, g, p, right, k, r) && Dom(h', g')
    requires x in g.keys && x in g'.keys
    ensures Fits(h', g', x, side, if x == p && side == right then r else Child(h[x], side))
  {
    assert NodeOk(h, g, x) && Fits(h, g, x, side, Child(h[x], side));
    hide Inserted, Free, Fits, NodeOk;
    if x == p && side == right {
      InsertNewSide(h, g, p, right, k, v, r, h', g');
    } else {
      if Low(g, x, side) < k < High(g, x, side) {
        InsertFits(h, g, held, p, right, k, r, x, side);
      }
      hide Valid;
      InsertOldSide(h, g, p, right, k, v, r, h', g', x, side, Child(h[x], side));
    }
  }

  lemma InsertLeaf(h: Heap, g: Layout, held: map<int, int>, p: Ref, right: bool, k: int, v: int, r: Ref, h': Heap,
      g': Layout)
    requires Inserted(h, g, p, right, k, v, r, h', g') && Dom(h', g') && NodeOk(h, g, p)
    ensures r in g'.keys && NodeOk(h', g', r) && LinkOk(h', g', r) && EntryOk(h', g', held[k := v], r)
  {
    assert NoneIn(g.keys, Low(g, p, right), High(g, p, right));
  }

  lemma InsertNode(h: Heap, g: Layout, held: map<int, int>, p: Ref, right: bool, k: int, v: int, r: Ref, h': Heap,
      g': Layout,
                   x: Ref)
    requires Valid(h, g, held) && Inserted(h, g, p, right, k, v, r, h', g') && Free(h, g, p, right, k, r) && Dom(h', g')
    requires x in g.keys
    ensures x in g'.keys && NodeOk(h', g', x)
  {
    assert NodeOk(h, g, x);
    assert g.span[x].lo < g.keys[x] < g.span[x].hi;
    hide Valid, Fits, NodeOk, Inserted, Free;
    InsertKept(h, g, p, right, k, v, r, h', g', x);
    InsertSide(h, g, held, p, right, k, v, r, h', g', x, false);
    InsertSide(h, g, held, p, right, k, v, r, h', g', x, true);
    TwoSides(h', g', x);
  }

  lemma TwoSides(h: Heap, g: Layout, x: Ref)
    requires Dom(h, g) && x in g.keys && g.span[x].lo < g.keys[x] < g.span[x].hi
    requires Fits(h, g, x, false, h[x].left) && Fits(h, g, x, true, h[x].right)
    ensures NodeOk(h, g, x)
  {
  }

  lemma InsertLinks(h: Heap, g: Layout, p: Ref, right: bool, k: int, v: int, r: Ref, h': Heap, g': Layout, x: Ref)
    requires Inserted(h, g, p, right, k, v, r, h', g') && Dom(h', g') && x in g.keys && LinkOk(h, g, x)
    ensures x in g'.keys && LinkOk(h', g', x)
  {
  }

  lemma InsertEntries(h: Heap, g: Layout, held: map<int, int>, p: Ref, right: bool, k: int, v: int, r: Ref,
                      h': Heap, g': Layout, x: Ref)
    requires Inserted(h, g, p, right, k, v, r, h', g') && Dom(h', g') && x in g.keys && EntryOk(h, g, held, x)
    requires g.keys[x] != k
    ensures x in g'.keys && EntryOk(h', g', held[k := v], x)
  {
    hide Inserted;
    InsertKept(h, g, p, right, k, v, r, h', g', x);
  }

  lemma InsertMap(q: Keys, held: map<int, int>, r: Ref, k: int, v: int, q': Keys, held': map<int, int>)
    requires r !in q && r != ROOT && KeysDiffer(q) && (forall m :: m in q ==> q[m] != k)
    requires (forall j :: j in held ==> HasKey(q, j)) && q' == q[r := k] && held' == held[k := v]
    ensures KeysDiffer(q') && forall j :: j in held' ==> HasKey(q', j)
  {
    forall j | j in held' ensures HasKey(q', j) {
      if j == k {
        assert q'[r] == j;
      } else {
        assert HasKey(q, j);
        var m :| m in q && m != ROOT && q[m] == j;
        assert q'[m] == j;
      }
    }
  }

  lemma NotThere(h: Heap, g: Layout, held: map<int, int>, p: Ref, right: bool, k: int, r: Ref)
    requires Valid(h, g, held) && Free(h, g, p, right, k, r)
    ensures k !in held && forall m :: m in g.keys ==> g.keys[m] != k
  {
    assert NodeOk(h, g, p);
    assert NoneIn(g.keys, Low(g, p, right), High(g, p, right));
    assert k in held ==> HasKey(g.keys, k);
  }

  lemma InsertRoot(h: Heap, g: Layout, p: Ref, right: bool, k: int, v: int, r: Ref, h': Heap, g': Layout)
    requires Inserted(h, g, p, right, k, v, r, h', g') && Dom(h', g') && RootOk(h, g)
    ensures RootOk(h', g')
  {
  }

  lemma InsertAll(h: Heap, g: Layout, held: map<int, int>, p: Ref, right: bool, k: int, v: int, r: Ref,
                  h': Heap, g': Layout, x: Ref)
    requires Valid(h, g, held) && Inserted(h, g, p, right, k, v, r, h', g') && Dom(h', g') && x in g'.keys
    requires forall m :: m in g.keys ==> g.keys[m] != k
    ensures NodeOk(h', g', x) && (x != ROOT ==> LinkOk(h', g', x) && EntryOk(h', g', held[k := v], x))
  {
    assert Free(h, g, p, right, k, r) && p in g.keys;
    hide NodeOk, LinkOk, EntryOk, Inserted, Free, KeysDiffer;
    InsertDom(h, g, p, right, k, v, r, h', g');
    if x == r {
      assert NodeOk(h, g, p);
      InsertLeaf(h, g, held, p, right, k, v, r, h', g');
    } else {
      InsertNode(h, g, held, p, right, k, v, r, h', g', x);
      if x != ROOT {
        assert LinkOk(h, g, x) && EntryOk(h, g, held, x);
        InsertLinks(h, g, p, right, k, v, r, h', g', x);
        InsertEntries(h, g, held, p, right, k, v, r, h', g', x);
      }
    }
  }

  /** A new leaf adds its key, which was not there. */
  lemma InsertValid(h: Heap, g: Layout, held: map<int, int>, p: Ref, right: bool, k: int, v: int, r: Ref, h': Heap,
      g': Layout)
    requires Valid(h, g, held) && Inserted(h, g, p, right, k, v, r, h', g')
    ensures k !in held && Valid(h', g', held[k := v])
  {
    hide NodeOk, LinkOk, EntryOk, KeysDiffer, RootOk, HasKey;
    assert Free(h, g, p, right, k, r);
    hide Inserted, Free;
    NotThere(h, g, held, p, right, k, r);
    InsertDom(h, g, p, right, k, v, r, h', g');
    InsertRoot(h, g, p, right, k, v, r, h', g');
    InsertMap(g.keys, held, r, k, v, g'.keys, held[k := v]);
    forall x | x in g'.keys ensures NodeOk(h', g', x) && (x != ROOT ==> LinkOk(h', g', x) && EntryOk(h', g', held[k := v], x)) {
      InsertAll(h, g, held, p, right, k, v, r, h', g', x);
    }
  }

  // ----- the way down

  /** The interval of a child, widened to all the room there is. */
  ghost function Widened(g: Layout, p: Ref, right: bool, c: Ref): (r: Layout)
    requires p in g.keys && p in g.span
    ensures r.bot == g.bot && r.top == g.top && r.keys == g.keys
  {
    g.(span := g.span[c := Span(Low(g, p, right), High(g, p, right))])
  }

  ghost predicate Widen(h: Heap, g: Layout, p: Ref, right: bool, c: Ref, g': Layout) {
    && Dom(h, g) && p in g.keys && c in g.keys && c != p && c != ROOT && c == Child(h[p], right)
    && g' == Widened(g, p, right, c) && Dom(h, g')
  }

  lemma WidenChild(h: Heap, g: Layout, p: Ref, right: bool, c: Ref, g': Layout)
    requires Widen(h, g, p, right, c, g') && NodeOk(h, g, p) && NodeOk(h, g, c)
    ensures NodeOk(h, g', c)
  {
    Inherit(g.keys, Low(g, p, right), High(g, p, right), g.span[c].lo, g.span[c].hi, g.keys[c]);
    hide NoneIn, Covers;
  }

  lemma WidenParent(h: Heap, g: Layout, p: Ref, right: bool, c: Ref, g': Layout)
    requires Widen(h, g, p, right, c, g') && NodeOk(h, g, p) && NodeOk(h, g, c)
    ensures NodeOk(h, g', p)
  {
    CoversAll(g.keys, Low(g, p, right), High(g, p, right));
    hide NoneIn, Covers;
  }

  lemma WidenRest(h: Heap, g: Layout, p: Ref, right: bool, c: Ref, g': Layout, x: Ref)
    requires Widen(h, g, p, right, c, g') && x in g.keys && x != p && x != c && NodeOk(h, g, p) && NodeOk(h, g, x)
    ensures NodeOk(h, g', x)
  {
    hide NoneIn, Covers;
  }

  lemma CoversAll(q: Keys, lo: int, hi: int)
    ensures Covers(q, lo, hi, lo, hi)
  {
  }

  lemma WidenAll(h: Heap, g: Layout, held: map<int, int>, p: Ref, right: bool, c: Ref, g': Layout)
    requires Valid(h, g, held) && Widen(h, g, p, right, c, g') && Dom(h, g') && p in g.keys && c in g.keys
    requires g'.keys == g.keys
    ensures forall x :: x in g'.keys ==> NodeOk(h, g', x) && (x != ROOT ==> LinkOk(h, g', x) && EntryOk(h, g', held, x))
  {
    assert NodeOk(h, g, p) && NodeOk(h, g, c);
    hide NodeOk, Widen, KeysDiffer;
    WidenChild(h, g, p, right, c, g');
    WidenParent(h, g, p, right, c, g');
    forall x | x in g'.keys ensures NodeOk(h, g', x) {
      if x != p && x != c {
        WidenRest(h, g, p, right, c, g', x);
      }
    }
    forall x | x in g'.keys && x != ROOT ensures LinkOk(h, g', x) && EntryOk(h, g', held, x) {
      assert LinkOk(h, g, x) && EntryOk(h, g, held, x);
    }
  }

  lemma ChildApart(h: Heap, g: Layout, held: map<int, int>, p: Ref, right: bool)
    requires Valid(h, g, held) && p in g.keys && Child(h[p], right) != NULL
    ensures Child(h[p], right) in g.keys && Child(h[p], right) != ROOT && Child(h[p], right) != p
  {
    assert NodeOk(h, g, p);
    assert Fits(h, g, p, right, Child(h[p], right));
    assert NodeOk(h, g, Child(h[p], right));
  }

  /** A search may take the interval of the next node to be as wide as it can be. */
  lemma WidenValid(h: Heap, g: Layout, held: map<int, int>, p: Ref, right: bool)
    requires Valid(h, g, held) && p in g.keys && Child(h[p], right) != NULL
    ensures Child(h[p], right) in g.keys && Child(h[p], right) != ROOT && Child(h[p], right) != p
    ensures Valid(h, Widened(g, p, right, Child(h[p], right)), held)
  {
    hide NodeOk, LinkOk, EntryOk, KeysDiffer, HasKey, RootOk, Child;
    ChildApart(h, g, held, p, right);
    var c := Child(h[p], right);
    var g' := Widened(g, p, right, c);
    WidenRoot(h, g, p, right, c, g');
    hide Widened;
    WidenAll(h, g, held, p, right, c, g');
  }

  lemma WidenRoot(h: Heap, g: Layout, p: Ref, right: bool, c: Ref, g': Layout)
    requires Dom(h, g) && RootOk(h, g) && p in g.keys && c in g.keys && c != p && c != ROOT && c == Child(h[p], right)
    requires g' == Widened(g, p, right, c)
    ensures g'.keys == g.keys && Dom(h, g') && RootOk(h, g') && Widen(h, g, p, right, c, g')
  {
  }

  /** A key that is in the interval of n, if anywhere, is in that of the child on its side. */
  lemma GoDown(h: Heap, g: Layout, held: map<int, int>, n: Ref, k: int)
    requires Valid(h, g, held) && n in g.keys && k != g.keys[n] && (HasKey(g.keys, k) ==> In(k, g.span[n]))
    ensures var c := Child(h[n], k > g.keys[n]);
            if c == NULL then !HasKey(g.keys, k) else c in g.keys && c != ROOT && (HasKey(g.keys, k) ==> In(k, g.span[c]))
  {
    assert NodeOk(h, g, n);
    assert Fits(h, g, n, k > g.keys[n], Child(h[n], k > g.keys[n]));
  }
}
