/** A tree with a routing node that the rebalancing of src/bst-lock2/bst_bronson_java.c leaves out of balance. */
module BronsonLeaning {
  import opened BronsonTree
  import opened BronsonSteps
  import opened BronsonReady

  /** Node 2 is two higher on the left than on the right; its left child, 3, is a routing node that leans to the right, and
      6 has no left child. So it was before the key 35 was added: all nodes at rest, with 6 one lower. */
  const LEANING: Heap := map[
    ROOT := Node(2, 0, 0, 0, NULL, NULL, 2),
    2 := Node(3, 40, 1, 0, ROOT, 3, 4),
    3 := Node(3, 20, 0, 0, 2, 5, 6),
    4 := Node(1, 50, 1, 0, 2, NULL, NULL),
    5 := Node(1, 10, 1, 0, 3, NULL, NULL),
    6 := Node(2, 30, 1, 0, 3, NULL, 7),
    7 := Node(1, 35, 1, 0, 6, NULL, NULL)]

  const LAYOUT := Layout(0, 60,
    map[ROOT := 0, 2 := 40, 3 := 20, 4 := 50, 5 := 10, 6 := 30, 7 := 35],
    map[ROOT := Span(-1, 60), 2 := Span(0, 60), 3 := Span(0, 40), 4 := Span(40, 60), 5 := Span(0, 20),
        6 := Span(20, 40), 7 := Span(30, 40)])

  const HELD := map[40 := 1, 50 := 1, 10 := 1, 30 := 1, 35 := 1]

  /** The same, entry by entry */
  predicate Leans(h: Heap, g: Layout) {
    && h.Keys == g.keys.Keys == g.span.Keys == {1, 2, 3, 4, 5, 6, 7} && g.bot == 0 && g.top == 60
    && h[1] == Node(2, 0, 0, 0, NULL, NULL, 2) && g.keys[1] == 0 && g.span[1] == Span(-1, 60)
    && h[2] == Node(3, 40, 1, 0, ROOT, 3, 4) && g.keys[2] == 40 && g.span[2] == Span(0, 60)
    && h[3] == Node(3, 20, 0, 0, 2, 5, 6) && g.keys[3] == 20 && g.span[3] == Span(0, 40)
    && h[4] == Node(1, 50, 1, 0, 2, NULL, NULL) && g.keys[4] == 50 && g.span[4] == Span(40, 60)
    && h[5] == Node(1, 10, 1, 0, 3, NULL, NULL) && g.keys[5] == 10 && g.span[5] == Span(0, 20)
    && h[6] == Node(2, 30, 1, 0, 3, NULL, 7) && g.keys[6] == 30 && g.span[6] == Span(20, 40)
    && h[7] == Node(1, 35, 1, 0, 6, NULL, NULL) && g.keys[7] == 35 && g.span[7] == Span(30, 40)
  }

  lemma ItLeans()
    ensures Leans(LEANING, LAYOUT)
  {
  }

  lemma LeaningNode(h: Heap, g: Layout, n: Ref)
    requires Leans(h, g) && n in g.keys
    ensures Dom(h, g) && NodeOk(h, g, n)
  {
  }

  lemma LeaningLink(h: Heap, g: Layout, n: Ref)
    requires Leans(h, g) && n in g.keys && n != ROOT
    ensures Dom(h, g) && LinkOk(h, g, n) && EntryOk(h, g, HELD, n)
  {
  }

  lemma LeaningKeys(h: Heap, g: Layout, k: int)
    requires Leans(h, g)
    ensures k in HELD ==> HasKey(g.keys, k)
    ensures KeysDiffer(g.keys) && Dom(h, g) && RootOk(h, g) && AllKnown(h, g)
  {
    assert 2 in g.keys && 4 in g.keys && 5 in g.keys && 6 in g.keys && 7 in g.keys;
  }

  lemma LeaningValid(h: Heap, g: Layout)
    requires Leans(h, g)
    ensures Valid(h, g, HELD) && NULL !in h
  {
    hide NodeOk, LinkOk, EntryOk, HasKey, KeysDiffer, RootOk, AllKnown, Leans;
    LeaningKeys(h, g, 0);
    forall n | n in g.keys ensures NodeOk(h, g, n) {
      LeaningNode(h, g, n);
    }
    forall n | n in g.keys && n != ROOT ensures LinkOk(h, g, n) && EntryOk(h, g, HELD, n) {
      LeaningLink(h, g, n);
    }
    forall k | k in HELD ensures HasKey(g.keys, k) {
      LeaningKeys(h, g, k);
    }
  }

  lemma LeaningStops(h: Heap, g: Layout)
    requires Leans(h, g)
    ensures NodeCondition(h, 2) == REBALANCE_REQUIRED && MendOf(h, g, 2, true) == Leave(3) && AtRest(h, 3)
  {
    LeaningValid(h, g);
    assert !Doubles(h, 3, true);
    hide Valid;
    StopsEarlyIff(h, g, HELD, 2, true);
  }

  /** A valid tree in which a node needs rebalancing and gets none: the repair leaves everything as it is and goes on
      to a node below, which needs nothing, so that the loop ends. */
  lemma StopsUnbalanced()
    ensures Valid(LEANING, LAYOUT, HELD) && NULL !in LEANING && 2 in LAYOUT.span
    ensures NodeCondition(LEANING, 2) == REBALANCE_REQUIRED
    ensures MendOf(LEANING, LAYOUT, 2, true) == Leave(3) && AtRest(LEANING, 3)
  {
    ItLeans();
    hide Leans;
    LeaningValid(LEANING, LAYOUT);
    LeaningStops(LEANING, LAYOUT);
  }
}
