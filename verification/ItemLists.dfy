/** Sequences of retired nodes, and small facts about sequences that the schemes share. */
module ItemLists {
  import opened Addresses
  import opened DoubleLlist

  function LastOf(q: seq<Item>): Item
    requires q != []
  {
    q[|q| - 1]
  }

  function Front(q: seq<Item>): seq<Item>
    requires q != []
  {
    q[..|q| - 1]
  }

  function Nodes(q: seq<Item>): (nodes: seq<Node>)
    ensures |nodes| == |q| && forall i :: 0 <= i < |q| ==> nodes[i] == q[i].node
  {
    seq(|q|, i requires 0 <= i < |q| => q[i].node)
  }

  function Reversed<T>(q: seq<T>): (r: seq<T>) {
    if q == [] then [] else Reversed(q[1..]) + [q[0]]
  }

  lemma Regroup<T>(a: seq<T>, b: seq<T>, c: seq<T>)
    ensures (a + b) + c == a + (b + c)
  {
  }

  /** x goes between a and c, or not. */
  lemma Between<T>(a: seq<T>, x: T, there: bool, c: seq<T>)
    ensures (a + if there then [x] else []) + c == a + (if there then [x] + c else c)
    ensures a + ((if there then [x] else []) + c) == (if there then a + [x] else a) + c
  {
    if there {
      Regroup(a, [x], c);
    } else {
      assert a + [] == a && [] + c == c;
    }
  }

  lemma MultisetCons<T>(x: T, q: seq<T>)
    ensures multiset([x] + q) == multiset{x} + multiset(q)
  {
  }

  lemma MoveOver<T>(a: multiset<T>, r: multiset<T>, q: multiset<T>, k: multiset<T>, n: T)
    requires a + r == q + k
    ensures a + (multiset{n} + r) == (multiset{n} + q) + k
  {
    assert a + (multiset{n} + r) == multiset{n} + (a + r);
  }

  lemma Swap<T>(q: multiset<T>, k: multiset<T>, n: T)
    ensures q + (multiset{n} + k) == (multiset{n} + q) + k
  {
  }

  lemma {:induction false} ReversedSnoc<T>(q: seq<T>, x: T)
    ensures Reversed(q + [x]) == [x] + Reversed(q)
  {
    if q == [] {
      assert q + [x] == [x];
    } else {
      assert (q + [x])[1..] == q[1..] + [x];
      ReversedSnoc(q[1..], x);
    }
  }

  lemma {:induction false} ReversedSame<T>(q: seq<T>)
    ensures multiset(Reversed(q)) == multiset(q)
  {
    if q != [] {
      ReversedSame(q[1..]);
      assert q == [q[0]] + q[1..];
    }
  }

  lemma NodesFront(q: seq<Item>)
    requires q != []
    ensures multiset(Nodes(q)) == multiset(Nodes(Front(q))) + multiset{LastOf(q).node}
  {
    assert Nodes(q) == Nodes(Front(q)) + [LastOf(q).node];
  }

  lemma NodesCons(x: Item, q: seq<Item>)
    ensures multiset(Nodes([x] + q)) == multiset{x.node} + multiset(Nodes(q))
  {
    assert Nodes([x] + q) == [x.node] + Nodes(q);
  }

  lemma NodesAppend(p: seq<Item>, q: seq<Item>)
    ensures multiset(Nodes(p + q)) == multiset(Nodes(p)) + multiset(Nodes(q))
  {
    assert Nodes(p + q) == Nodes(p) + Nodes(q);
  }

  /** One round of a scan's loop. */
  lemma RoundConserves(p: seq<Item>, x: Item, keep: bool, kept: seq<Item>, dropped: seq<Node>)
    requires multiset(Nodes(kept)) + multiset(dropped) == multiset(Nodes(p))
    ensures multiset(Nodes(kept + if keep then [x] else [])) + multiset((if keep then [] else [x.node]) + dropped)
         == multiset(Nodes(p)) + multiset{x.node}
  {
    if keep {
      NodesAppend(kept, [x]);
      assert Nodes([x]) == [x.node] && [] + dropped == dropped;
    } else {
      assert kept + [] == kept && multiset([x.node] + dropped) == multiset{x.node} + multiset(dropped);
    }
  }

  // ----- lists sifted by a verdict on each position

  /** What stays, in order. */
  function Chosen(q: seq<Item>, stay: seq<bool>): seq<Item>
    requires |stay| == |q|
  {
    if q == [] then []
    else Chosen(Front(q), stay[..|q| - 1]) + if stay[|q| - 1] then [LastOf(q)] else []
  }

  /** What goes, from the tail to the head. */
  function Rest(q: seq<Item>, stay: seq<bool>): seq<Node>
    requires |stay| == |q|
  {
    if q == [] then []
    else (if stay[|q| - 1] then [] else [LastOf(q).node]) + Rest(Front(q), stay[..|q| - 1])
  }

  /** left is what stands at some positions of q, in order. */
  predicate Picked(q: seq<Item>, left: seq<Item>, at: seq<nat>) {
    && |at| == |left| && (forall j :: 0 <= j < |at| ==> at[j] < |q| && left[j] == q[at[j]])
    && forall j, k :: 0 <= j < k < |at| ==> at[j] < at[k]
  }

  lemma PickedMore(q: seq<Item>, left: seq<Item>, at: seq<nat>, stays: bool)
    requires q != [] && Picked(Front(q), left, at)
    ensures Picked(q, left + if stays then [LastOf(q)] else [], if stays then at + [|q| - 1] else at)
  {
    assert left + [] == left;
  }

  lemma MembersMore(stay: seq<bool>, before: seq<nat>)
    requires stay != [] && forall j :: 0 <= j < |before| ==> before[j] < |stay| - 1
    requires forall p :: 0 <= p < |stay| - 1 ==> (p in before <==> stay[p])
    ensures var at := if stay[|stay| - 1] then before + [|stay| - 1] else before;
            forall p :: 0 <= p < |stay| ==> (p in at <==> stay[p])
  {
  }

  lemma {:induction false} ChosenAt(q: seq<Item>, stay: seq<bool>) returns (at: seq<nat>)
    requires |stay| == |q|
    ensures Picked(q, Chosen(q, stay), at) && forall p :: 0 <= p < |q| ==> (p in at <==> stay[p])
  {
    at := [];
    if q != [] {
      var last := |q| - 1;
      var front := stay[..last];
      var before := ChosenAt(Front(q), front);
      assert forall p :: 0 <= p < last ==> front[p] == stay[p];
      assert forall j :: 0 <= j < |before| ==> before[j] < last;
      at := if stay[last] then before + [last] else before;
      MembersMore(stay, before);
      hide Picked;
      PickedMore(q, Chosen(Front(q), front), before, stay[last]);
    }
  }

  lemma {:induction false} RestIff(q: seq<Item>, stay: seq<bool>, n: Node)
    requires |stay| == |q|
    ensures n in Rest(q, stay) <==> exists p :: 0 <= p < |q| && !stay[p] && q[p].node == n
  {
    if q != [] {
      var front := stay[..|q| - 1];
      RestIff(Front(q), front, n);
      assert forall p :: 0 <= p < |q| - 1 ==> front[p] == stay[p] && Front(q)[p] == q[p];
    }
  }

  /** How many stay and how many go. */
  lemma {:induction false} AllSifted(q: seq<Item>, stay: seq<bool>)
    requires |stay| == |q|
    ensures |Chosen(q, stay)| + |Rest(q, stay)| == |q|
  {
    if q != [] {
      AllSifted(Front(q), stay[..|q| - 1]);
    }
  }
}
