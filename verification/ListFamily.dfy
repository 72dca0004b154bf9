/** Several lists of src/double_llist.c side by side: what is done to one or two of them leaves the others alone. */
module ListFamily {
  import opened Addresses
  import opened DoubleLlist

  /** The lists are well formed, they and their wrappers are in repr, and no wrapper stands in two of them. */
  ghost predicate Family(ls: seq<DoubleList>, repr: set<object>)
    reads ls, repr
  {
    && (forall i :: 0 <= i < |ls| ==> ls[i] in repr && (forall x :: x in ls[i].nodes ==> x in repr) && ls[i].Valid())
    && forall i, j :: 0 <= i < j < |ls| ==> Apart(ls[i], ls[j])
  }

  /** All lists but i and j are as they were. */
  twostate predicate OthersKept(ls: seq<DoubleList>, i: nat, j: nat)
    reads ls
  {
    forall k :: 0 <= k < |ls| && k != i && k != j ==> ls[k].nodes == old(ls[k].nodes)
  }

  lemma ApartPair(ls: seq<DoubleList>, repr: set<object>, i: nat, j: nat)
    requires Family(ls, repr) && i < |ls| && j < |ls| && i != j
    ensures Apart(ls[i], ls[j])
  {
    if j < i {
      assert Apart(ls[j], ls[i]);
    }
  }

  lemma FamilyPrefix(ls: seq<DoubleList>, l: DoubleList, repr: set<object>)
    requires Family(ls + [l], repr)
    ensures Family(ls, repr)
  {
    var all := ls + [l];
    assert forall i :: 0 <= i < |ls| ==> all[i] == ls[i];
    hide *;
    forall i, j | 0 <= i < j < |ls| ensures Apart(ls[i], ls[j]) {
      assert Apart(all[i], all[j]);
    }
  }

  /** n lists, each just initialised */
  method EmptyLists(n: nat) returns (ls: seq<DoubleList>, ghost repr: set<object>)
    ensures |ls| == n && Family(ls, repr) && fresh(repr) && forall i :: 0 <= i < n ==> ls[i].nodes == []
  {
    ls, repr := [], {};
    while |ls| < n
      invariant |ls| <= n && Family(ls, repr) && fresh(repr) && forall i :: 0 <= i < |ls| ==> ls[i].nodes == []
    {
      var l := new DoubleList();
      ls, repr := ls + [l], repr + {l};
    }
  }

  /** remove_from_tail(ls[i]), then add_to_head(ls[j]). */
  method Shift(ls: seq<DoubleList>, ghost repr: set<object>, i: nat, j: nat) returns (x: MrNode)
    requires Family(ls, repr) && i < |ls| && j < |ls| && i != j && ls[i].nodes != []
    modifies repr
    ensures Family(ls, repr) && OthersKept(ls, i, j)
    ensures ls[i].nodes == old(ls[i].nodes)[..|old(ls[i].nodes)| - 1] && x == old(ls[i].nodes)[|old(ls[i].nodes)| - 1]
    ensures ls[j].nodes == [x] + old(ls[j].nodes)
  {
    forall k | 0 <= k < |ls| ensures (k != i ==> Apart(ls[k], ls[i])) && (k != j ==> Apart(ls[k], ls[j])) {
      if k != i { ApartPair(ls, repr, k, i); }
      if k != j { ApartPair(ls, repr, k, j); }
    }
    ApartPair(ls, repr, i, j);
    hide Chained;
    ghost var from := ls[i].nodes;
    x := MoveTail(ls[i], ls[j]);
    assert x in from && forall y :: y in ls[i].nodes ==> y in from;
    forall k | 0 <= k < |ls| && k != i && k != j ensures ls[k].Valid() {
      assert old(ls[k].Valid()) && old(Apart(ls[k], ls[i])) && old(Apart(ls[k], ls[j]));
      Untouched(ls[k]);
    }
    forall a, b | 0 <= a < b < |ls| ensures Apart(ls[a], ls[b]) {
      assert old(Apart(ls[a], ls[b]));
    }
  }

  /** add_to_head(ls[i], remove_from_tail(ls[i])). */
  method Turn(ls: seq<DoubleList>, ghost repr: set<object>, i: nat) returns (x: MrNode)
    requires Family(ls, repr) && i < |ls| && ls[i].nodes != []
    modifies repr
    ensures Family(ls, repr) && OthersKept(ls, i, i)
    ensures ls[i].nodes == [x] + old(ls[i].nodes)[..|old(ls[i].nodes)| - 1] && x == old(ls[i].nodes)[|old(ls[i].nodes)| - 1]
  {
    forall k | 0 <= k < |ls| && k != i ensures Apart(ls[k], ls[i]) {
      ApartPair(ls, repr, k, i);
    }
    hide Chained;
    ghost var from := ls[i].nodes;
    x := TailToHead(ls[i]);
    assert x in from && forall y :: y in ls[i].nodes ==> y in from;
    forall k | 0 <= k < |ls| && k != i ensures ls[k].Valid() {
      assert old(ls[k].Valid()) && old(Apart(ls[k], ls[i]));
      Untouched(ls[k]);
    }
    forall a, b | 0 <= a < b < |ls| ensures Apart(ls[a], ls[b]) {
      assert old(Apart(ls[a], ls[b]));
    }
  }

  /** remove_from_tail(ls[i]) */
  method TakeTail(ls: seq<DoubleList>, ghost repr: set<object>, i: nat) returns (x: MrNode)
    requires Family(ls, repr) && i < |ls| && ls[i].nodes != []
    modifies repr
    ensures Family(ls, repr) && OthersKept(ls, i, i)
    ensures ls[i].nodes == old(ls[i].nodes)[..|old(ls[i].nodes)| - 1] && x == old(ls[i].nodes)[|old(ls[i].nodes)| - 1]
  {
    forall k | 0 <= k < |ls| && k != i ensures Apart(ls[k], ls[i]) {
      ApartPair(ls, repr, k, i);
    }
    hide Chained;
    ghost var from := ls[i].nodes;
    x := ls[i].RemoveFromTail();
    assert forall y :: y in ls[i].nodes ==> y in from;
    forall k | 0 <= k < |ls| && k != i ensures ls[k].Valid() {
      assert old(ls[k].Valid()) && old(Apart(ls[k], ls[i]));
      Untouched(ls[k]);
    }
    forall a, b | 0 <= a < b < |ls| ensures Apart(ls[a], ls[b]) {
      assert old(Apart(ls[a], ls[b]));
    }
  }

  /** A new wrapper for x goes to the head of ls[i]. */
  method Push(ls: seq<DoubleList>, ghost repr: set<object>, i: nat, x: Item) returns (w: MrNode)
    requires Family(ls, repr) && i < |ls|
    modifies repr
    ensures fresh(w) && Family(ls, repr + {w}) && OthersKept(ls, i, i) && ls[i].nodes == [w] + old(ls[i].nodes)
    ensures Items(ls[i].nodes) == [x] + old(Items(ls[i].nodes))
  {
    forall k | 0 <= k < |ls| && k != i ensures Apart(ls[k], ls[i]) {
      ApartPair(ls, repr, k, i);
    }
    hide Chained;
    w := WrapAlone(ls[i], x);
    forall k | 0 <= k < |ls| && k != i ensures ls[k].Valid() {
      assert old(ls[k].Valid()) && old(Apart(ls[k], ls[i]));
      Untouched(ls[k]);
    }
    forall a, b | 0 <= a < b < |ls| ensures Apart(ls[a], ls[b]) {
      assert old(Apart(ls[a], ls[b]));
    }
  }

  /** A scan's local list takes the whole of ls[i]. */
  method TakeAll(ls: seq<DoubleList>, ghost repr: set<object>, i: nat) returns (tmplist: DoubleList)
    requires Family(ls, repr) && i < |ls|
    modifies repr
    ensures fresh(tmplist) && Family(ls + [tmplist], repr + {tmplist}) && OthersKept(ls, i, i)
    ensures ls[i].nodes == [] && tmplist.nodes == old(ls[i].nodes)
  {
    forall k | 0 <= k < |ls| && k != i ensures Apart(ls[k], ls[i]) {
      ApartPair(ls, repr, k, i);
    }
    hide Chained;
    tmplist := new DoubleList();
    tmplist.Take(ls[i]);
    ghost var all := ls + [tmplist];
    forall k | 0 <= k < |ls| && k != i ensures ls[k].Valid() {
      assert old(ls[k].Valid()) && old(Apart(ls[k], ls[i]));
      Untouched(ls[k]);
    }
    forall a, b | 0 <= a < b < |all| ensures Apart(all[a], all[b]) {
      assert b < |ls| ==> old(Apart(ls[a], ls[b]));
      assert b == |ls| && a != i ==> old(Apart(ls[a], ls[i]));
    }
  }
}
