/** Adding up what the threads of a scheme have in their lists. */
module Ledger {
  import opened Addresses

  /** What all threads have, with multiplicity. */
  function Total(lists: seq<multiset<Node>>): multiset<Node> {
    if lists == [] then multiset{} else Total(lists[..|lists| - 1]) + lists[|lists| - 1]
  }

  /** One thread has something else. */
  lemma {:induction false} TotalChanges(lists: seq<multiset<Node>>, t: nat, m: multiset<Node>)
    requires t < |lists|
    ensures Total(lists[t := m]) + lists[t] == Total(lists) + m
  {
    var end := |lists| - 1;
    if t == end {
      assert lists[t := m][..end] == lists[..end];
    } else {
      var front := lists[..end];
      assert lists[t := m][..end] == front[t := m];
      TotalChanges(front, t, m);
      var a, b, last := Total(front[t := m]), Total(front), lists[end];
      assert a + last + lists[t] == (a + front[t]) + last == (b + m) + last == b + last + m;
    }
  }

  lemma {:induction false} TotalEmpty(lists: seq<multiset<Node>>)
    requires forall t :: 0 <= t < |lists| ==> lists[t] == multiset{}
    ensures Total(lists) == multiset{}
  {
    if lists != [] {
      TotalEmpty(lists[..|lists| - 1]);
    }
  }

  /** The books balance again after thread t has gone from before to after, if what it lost has been freed and what it
      won has been retired. */
  lemma Balanced(lists: seq<multiset<Node>>, t: nat, after: multiset<Node>, freed: multiset<Node>, retired: multiset<Node>,
                 lost: multiset<Node>, won: multiset<Node>)
    requires t < |lists| && Total(lists) + freed == retired && after + lost == lists[t] + won
    ensures Total(lists[t := after]) + (freed + lost) == retired + won
  {
    TotalChanges(lists, t, after);
    var a, b := Total(lists[t := after]), Total(lists);
    forall n ensures a[n] + freed[n] + lost[n] == retired[n] + won[n] {
      assert (a + lists[t])[n] == (b + after)[n] && (b + freed)[n] == retired[n] && (after + lost)[n] == (lists[t] + won)[n];
    }
    assert a + (freed + lost) == retired + won;
  }
}
