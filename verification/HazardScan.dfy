/** Batch scans of hazard pointers: src/smr.c, src/smr_no_membar.c and src/smr_no_membar_opt.c as
    functions on the retire list, and what they keep and free. Lists are head first, newest first.
 */
module HazardScan {
  import opened Addresses
  import opened Counting
  import opened DoubleLlist
  import opened ItemLists
  import opened Timing

  /** One thread's sd: the retire list, its length, and what was handed back, oldest first. */
  datatype Retired = Retired(rlist: seq<Item>, rcount: int, freed: seq<Node>)

  /** Stage 1 of every scan: the non-NULL slots, in order. 0 is NULL. */
  function Hazards(slots: seq<Node>): (plist: seq<Node>)
    ensures |plist| <= |slots| && forall n :: n in plist <==> n in slots && n != 0
  {
    if slots == [] then []
    else
      var rest := Hazards(slots[..|slots| - 1]);
      assert slots == slots[..|slots| - 1] + [slots[|slots| - 1]];
      if slots[|slots| - 1] != 0 then rest + [slots[|slots| - 1]] else rest
  }

  // ----- src/smr.c

  /** Walking from the tail and adding at the head keeps what is hazardous, in its old order. */
  function Kept(q: seq<Item>, plist: seq<Node>): seq<Item> {
    if q == [] then [] else Kept(Front(q), plist) + if LastOf(q).node in plist then [LastOf(q)] else []
  }

  /** What the same walk frees, in the order in which it frees it. */
  function Dropped(q: seq<Item>, plist: seq<Node>): seq<Node> {
    if q == [] then [] else (if LastOf(q).node in plist then [] else [LastOf(q).node]) + Dropped(Front(q), plist)
  }

  /** One round of the walk: kept is what the new list already has, behind it in the old order. */
  lemma KeptRound(q: seq<Item>, plist: seq<Node>, kept: seq<Item>)
    requires q != []
    ensures var x := LastOf(q);
            Kept(q, plist) + kept == Kept(Front(q), plist) + (if x.node in plist then [x] + kept else kept)
  {
    var x, k := LastOf(q), Kept(Front(q), plist);
    assert Kept(q, plist) == k + if x.node in plist then [x] else [];
    hide *;
    Between(k, x, x.node in plist, kept);
  }

  lemma DroppedRound(q: seq<Item>, plist: seq<Node>, freed: seq<Node>)
    requires q != []
    ensures var x := LastOf(q);
            freed + Dropped(q, plist) == (if x.node in plist then freed else freed + [x.node]) + Dropped(Front(q), plist)
  {
    var x, d := LastOf(q), Dropped(Front(q), plist);
    assert Dropped(q, plist) == (if x.node !in plist then [x.node] else []) + d;
    hide *;
    Between(freed, x.node, x.node !in plist, d);
  }

  /** How far a scan of q has come: rest is still to be judged. */
  predicate Scanned(q: seq<Item>, plist: seq<Node>, before: seq<Node>, rest: seq<Item>, kept: seq<Item>, freed: seq<Node>) {
    && Kept(rest, plist) + kept == Kept(q, plist)
    && freed + Dropped(rest, plist) == before + Dropped(q, plist)
  }

  lemma ScanStarts(q: seq<Item>, plist: seq<Node>, before: seq<Node>)
    ensures Scanned(q, plist, before, q, [], before)
  {
  }

  lemma ScanGoesOn(q: seq<Item>, plist: seq<Node>, before: seq<Node>, rest: seq<Item>, kept: seq<Item>, freed: seq<Node>)
    requires rest != [] && Scanned(q, plist, before, rest, kept, freed)
    ensures var x := LastOf(rest);
            var keep := x.node in plist;
            Scanned(q, plist, before, Front(rest), if keep then [x] + kept else kept, if keep then freed else freed + [x.node])
  {
    KeptRound(rest, plist, kept);
    DroppedRound(rest, plist, freed);
    hide Kept, Dropped;
  }

  lemma ScanEnds(q: seq<Item>, plist: seq<Node>, before: seq<Node>, kept: seq<Item>, freed: seq<Node>)
    requires Scanned(q, plist, before, [], kept, freed)
    ensures kept == Kept(q, plist) && freed == before + Dropped(q, plist)
  {
  }

  function Scan(r: Retired, slots: seq<Node>): Retired {
    var plist := Hazards(slots);
    Retired(Kept(r.rlist, plist), |Kept(r.rlist, plist)|, r.freed + Dropped(r.rlist, plist))
  }

  /** R of include/smr.h for h slots. */
  function Threshold(h: nat): nat {
    100 + 2 * h
  }

  /** free_node_later */
  function Retire(r: Retired, slots: seq<Node>, x: Item): Retired {
    var r1 := Retired([x] + r.rlist, r.rcount + 1, r.freed);
    if r1.rcount >= Threshold(|slots|) then Scan(r1, slots) else r1
  }

  /** The positions of q that a scan keeps: all hazardous ones and no others, in order. */
  lemma {:induction false} KeptExactly(q: seq<Item>, plist: seq<Node>) returns (at: seq<nat>)
    ensures |at| == |Kept(q, plist)|
    ensures forall i :: 0 <= i < |at| ==> at[i] < |q| && Kept(q, plist)[i] == q[at[i]]
    ensures forall i, j :: 0 <= i < j < |at| ==> at[i] < at[j]
    ensures forall k :: 0 <= k < |q| ==> (k in at <==> q[k].node in plist)
  {
    at := [];
    if q != [] {
      var n := |q| - 1;
      var before := KeptExactly(Front(q), plist);
      at := before + if LastOf(q).node in plist then [n] else [];
      forall k | 0 <= k < |q| ensures k in at <==> q[k].node in plist {
        if k < n {
          assert Front(q)[k] == q[k] && (k in at <==> k in before);
        } else {
          assert n !in before;
        }
      }
    }
  }

  /** A scan loses nothing: every node is kept or freed, once. */
  lemma {:induction false} KeptOrDropped(q: seq<Item>, plist: seq<Node>)
    ensures multiset(Nodes(Kept(q, plist))) + multiset(Dropped(q, plist)) == multiset(Nodes(q))
  {
    if q != [] {
      var p, x := Front(q), LastOf(q);
      KeptOrDropped(p, plist);
      NodesFront(q);
      RoundConserves(p, x, x.node in plist, Kept(p, plist), Dropped(p, plist));
    }
  }

  /** What a scan frees is exactly what is in no slot. */
  lemma {:induction false} DroppedMembers(q: seq<Item>, plist: seq<Node>, n: Node)
    ensures n in Dropped(q, plist) <==> n in Nodes(q) && n !in plist
  {
    if q != [] {
      DroppedMembers(Front(q), plist, n);
      assert Nodes(q) == Nodes(Front(q)) + [LastOf(q).node];
    }
  }

  predicate RetiredOk(r: Retired) {
    Distinct(Nodes(r.rlist)) && r.rcount == |r.rlist|
  }

  lemma KeptDistinct(q: seq<Item>, plist: seq<Node>)
    requires Distinct(Nodes(q))
    ensures Distinct(Nodes(Kept(q, plist)))
  {
    var at := KeptExactly(q, plist);
    var k := Nodes(Kept(q, plist));
    forall i, j | 0 <= i < j < |k| ensures k[i] != k[j] {
      assert k[i] == Nodes(q)[at[i]] && k[j] == Nodes(q)[at[j]];
    }
  }

  /** A scan leaves no more nodes than there are slots. */
  lemma ScanLeavesFew(r: Retired, slots: seq<Node>)
    requires RetiredOk(r)
    ensures RetiredOk(Scan(r, slots)) && Scan(r, slots).rcount <= |slots|
  {
    var plist := Hazards(slots);
    KeptDistinct(r.rlist, plist);
    var at := KeptExactly(r.rlist, plist);
    var k := Nodes(Kept(r.rlist, plist));
    forall i | 0 <= i < |k| ensures k[i] in plist {
      assert k[i] == r.rlist[at[i]].node && at[i] in at;
    }
    Pigeonhole(k, plist);
  }

  /** From fewer than R nodes waiting free_node_later leads to fewer than R again, a scan in it frees at least R - H, and
      what it frees is in no slot. */
  lemma RetireBounds(r: Retired, slots: seq<Node>, x: Item)
    requires RetiredOk(r) && r.rcount < Threshold(|slots|) && x.node !in Nodes(r.rlist)
    ensures var r' := Retire(r, slots, x);
            && RetiredOk(r') && r'.rcount < Threshold(|slots|)
            && r'.rcount + |r'.freed| == r.rcount + |r.freed| + 1 && r.freed <= r'.freed
            && (r.rcount + 1 >= Threshold(|slots|) ==> |r'.freed| >= |r.freed| + (Threshold(|slots|) - |slots|))
            && (r.rcount + 1 < Threshold(|slots|) ==> r' == Retired([x] + r.rlist, r.rcount + 1, r.freed))
            && (forall n :: n in slots && n != 0 ==> n !in r'.freed[|r.freed|..])
  {
    var r1 := Retired([x] + r.rlist, r.rcount + 1, r.freed);
    assert Nodes(r1.rlist) == [x.node] + Nodes(r.rlist);
    if r1.rcount >= Threshold(|slots|) {
      var plist := Hazards(slots);
      ScanLeavesFew(r1, slots);
      KeptOrDropped(r1.rlist, plist);
      forall n | n in plist ensures n !in Dropped(r1.rlist, plist) {
        DroppedMembers(r1.rlist, plist, n);
      }
      var k, d := Nodes(Kept(r1.rlist, plist)), Dropped(r1.rlist, plist);
      assert |multiset(k)| + |multiset(d)| == |multiset(Nodes(r1.rlist))|;
      assert Retire(r, slots, x).freed[|r.freed|..] == d;
    }
  }

  /** A call of free_node_later with whatever the h slots hold then. */
  ghost predicate Called(r: Retired, r': Retired, h: nat) {
    exists slots, x: Item :: |slots| == h && x.node !in Nodes(r.rlist) && r' == Retire(r, slots, x)
  }

  /** One thread's list after each of its calls, from the beginning. */
  ghost predicate CallRun(rs: seq<Retired>, h: nat) {
    rs != [] && rs[0] == Retired([], 0, []) && forall k :: 0 < k < |rs| ==> Called(rs[k - 1], rs[k], h)
  }

  /** Bounded garbage: in every run of calls, with other slots at each of them, fewer than R nodes wait between the calls,
      so all others of the k retired by then have been freed. */
  lemma {:induction false} GarbageBounded(rs: seq<Retired>, h: nat, k: nat)
    requires CallRun(rs, h) && k < |rs|
    ensures RetiredOk(rs[k]) && rs[k].rcount < Threshold(h) && |rs[k].freed| == k - rs[k].rcount
  {
    if k == 0 {
      assert Nodes(rs[0].rlist) == [];
    } else {
      GarbageBounded(rs, h, k - 1);
      var r := rs[k - 1];
      assert Called(r, rs[k], h);
      var slots, x: Item :| |slots| == h && x.node !in Nodes(r.rlist) && rs[k] == Retire(r, slots, x);
      hide Retire, RetiredOk;
      RetireBounds(r, slots, x);
    }
  }

  // ----- src/smr_no_membar.c

  /** The walk from the head that pushes what it keeps on a new list; the i-th age test reads clock(i). */
  function AgedKept(q: seq<Item>, kept: seq<Item>, plist: seq<Node>, clock: nat -> int, i: nat): seq<Item> {
    if q == [] then kept
    else if !IsOldEnough(q[0].created, clock(i)) || q[0].node in plist then AgedKept(q[1..], [q[0]] + kept, plist, clock, i + 1)
    else AgedKept(q[1..], kept, plist, clock, i + 1)
  }

  function AgedDropped(q: seq<Item>, plist: seq<Node>, clock: nat -> int, i: nat): seq<Node> {
    if q == [] then []
    else if !IsOldEnough(q[0].created, clock(i)) || q[0].node in plist then AgedDropped(q[1..], plist, clock, i + 1)
    else [q[0].node] + AgedDropped(q[1..], plist, clock, i + 1)
  }

  /** How far this walk over q has come: rest is still to be judged. */
  predicate AgedScanned(q: seq<Item>, plist: seq<Node>, clock: nat -> int, before: seq<Node>,
                        rest: seq<Item>, kept: seq<Item>, freed: seq<Node>, i: nat) {
    && AgedKept(rest, kept, plist, clock, i) == AgedKept(q, [], plist, clock, 0)
    && freed + AgedDropped(rest, plist, clock, i) == before + AgedDropped(q, plist, clock, 0)
  }

  lemma AgedStarts(q: seq<Item>, plist: seq<Node>, clock: nat -> int, before: seq<Node>)
    ensures AgedScanned(q, plist, clock, before, q, [], before, 0)
  {
  }

  lemma AgedGoesOn(q: seq<Item>, plist: seq<Node>, clock: nat -> int, before: seq<Node>,
                   rest: seq<Item>, kept: seq<Item>, freed: seq<Node>, i: nat)
    requires rest != [] && AgedScanned(q, plist, clock, before, rest, kept, freed, i)
    ensures var x := rest[0];
            var keep := !IsOldEnough(x.created, clock(i)) || x.node in plist;
            AgedScanned(q, plist, clock, before, rest[1..], if keep then [x] + kept else kept,
                        if keep then freed else freed + [x.node], i + 1)
  {
    hide IsOldEnough;
    var d := AgedDropped(rest[1..], plist, clock, i + 1);
    assert freed + ([rest[0].node] + d) == (freed + [rest[0].node]) + d;
  }

  lemma AgedEnds(q: seq<Item>, plist: seq<Node>, clock: nat -> int, before: seq<Node>, kept: seq<Item>, freed: seq<Node>, i: nat)
    requires AgedScanned(q, plist, clock, before, [], kept, freed, i)
    ensures kept == AgedKept(q, [], plist, clock, 0) && freed == before + AgedDropped(q, plist, clock, 0)
  {
  }

  function AgedScan(r: Retired, slots: seq<Node>, clock: nat -> int): Retired {
    var plist := Hazards(slots);
    var kept := AgedKept(r.rlist, [], plist, clock, 0);
    Retired(kept, |kept|, r.freed + AgedDropped(r.rlist, plist, clock, 0))
  }

  /** Nothing is lost. */
  lemma {:induction false} AgedKeptOrDropped(q: seq<Item>, kept: seq<Item>, plist: seq<Node>, clock: nat -> int, i: nat)
    ensures multiset(Nodes(AgedKept(q, kept, plist, clock, i))) + multiset(AgedDropped(q, plist, clock, i))
         == multiset(Nodes(q)) + multiset(Nodes(kept))
  {
    if q == [] {
      assert Nodes(q) == [] && AgedDropped(q, plist, clock, i) == [];
    } else {
      var x, rest := q[0], AgedDropped(q[1..], plist, clock, i + 1);
      assert [x] + q[1..] == q;
      NodesCons(x, q[1..]);
      if IsOldEnough(x.created, clock(i)) && x.node !in plist {
        assert AgedKept(q, kept, plist, clock, i) == AgedKept(q[1..], kept, plist, clock, i + 1);
        assert AgedDropped(q, plist, clock, i) == [x.node] + rest;
        hide *;
        AgedKeptOrDropped(q[1..], kept, plist, clock, i + 1);
        MultisetCons(x.node, rest);
        MoveOver(multiset(Nodes(AgedKept(q, kept, plist, clock, i))), multiset(rest), multiset(Nodes(q[1..])),
            multiset(Nodes(kept)), x.node);
      } else {
        assert AgedKept(q, kept, plist, clock, i) == AgedKept(q[1..], [x] + kept, plist, clock, i + 1);
        assert AgedDropped(q, plist, clock, i) == rest;
        hide *;
        AgedKeptOrDropped(q[1..], [x] + kept, plist, clock, i + 1);
        NodesCons(x, kept);
        Swap(multiset(Nodes(q[1..])), multiset(Nodes(kept)), x.node);
      }
    }
  }

  /** What is freed passed the age test and is in no slot that was read. */
  lemma {:induction false} AgedDroppedOk(q: seq<Item>, plist: seq<Node>, clock: nat -> int, i: nat,
      n: Node) returns (k: nat)
    requires n in AgedDropped(q, plist, clock, i)
    ensures n !in plist && k < |q| && q[k].node == n && IsOldEnough(q[k].created, clock(i + k))
  {
    if n in AgedDropped(q[1..], plist, clock, i + 1) {
      k := AgedDroppedOk(q[1..], plist, clock, i + 1, n);
      k := k + 1;
    } else {
      k := 0;
    }
  }

  // ----- src/smr_no_membar_opt.c

  /** The walk from the tail; its first age test reads clock(i), the next clock(i + 1), and so on. early says whether it
      stops at the first node that is too young. hazard is what the search of plist, or of the filter, answers. */
  function WalkKept(q: seq<Item>, hazard: Node -> bool, clock: nat -> int, i: nat, early: bool): seq<Item> {
    if q == [] then []
    else if early && !IsOldEnough(LastOf(q).created, clock(i)) then q
    else
      WalkKept(Front(q), hazard, clock, i + 1, early)
          + if Freeable(LastOf(q), hazard, clock(i)) then [] else [LastOf(q)]
  }

  function WalkDropped(q: seq<Item>, hazard: Node -> bool, clock: nat -> int, i: nat, early: bool): seq<Node> {
    if q == [] then []
    else if early && !IsOldEnough(LastOf(q).created, clock(i)) then []
    else
      (if Freeable(LastOf(q), hazard, clock(i)) then [LastOf(q).node] else [])
          + WalkDropped(Front(q), hazard, clock, i + 1, early)
  }

  /** What a walk frees when it comes to it at this time. */
  predicate Freeable(x: Item, hazard: Node -> bool, now: int) {
    IsOldEnough(x.created, now) && !hazard(x.node)
  }

  /** One round of the walk: tail is what has been passed. */
  lemma WalkRound(q: seq<Item>, hazard: Node -> bool, clock: nat -> int, i: nat, early: bool, tail: seq<Item>, freed: seq<Node>)
    requires q != [] && (early ==> IsOldEnough(LastOf(q).created, clock(i)))
    ensures var x, k := LastOf(q), WalkKept(Front(q), hazard, clock, i + 1, early);
            WalkKept(q, hazard, clock, i, early) + tail == k + if Freeable(x, hazard, clock(i)) then tail else [x] + tail
    ensures var x, d := LastOf(q), WalkDropped(Front(q), hazard, clock, i + 1, early);
            freed + WalkDropped(q, hazard, clock, i, early)
               == (if Freeable(x, hazard, clock(i)) then freed + [x.node] else freed) + d
  {
    var x := LastOf(q);
    var free := Freeable(x, hazard, clock(i));
    hide IsOldEnough, Freeable;
    var k, d := WalkKept(Front(q), hazard, clock, i + 1, early), WalkDropped(Front(q), hazard, clock, i + 1, early);
    assert WalkKept(q, hazard, clock, i, early) == k + if !free then [x] else [];
    assert WalkDropped(q, hazard, clock, i, early) == (if free then [x.node] else []) + d;
    hide *;
    Between(k, x, !free, tail);
    Between(freed, x.node, free, d);
  }

  /** How far a walk over q has come: the first k nodes of the list now are still to be visited. */
  predicate Walked(q: seq<Item>, before: seq<Node>, clock: nat -> int, hazard: Node -> bool, early: bool,
                   list: seq<Item>, freed: seq<Node>, k: nat) {
    && k <= |list| && k <= |q|
    && WalkKept(list[..k], hazard, clock, |q| - k, early) + list[k..] == WalkKept(q, hazard, clock, 0, early)
    && freed + WalkDropped(list[..k], hazard, clock, |q| - k, early) == before + WalkDropped(q, hazard, clock, 0, early)
  }

  /** list without its k-th item, if that is freed. */
  function Without(list: seq<Item>, k: nat, free: bool): seq<Item>
    requires 0 < k <= |list|
  {
    if free then list[..k - 1] + list[k..] else list
  }

  lemma WalkStarts(q: seq<Item>, before: seq<Node>, clock: nat -> int, hazard: Node -> bool, early: bool)
    ensures Walked(q, before, clock, hazard, early, q, before, |q|)
  {
    assert q[..|q|] == q && q[|q|..] == [];
  }

  lemma WalkGoesOn(q: seq<Item>, before: seq<Node>, clock: nat -> int, hazard: Node -> bool, early: bool,
                   list: seq<Item>, freed: seq<Node>, k: nat)
    requires 0 < k && Walked(q, before, clock, hazard, early, list, freed, k)
    requires early ==> IsOldEnough(list[k - 1].created, clock(|q| - k))
    ensures var x := list[k - 1];
            var free := Freeable(x, hazard, clock(|q| - k));
            Walked(q, before, clock, hazard, early, Without(list, k, free), if free then freed + [x.node] else freed, k - 1)
  {
    hide IsOldEnough, Freeable, WalkKept, WalkDropped;
    var x := list[k - 1];
    var free := Freeable(x, hazard, clock(|q| - k));
    WithoutParts(list, k, free);
    WalkRound(list[..k], hazard, clock, |q| - k, early, list[k..], freed);
    hide Without;
  }

  lemma WithoutParts(list: seq<Item>, k: nat, free: bool)
    requires 0 < k <= |list|
    ensures var left := Without(list, k, free);
            && k - 1 <= |left| && Front(list[..k]) == left[..k - 1] && LastOf(list[..k]) == list[k - 1]
            && left[k - 1..] == if free then list[k..] else [list[k - 1]] + list[k..]
  {
  }

  lemma WalkEnds(q: seq<Item>, before: seq<Node>, clock: nat -> int, hazard: Node -> bool, early: bool,
                 list: seq<Item>, freed: seq<Node>, k: nat)
    requires Walked(q, before, clock, hazard, early, list, freed, k)
    requires k > 0 ==> early && !IsOldEnough(list[k - 1].created, clock(|q| - k))
    ensures list == WalkKept(q, hazard, clock, 0, early) && freed == before + WalkDropped(q, hazard, clock, 0, early)
  {
    var i := |q| - k;
    assert WalkKept(list[..k], hazard, clock, i, early) == list[..k] && WalkDropped(list[..k], hazard, clock, i, early) == [];
    assert list == list[..k] + list[k..];
  }

  /** Nothing is lost. */
  lemma {:induction false} WalkKeptOrDropped(q: seq<Item>, hazard: Node -> bool, clock: nat -> int, i: nat, early: bool)
    ensures multiset(Nodes(WalkKept(q, hazard, clock, i, early))) + multiset(WalkDropped(q, hazard, clock, i, early))
         == multiset(Nodes(q))
  {
    hide IsOldEnough, Freeable;
    if q != [] && !(early && !IsOldEnough(LastOf(q).created, clock(i))) {
      var p, x := Front(q), LastOf(q);
      var free := Freeable(x, hazard, clock(i));
      var k, d := WalkKept(p, hazard, clock, i + 1, early), WalkDropped(p, hazard, clock, i + 1, early);
      WalkKeptOrDropped(p, hazard, clock, i + 1, early);
      NodesFront(q);
      RoundConserves(p, x, !free, k, d);
      assert WalkKept(q, hazard, clock, i, early) == k + if !free then [x] else [];
      assert WalkDropped(q, hazard, clock, i, early) == (if !free then [] else [x.node]) + d;
    }
  }

  /** What is freed passed the age test at the reading taken when the walk came to it, and the search did not find it. */
  lemma {:induction false} WalkDroppedOk(q: seq<Item>, hazard: Node -> bool, clock: nat -> int, i: nat, early: bool,
      n: Node) returns (k: nat)
    requires n in WalkDropped(q, hazard, clock, i, early)
    ensures k < |q| && q[k].node == n && Freeable(q[k], hazard, clock(i + (|q| - 1 - k)))
  {
    if n in WalkDropped(Front(q), hazard, clock, i + 1, early) {
      k := WalkDroppedOk(Front(q), hazard, clock, i + 1, early, n);
    } else {
      k := |q| - 1;
    }
  }

  /** Whatever the readings, stopping early frees a first part of what the full walk frees. */
  lemma {:induction false} EarlyFreesFirst(q: seq<Item>, hazard: Node -> bool, clock: nat -> int, i: nat)
    ensures WalkDropped(q, hazard, clock, i, true) <= WalkDropped(q, hazard, clock, i, false)
  {
    if q != [] && IsOldEnough(LastOf(q).created, clock(i)) {
      EarlyFreesFirst(Front(q), hazard, clock, i + 1);
    }
  }

  /** It can be less: the clock goes on between the test that stops the walk and the next one. */
  lemma EarlyFreesLess(hazard: Node -> bool)
    requires !hazard(1)
    ensures var q, clock := [Item(1, 10), Item(2, 0)], (i: nat) => if i == 0 then 199_999 else 200_010;
            Sorted(q) && WalkDropped(q, hazard, clock, 0, true) == [] && WalkDropped(q, hazard, clock, 0, false) == [1]
  {
    var q, clock := [Item(1, 10), Item(2, 0)], (i: nat) => if i == 0 then 199_999 else 200_010;
    assert Front(q) == [Item(1, 10)] && Front([Item(1, 10)]) == [];
    assert WalkDropped([Item(1, 10)], hazard, clock, 1, false) == [1];
  }

  /** How many nodes the walk with early exit never comes to: it stops at the last of them, which is too young. */
  function Stop(q: seq<Item>, clock: nat -> int, i: nat): (n: nat)
    ensures n <= |q|
  {
    if q == [] then 0 else if !IsOldEnough(LastOf(q).created, clock(i)) then |q| else Stop(Front(q), clock, i + 1)
  }

  /** Node k of q, at the reading that the full walk would take for it. */
  predicate FreeableAt(q: seq<Item>, hazard: Node -> bool, clock: nat -> int, i: nat, k: nat)
    requires k < |q|
  {
    Freeable(q[k], hazard, clock(i + (|q| - 1 - k)))
  }

  /** No node below position n would be freed. */
  predicate NoneBelow(q: seq<Item>, hazard: Node -> bool, clock: nat -> int, i: nat, n: nat) {
    forall k :: 0 <= k < n && k < |q| ==> !FreeableAt(q, hazard, clock, i, k)
  }

  lemma AtFront(q: seq<Item>, hazard: Node -> bool, clock: nat -> int, i: nat, k: nat)
    requires q != [] && k < |q| - 1
    ensures FreeableAt(Front(q), hazard, clock, i + 1, k) == FreeableAt(q, hazard, clock, i, k)
  {
    var p := Front(q);
    assert p[k] == q[k];
    assert i + 1 + (|p| - 1 - k) == i + (|q| - 1 - k);
  }

  lemma NoneInFront(q: seq<Item>, hazard: Node -> bool, clock: nat -> int, i: nat, n: nat)
    requires q != [] && n < |q|
    ensures NoneBelow(q, hazard, clock, i, n) <==> NoneBelow(Front(q), hazard, clock, i + 1, n)
  {
    hide FreeableAt;
    var p, next := Front(q), i + 1;
    if NoneBelow(q, hazard, clock, i, n) {
      forall k | 0 <= k < n && k < |p| ensures !FreeableAt(p, hazard, clock, next, k) {
        AtFront(q, hazard, clock, i, k);
      }
    }
    if NoneBelow(p, hazard, clock, next, n) {
      forall k | 0 <= k < n && k < |q| ensures !FreeableAt(q, hazard, clock, i, k) {
        AtFront(q, hazard, clock, i, k);
      }
    }
  }

  /** The full walk frees nothing, and keeps all, exactly if no node is to be freed when it comes to it. */
  lemma {:induction false} FreesNothingIff(q: seq<Item>, hazard: Node -> bool, clock: nat -> int, i: nat)
    ensures WalkDropped(q, hazard, clock, i, false) == [] <==> NoneBelow(q, hazard, clock, i, |q|)
    ensures WalkKept(q, hazard, clock, i, false) == q <==> NoneBelow(q, hazard, clock, i, |q|)
  {
    if q != [] {
      var p := Front(q);
      FreesNothingIff(p, hazard, clock, i + 1);
      NoneInFront(q, hazard, clock, i, |p|);
      KeptLength(p, hazard, clock, i + 1);
      assert NoneBelow(q, hazard, clock, i, |q|) <==>
          NoneBelow(q, hazard, clock, i, |p|) && !FreeableAt(q, hazard, clock, i, |p|);
      assert FreeableAt(q, hazard, clock, i, |p|) == Freeable(LastOf(q), hazard, clock(i));
      hide Freeable, FreeableAt, NoneBelow;
      assert q == p + [LastOf(q)];
      SameEnd(WalkKept(p, hazard, clock, i + 1, false), p, [LastOf(q)]);
    }
  }

  lemma {:induction false} KeptLength(q: seq<Item>, hazard: Node -> bool, clock: nat -> int, i: nat)
    ensures |WalkKept(q, hazard, clock, i, false)| <= |q|
  {
    if q != [] {
      KeptLength(Front(q), hazard, clock, i + 1);
    }
  }

  lemma SameEnd<T>(a: seq<T>, b: seq<T>, end: seq<T>)
    ensures a + end == b + end <==> a == b
  {
    if a + end == b + end {
      assert a == (a + end)[..|a|] && b == (b + end)[..|b|];
    }
  }

  lemma SameStart<T>(start: seq<T>, a: seq<T>, b: seq<T>)
    ensures start + a == start + b <==> a == b
  {
    if start + a == start + b {
      assert a == (start + a)[|start|..] && b == (start + b)[|start|..];
    }
  }

  /** Whatever the readings, the early exit misses nothing exactly if no node that it does not come to would be freed at
      its own later reading. */
  lemma {:induction false} EarlySameIff(q: seq<Item>, hazard: Node -> bool, clock: nat -> int, i: nat)
    ensures WalkDropped(q, hazard, clock, i, true) == WalkDropped(q, hazard, clock, i, false)
       <==> NoneBelow(q, hazard, clock, i, Stop(q, clock, i))
    ensures WalkKept(q, hazard, clock, i, true) == WalkKept(q, hazard, clock, i, false)
       <==> NoneBelow(q, hazard, clock, i, Stop(q, clock, i))
  {
    if q != [] && IsOldEnough(LastOf(q).created, clock(i)) {
      var p, x := Front(q), LastOf(q);
      EarlySameIff(p, hazard, clock, i + 1);
      NoneInFront(q, hazard, clock, i, Stop(p, clock, i + 1));
      var free := Freeable(x, hazard, clock(i));
      var d, d' := WalkDropped(p, hazard, clock, i + 1, true), WalkDropped(p, hazard, clock, i + 1, false);
      var k, k' := WalkKept(p, hazard, clock, i + 1, true), WalkKept(p, hazard, clock, i + 1, false);
      SameStart(if free then [x.node] else [], d, d');
      SameEnd(k, k', if free then [] else [x]);
      hide NoneBelow, Freeable;
    } else {
      FreesNothingIff(q, hazard, clock, i);
    }
  }

  /** Newest first. free_node_later keeps the list so, because each node goes to the head with the present time. */
  predicate Sorted(q: seq<Item>) {
    forall i, j :: 0 <= i < j < |q| ==> q[j].created <= q[i].created
  }

  predicate AllInRange(q: seq<Item>, now: int) {
    forall i :: 0 <= i < |q| ==> InRange(q[i].created, now)
  }

  /** A clock that stands still. */
  function Fixed(now: int): nat -> int {
    (i: nat) => now
  }

  /** While the clock stands still, stopping early frees and keeps exactly what the full walk does: what is newer than a
      node too young is too young as well. */
  lemma EarlyExit(q: seq<Item>, hazard: Node -> bool, now: int, i: nat)
    requires Sorted(q) && AllInRange(q, now)
    ensures WalkKept(q, hazard, Fixed(now), i, true) == WalkKept(q, hazard, Fixed(now), i, false)
    ensures WalkDropped(q, hazard, Fixed(now), i, true) == WalkDropped(q, hazard, Fixed(now), i, false)
  {
    var n := Stop(q, Fixed(now), i);
    StopsTooYoung(q, Fixed(now), i);
    forall k | 0 <= k < n ensures !FreeableAt(q, hazard, Fixed(now), i, k) {
      if IsOldEnough(q[k].created, now) {
        OlderIsOldEnough(q[n - 1].created, q[k].created, now);
      }
    }
    EarlySameIff(q, hazard, Fixed(now), i);
  }

  lemma {:induction false} StopsTooYoung(q: seq<Item>, clock: nat -> int, i: nat)
    ensures var n := Stop(q, clock, i); n > 0 ==> !IsOldEnough(q[n - 1].created, clock(i + (|q| - n)))
  {
    if q != [] && IsOldEnough(LastOf(q).created, clock(i)) {
      StopsTooYoung(Front(q), clock, i + 1);
    }
  }

  /** The nodes that may be freed at this time, newest first, and what stays. */
  function Gone(q: seq<Item>, hazard: Node -> bool, now: int): seq<Node> {
    if q == [] then [] else (if Freeable(q[0], hazard, now) then [q[0].node] else []) + Gone(q[1..], hazard, now)
  }

  function Stay(q: seq<Item>, hazard: Node -> bool, now: int): seq<Item> {
    if q == [] then [] else (if Freeable(q[0], hazard, now) then [] else [q[0]]) + Stay(q[1..], hazard, now)
  }

  /** The search of the list of slots itself. */
  function Exact(plist: seq<Node>): Node -> bool {
    (n: Node) => n in plist
  }

  lemma {:induction false} Snoc(q: seq<Item>, x: Item, hazard: Node -> bool, now: int)
    ensures Gone(q + [x], hazard, now) == Gone(q, hazard, now) + if Freeable(x, hazard, now) then [x.node] else []
    ensures Stay(q + [x], hazard, now) == Stay(q, hazard, now) + if Freeable(x, hazard, now) then [] else [x]
  {
    hide Freeable;
    if q == [] {
      assert q + [x] == [x];
    } else {
      var p := q[1..];
      var free := Freeable(q[0], hazard, now);
      assert (q + [x])[1..] == p + [x] && (q + [x])[0] == q[0];
      Snoc(p, x, hazard, now);
      assert Gone(q, hazard, now) == (if free then [q[0].node] else []) + Gone(p, hazard, now);
      assert Stay(q, hazard, now) == (if free then [] else [q[0]]) + Stay(p, hazard, now);
      assert Gone(q + [x], hazard, now) == (if free then [q[0].node] else []) + Gone(p + [x], hazard, now);
      assert Stay(q + [x], hazard, now) == (if free then [] else [q[0]]) + Stay(p + [x], hazard, now);
      hide *;
      Regroup(if free then [q[0].node] else [], Gone(p, hazard, now), if Freeable(x, hazard, now) then [x.node] else []);
      Regroup(if free then [] else [q[0]], Stay(p, hazard, now), if Freeable(x, hazard, now) then [] else [x]);
    }
  }

  lemma {:induction false} WalkFilters(q: seq<Item>, hazard: Node -> bool, now: int, i: nat)
    ensures WalkKept(q, hazard, Fixed(now), i, false) == Stay(q, hazard, now)
    ensures WalkDropped(q, hazard, Fixed(now), i, false) == Reversed(Gone(q, hazard, now))
  {
    if q != [] {
      var p, x := Front(q), LastOf(q);
      assert q == p + [x];
      WalkFilters(p, hazard, now, i + 1);
      Snoc(p, x, hazard, now);
      if Freeable(x, hazard, now) {
        ReversedSnoc(Gone(p, hazard, now), x.node);
      } else {
        assert Gone(q, hazard, now) == Gone(p, hazard, now);
      }
    }
  }

  lemma {:induction false} AgedFilters(q: seq<Item>, kept: seq<Item>, plist: seq<Node>, now: int, i: nat)
    ensures AgedKept(q, kept, plist, Fixed(now), i) == Reversed(Stay(q, Exact(plist), now)) + kept
    ensures AgedDropped(q, plist, Fixed(now), i) == Gone(q, Exact(plist), now)
  {
    if q != [] {
      var x := q[0];
      var rest := Stay(q[1..], Exact(plist), now);
      if Freeable(x, Exact(plist), now) {
        AgedFilters(q[1..], kept, plist, now, i + 1);
        assert Stay(q, Exact(plist), now) == rest;
      } else {
        AgedFilters(q[1..], [x] + kept, plist, now, i + 1);
        assert Stay(q, Exact(plist), now) == [x] + rest;
        assert Reversed([x] + rest) == Reversed(rest) + [x];
        assert Reversed(rest) + ([x] + kept) == (Reversed(rest) + [x]) + kept;
        assert Gone(q, Exact(plist), now) == Gone(q[1..], Exact(plist), now);
      }
    }
  }

  /** While the clock stands still, the optimized walk, early exit included, agrees with the plain scan of the same slots:
      the same nodes are freed, and the kept list is the same up to its direction. */
  lemma WalkIsPlainScan(q: seq<Item>, plist: seq<Node>, now: int)
    requires Sorted(q) && AllInRange(q, now)
    ensures multiset(WalkDropped(q, Exact(plist), Fixed(now), 0, true)) == multiset(AgedDropped(q, plist, Fixed(now), 0))
    ensures AgedKept(q, [], plist, Fixed(now), 0) == Reversed(WalkKept(q, Exact(plist), Fixed(now), 0, true))
  {
    EarlyExit(q, Exact(plist), now, 0);
    WalkFilters(q, Exact(plist), now, 0);
    AgedFilters(q, [], plist, now, 0);
    ReversedSame(Gone(q, Exact(plist), now));
  }

  /** Whatever the readings, a search that may answer yes too often, but never no for a hazardous node, frees a subset
      of what the exact search frees, and nothing that is in a slot. */
  lemma {:induction false} CoarserFreesLess(q: seq<Item>, plist: seq<Node>, hazard: Node -> bool, clock: nat -> int, i: nat,
      early: bool)
    requires forall n :: n in plist ==> hazard(n)
    ensures forall n :: n in WalkDropped(q, hazard, clock, i, early) ==>
              n !in plist && n in WalkDropped(q, Exact(plist), clock, i, early)
  {
    if q != [] {
      CoarserFreesLess(Front(q), plist, hazard, clock, i + 1, early);
    }
  }

  /** The list stays sorted: new nodes go to the head with a reading that is not older, and walks keep the order. */
  lemma {:induction false} WalkKeepsSorted(q: seq<Item>, hazard: Node -> bool, clock: nat -> int, i: nat, early: bool)
    requires Sorted(q)
    ensures Sorted(WalkKept(q, hazard, clock, i, early))
    ensures forall x :: x in WalkKept(q, hazard, clock, i, early) ==> x in q
  {
    if q != [] {
      var p, x := Front(q), LastOf(q);
      WalkKeepsSorted(p, hazard, clock, i + 1, early);
      forall y | y in p ensures x.created <= y.created && y in q {
        var k :| 0 <= k < |p| && p[k] == y;
        assert q[k] == y;
      }
      var w := WalkKept(p, hazard, clock, i + 1, early);
      assert forall j :: 0 <= j < |w| ==> w[j] in p;
    }
  }
}
