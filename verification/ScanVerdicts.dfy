/** What the timed scans of src/smr_no_membar.c and src/smr_no_membar_opt.c keep and free, position by position of the
    list, whatever the clock says from one reading to the next.
 */
module ScanVerdicts {
  import opened Addresses
  import opened DoubleLlist
  import opened ItemLists
  import opened Timing
  import opened HazardScan

  // ----- src/smr_no_membar.c: from the head, with one reading per node

  /** Position p may go: its node is old enough at its own reading, the p-th after the first, and in no slot. */
  ghost predicate AgedGoes(q: seq<Item>, slots: seq<Node>, clock: nat -> int, i: nat, p: nat)
    requires p < |q|
  {
    IsOldEnough(q[p].created, clock(i + p)) && (q[p].node == 0 || q[p].node !in slots)
  }

  /** left is what stands at some positions of q, in the opposite order. */
  predicate PickedBack(q: seq<Item>, left: seq<Item>, at: seq<nat>) {
    && |at| == |left| && (forall j :: 0 <= j < |at| ==> at[j] < |q| && left[j] == q[at[j]])
    && forall j, k :: 0 <= j < k < |at| ==> at[j] > at[k]
  }

  /** What stays, in the opposite order, and what goes, from the head. */
  function Back(q: seq<Item>, stay: seq<bool>): seq<Item>
    requires |stay| == |q|
  {
    if q == [] then [] else Back(q[1..], stay[1..]) + if stay[0] then [q[0]] else []
  }

  function Gone(q: seq<Item>, stay: seq<bool>): seq<Node>
    requires |stay| == |q|
  {
    if q == [] then [] else (if stay[0] then [] else [q[0].node]) + Gone(q[1..], stay[1..])
  }

  function Shifted(at: seq<nat>): (s: seq<nat>)
    ensures |s| == |at| && forall j :: 0 <= j < |at| ==> s[j] == at[j] + 1
  {
    seq(|at|, j requires 0 <= j < |at| => at[j] + 1)
  }

  lemma ShiftedIn(at: seq<nat>, p: nat)
    ensures p in Shifted(at) <==> p > 0 && p - 1 in at
  {
    var s := Shifted(at);
    if p in s {
      var j :| 0 <= j < |s| && s[j] == p;
      assert at[j] == p - 1;
    }
    if p > 0 && p - 1 in at {
      var j :| 0 <= j < |at| && at[j] == p - 1;
      assert s[j] == p;
    }
  }

  lemma PickedBackMore(q: seq<Item>, left: seq<Item>, at: seq<nat>, stays: bool)
    requires q != [] && PickedBack(q[1..], left, at)
    ensures PickedBack(q, left + if stays then [q[0]] else [], if stays then Shifted(at) + [0] else Shifted(at))
  {
    assert left + [] == left;
  }

  lemma {:induction false} BackAt(q: seq<Item>, stay: seq<bool>) returns (at: seq<nat>)
    requires |stay| == |q|
    ensures PickedBack(q, Back(q, stay), at) && forall p :: 0 <= p < |q| ==> (p in at <==> stay[p])
  {
    at := [];
    if q != [] {
      var before := BackAt(q[1..], stay[1..]);
      PickedBackMore(q, Back(q[1..], stay[1..]), before, stay[0]);
      at := if stay[0] then Shifted(before) + [0] else Shifted(before);
      hide PickedBack, Shifted;
      forall p | 0 <= p < |q| ensures p in at <==> stay[p] {
        ShiftedIn(before, p);
        assert p > 0 ==> stay[1..][p - 1] == stay[p];
      }
    }
  }

  lemma {:induction false} GoneIff(q: seq<Item>, stay: seq<bool>, n: Node)
    requires |stay| == |q|
    ensures n in Gone(q, stay) <==> exists p :: 0 <= p < |q| && !stay[p] && q[p].node == n
  {
    if q != [] {
      GoneIff(q[1..], stay[1..], n);
      assert forall p :: 0 <= p < |q| - 1 ==> stay[1..][p] == stay[p + 1] && q[1..][p] == q[p + 1];
      if p :| 0 <= p < |q| && !stay[p] && q[p].node == n && p > 0 {
        assert !stay[1..][p - 1] && q[1..][p - 1].node == n;
      }
    }
  }

  lemma {:induction false} AgedIsChoice(q: seq<Item>, kept: seq<Item>, plist: seq<Node>, clock: nat -> int, i: nat, stay: seq<bool>)
    requires |stay| == |q|
    requires forall p :: 0 <= p < |q| ==> stay[p] == (!IsOldEnough(q[p].created, clock(i + p)) || q[p].node in plist)
    ensures AgedKept(q, kept, plist, clock, i) == Back(q, stay) + kept && AgedDropped(q, plist, clock, i) == Gone(q, stay)
  {
    hide IsOldEnough;
    if q != [] {
      var x := q[0];
      forall p | 0 <= p < |q| - 1
        ensures stay[1..][p] == (!IsOldEnough(q[1..][p].created, clock(i + 1 + p)) || q[1..][p].node in plist)
      {
        assert i + 1 + p == i + (p + 1);
      }
      AgedIsChoice(q[1..], if stay[0] then [x] + kept else kept, plist, clock, i + 1, stay[1..]);
      var b := Back(q[1..], stay[1..]);
      assert (b + if stay[0] then [x] else []) + kept == b + if stay[0] then [x] + kept else kept;
    }
  }

  /** The scan of src/smr_no_membar.c keeps exactly the positions that may not go, and turns their order round. */
  lemma AgedKeepsExactly(r: Retired, slots: seq<Node>, clock: nat -> int) returns (at: seq<nat>)
    ensures PickedBack(r.rlist, AgedScan(r, slots, clock).rlist, at) && AgedScan(r, slots, clock).rcount == |at|
    ensures forall p :: 0 <= p < |r.rlist| ==> (p in at <==> !AgedGoes(r.rlist, slots, clock, 0, p))
  {
    var stay := AgedVerdicts(r.rlist, slots, clock);
    hide AgedGoes, Hazards, AgedKept, AgedDropped;
    at := BackAt(r.rlist, stay);
    assert Back(r.rlist, stay) + [] == Back(r.rlist, stay);
  }

  lemma AgedVerdicts(q: seq<Item>, slots: seq<Node>, clock: nat -> int) returns (stay: seq<bool>)
    ensures |stay| == |q| && forall p :: 0 <= p < |q| ==> stay[p] == !AgedGoes(q, slots, clock, 0, p)
    ensures AgedKept(q, [], Hazards(slots), clock, 0) == Back(q, stay) + []
    ensures AgedDropped(q, Hazards(slots), clock, 0) == Gone(q, stay)
  {
    stay := seq(|q|, p requires 0 <= p < |q| => !AgedGoes(q, slots, clock, 0, p));
    hide IsOldEnough, Hazards;
    AgedIsChoice(q, [], Hazards(slots), clock, 0, stay);
  }

  /** And it frees exactly the nodes of the others. */
  lemma AgedFreesIff(r: Retired, slots: seq<Node>, clock: nat -> int, n: Node)
    ensures r.freed <= AgedScan(r, slots, clock).freed
    ensures n in AgedScan(r, slots, clock).freed[|r.freed|..]
       <==> exists p :: 0 <= p < |r.rlist| && AgedGoes(r.rlist, slots, clock, 0, p) && r.rlist[p].node == n
  {
    var stay := AgedVerdicts(r.rlist, slots, clock);
    hide AgedGoes, Hazards, AgedKept, AgedDropped;
    GoneIff(r.rlist, stay, n);
  }

  // ----- src/smr_no_membar_opt.c: from the tail, with one reading per node that the walk comes to

  /** The reading with which a walk over q judges position p */
  function ReadingOf(q: seq<Item>, i: nat, p: nat): nat
    requires p < |q|
  {
    i + (|q| - 1 - p)
  }

  /** Position p may go at that reading. */
  ghost predicate WalkGoes(q: seq<Item>, hazard: Node -> bool, clock: nat -> int, i: nat, p: nat)
    requires p < |q|
  {
    IsOldEnough(q[p].created, clock(ReadingOf(q, i, p))) && !hazard(q[p].node)
  }

  /** Where a walk ends: without early exit at the head; with it, all nodes it passes are old enough, and it stops behind
      position stop at a node that is not. */
  ghost predicate EndsAt(q: seq<Item>, clock: nat -> int, i: nat, early: bool, stop: nat) {
    && stop <= |q| && (!early ==> stop == 0)
    && (early ==> forall p :: stop <= p < |q| ==> IsOldEnough(q[p].created, clock(ReadingOf(q, i, p))))
    && (stop > 0 ==> !IsOldEnough(q[stop - 1].created, clock(ReadingOf(q, i, stop - 1))))
  }

  lemma EndsAtFront(q: seq<Item>, clock: nat -> int, i: nat, early: bool, stop: nat)
    requires q != [] && EndsAt(Front(q), clock, i + 1, early, stop) && (early ==> IsOldEnough(LastOf(q).created, clock(i)))
    ensures EndsAt(q, clock, i, early, stop)
  {
    hide IsOldEnough;
    var p := Front(q);
    assert forall k :: 0 <= k < |p| ==> p[k] == q[k] && ReadingOf(p, i + 1, k) == ReadingOf(q, i, k);
  }

  lemma EndsHere(q: seq<Item>, clock: nat -> int, i: nat, early: bool)
    requires q == [] || (early && !IsOldEnough(LastOf(q).created, clock(i)))
    ensures EndsAt(q, clock, i, early, |q|)
  {
  }

  lemma GoesInFront(q: seq<Item>, hazard: Node -> bool, clock: nat -> int, i: nat, p: nat)
    requires p < |q| - 1
    ensures WalkGoes(Front(q), hazard, clock, i + 1, p) == WalkGoes(q, hazard, clock, i, p)
  {
    assert ReadingOf(Front(q), i + 1, p) == ReadingOf(q, i, p);
  }

  /** The verdicts of a walk that ends at stop */
  ghost predicate WalkVerdicts(q: seq<Item>, hazard: Node -> bool, clock: nat -> int, i: nat, stop: nat, stay: seq<bool>) {
    |stay| == |q| && forall p :: 0 <= p < |q| ==> stay[p] == (p < stop || !WalkGoes(q, hazard, clock, i, p))
  }

  lemma VerdictsMore(q: seq<Item>, hazard: Node -> bool, clock: nat -> int, i: nat, stop: nat, stay: seq<bool>)
    requires q != [] && stop <= |q| - 1 && WalkVerdicts(Front(q), hazard, clock, i + 1, stop, stay)
    ensures WalkVerdicts(q, hazard, clock, i, stop, stay + [!Freeable(LastOf(q), hazard, clock(i))])
  {
    var more := stay + [!Freeable(LastOf(q), hazard, clock(i))];
    assert ReadingOf(q, i, |q| - 1) == i;
    assert WalkGoes(q, hazard, clock, i, |q| - 1) == Freeable(LastOf(q), hazard, clock(i));
    hide WalkGoes, Freeable;
    forall p | 0 <= p < |q| ensures more[p] == (p < stop || !WalkGoes(q, hazard, clock, i, p)) {
      if p < |q| - 1 {
        GoesInFront(q, hazard, clock, i, p);
      }
    }
  }

  lemma {:induction false} AllStay(q: seq<Item>, stay: seq<bool>)
    requires |stay| == |q| && forall p :: 0 <= p < |q| ==> stay[p]
    ensures Chosen(q, stay) == q && Rest(q, stay) == []
  {
    if q != [] {
      AllStay(Front(q), stay[..|q| - 1]);
      assert q == Front(q) + [LastOf(q)];
    }
  }

  lemma {:induction false} WalkPositions(q: seq<Item>, hazard: Node -> bool, clock: nat -> int, i: nat, early: bool)
    returns (stop: nat, stay: seq<bool>)
    ensures EndsAt(q, clock, i, early, stop) && WalkVerdicts(q, hazard, clock, i, stop, stay)
    ensures WalkKept(q, hazard, clock, i, early) == Chosen(q, stay) && WalkDropped(q, hazard, clock, i, early) == Rest(q, stay)
  {
    hide IsOldEnough, Freeable, EndsAt, WalkGoes;
    if q == [] || (early && !IsOldEnough(LastOf(q).created, clock(i))) {
      stop, stay := |q|, seq(|q|, _ => true);
      EndsHere(q, clock, i, early);
      AllStay(q, stay);
    } else {
      var front;
      stop, front := WalkPositions(Front(q), hazard, clock, i + 1, early);
      stay := front + [!Freeable(LastOf(q), hazard, clock(i))];
      assert stay[..|q| - 1] == front;
      EndsAtFront(q, clock, i, early, stop);
      EndsInside(Front(q), clock, i + 1, early, stop);
      VerdictsMore(q, hazard, clock, i, stop, front);
      hide WalkVerdicts;
    }
  }

  lemma EndsInside(q: seq<Item>, clock: nat -> int, i: nat, early: bool, stop: nat)
    requires EndsAt(q, clock, i, early, stop)
    ensures stop <= |q|
  {
  }

  /** A walk keeps, in order, exactly the positions that it does not come to and those that may not go; it frees exactly
      the nodes of the others. */
  lemma WalkExactly(q: seq<Item>, hazard: Node -> bool, clock: nat -> int, early: bool) returns (stop: nat, at: seq<nat>)
    ensures EndsAt(q, clock, 0, early, stop) && Picked(q, WalkKept(q, hazard, clock, 0, early), at)
    ensures forall p :: 0 <= p < |q| ==> (p in at <==> p < stop || !WalkGoes(q, hazard, clock, 0, p))
    ensures forall n :: n in WalkDropped(q, hazard, clock, 0, early)
                   <==> exists p :: stop <= p < |q| && WalkGoes(q, hazard, clock, 0, p) && q[p].node == n
    ensures |WalkKept(q, hazard, clock, 0, early)| + |WalkDropped(q, hazard, clock, 0, early)| == |q|
  {
    var stay;
    stop, stay := WalkPositions(q, hazard, clock, 0, early);
    at := ChosenAt(q, stay);
    AllSifted(q, stay);
    var d := WalkDropped(q, hazard, clock, 0, early);
    hide WalkGoes, EndsAt, Picked, WalkKept, WalkDropped;
    forall n ensures n in d <==> exists p :: stop <= p < |q| && WalkGoes(q, hazard, clock, 0, p) && q[p].node == n {
      RestIff(q, stay, n);
      hide Rest;
    }
  }

  /** What a walk does depends on the answers of the search alone. */
  lemma {:induction false} SameAnswers(q: seq<Item>, hazard: Node -> bool, other: Node -> bool, clock: nat -> int, i: nat, early: bool)
    requires forall n :: hazard(n) == other(n)
    ensures WalkKept(q, hazard, clock, i, early) == WalkKept(q, other, clock, i, early)
    ensures WalkDropped(q, hazard, clock, i, early) == WalkDropped(q, other, clock, i, early)
  {
    if q != [] {
      SameAnswers(Front(q), hazard, other, clock, i + 1, early);
    }
  }
}
