/** Accounting in the lazy hybrid scheme (src/hybrid_lazy.c): a retired node moves between three limbo
    lists and vlist, and leaves them by epoch processing, by a rotation or by a scan.
 */
module LazyHybrid {
  import opened Addresses
  import opened Options
  import opened Counting
  import opened DoubleLlist
  import opened Timing
  import LR = LazyRotation
  import opened ItemLists

  const N_EPOCHS := 3

  type Slots = seq<Option<Node>>

  /** One thread's ltd, HP_cur and the marks. Lists are head first; freed is oldest first. */
  datatype Lists = Lists(limbo: seq<seq<Item>>, vlist: seq<Item>, cur: nat, rcount: int, marked: set<Node>,
      freed: seq<Node>)

  const EMPTY := Lists([[], [], []], [], 0, 0, {}, [])

  predicate Shaped(a: Lists) {
    |a.limbo| == N_EPOCHS
  }

  function Size(a: Lists): nat
    requires Shaped(a)
  {
    |a.limbo[0]| + |a.limbo[1]| + |a.limbo[2]| + |a.vlist|
  }

  /** Every node in one of the four lists or freed, with multiplicity. */
  function Everywhere(a: Lists): multiset<Node>
    requires Shaped(a)
  {
    multiset(Nodes(a.limbo[0])) + multiset(Nodes(a.limbo[1])) + multiset(Nodes(a.limbo[2]))
        + multiset(Nodes(a.vlist)) + multiset(a.freed)
  }

  /** rcount is the sum of the list sizes, and what was retired is exactly what is waiting or freed. */
  predicate Accounted(a: Lists, retired: multiset<Node>) {
    Shaped(a) && a.rcount == Size(a) && Everywhere(a) == retired
  }

  // ----- the operations

  /** process_callbacks: the whole list, oldest first. */
  function Process(a: Lists, l: nat): Lists
    requires Shaped(a) && l < N_EPOCHS
  {
    a.(limbo := a.limbo[l := []], freed := a.freed + Reversed(Nodes(a.limbo[l])), rcount := a.rcount - |a.limbo[l]|)
  }

  function Enqueue(a: Lists, epoch: nat, x: Item): Lists
    requires Shaped(a) && epoch < N_EPOCHS
  {
    a.(limbo := a.limbo[epoch := [x] + a.limbo[epoch]], rcount := a.rcount + 1)
  }

  /** The tail of limbo list i becomes the head of vlist, marked. */
  function Promote(a: Lists, i: nat): Lists
    requires Shaped(a) && i < N_EPOCHS && a.limbo[i] != []
  {
    var x := LastOf(a.limbo[i]);
    a.(limbo := a.limbo[i := Front(a.limbo[i])], vlist := [x] + a.vlist, marked := a.marked + {x.node})
  }

  /** The loops of update_lists from list i on; clock(k) is what the next reading of the clock returns. */
  function Fill(a: Lists, h: nat, i: nat, clock: nat -> int, k: nat): Lists
    requires Shaped(a) && i <= N_EPOCHS
    decreases N_EPOCHS - i, if i < N_EPOCHS then |a.limbo[i]| else 0
  {
    if i == N_EPOCHS then a
    else if |a.vlist| <= h && a.limbo[i] != [] then
      if IsOldEnough(LastOf(a.limbo[i]).created, clock(k)) then Fill(Promote(a, i), h, i, clock, k + 1)
      else Fill(a, h, i + 1, clock, k + 1)
    else Fill(a, h, i + 1, clock, k)
  }

  /** rotation, which is the one of the lazy schemes, on vlist. */
  function Rotate(a: Lists, slots: Slots): Lists
    requires a.cur < |slots| && a.vlist != []
  {
    var l := LR.Rotation(LR.Lazy([], a.vlist, a.cur, a.rcount, a.marked, a.freed), slots);
    a.(vlist := l.vlist, cur := l.cur, rcount := l.rcount, marked := l.marked, freed := l.freed)
  }

  /** The two halves of a rotation */
  function Visited(a: Lists, slots: Slots): Lists
    requires a.cur < |slots|
  {
    a.(marked := if slots[a.cur].Some? then a.marked + {slots[a.cur].value} else a.marked, cur := (a.cur + 1) % |slots|)
  }

  function Turned(a: Lists): Lists
    requires a.vlist != []
  {
    if LastOf(a.vlist).node in a.marked then
      a.(vlist := [LastOf(a.vlist)] + Front(a.vlist), marked := a.marked - {LastOf(a.vlist).node})
    else a.(vlist := Front(a.vlist), freed := a.freed + [LastOf(a.vlist).node], rcount := a.rcount - 1)
  }

  lemma RotateParts(a: Lists, slots: Slots)
    requires a.cur < |slots| && a.vlist != []
    ensures Rotate(a, slots) == Turned(Visited(a, slots))
  {
  }

  function UpdateLists(a: Lists, slots: Slots, clock: nat -> int): Lists
    requires Shaped(a) && a.cur < |slots|
  {
    var a1 := Fill(a, |slots|, 0, clock, 0);
    FillKeepsCur(a, |slots|, 0, clock, 0);
    if |a1.vlist| > |slots| then Rotate(a1, slots) else a1
  }

  lemma {:induction false} FillKeepsCur(a: Lists, h: nat, i: nat, clock: nat -> int, k: nat)
    requires Shaped(a) && i <= N_EPOCHS
    ensures Shaped(Fill(a, h, i, clock, k)) && Fill(a, h, i, clock, k).cur == a.cur
    decreases N_EPOCHS - i, if i < N_EPOCHS then |a.limbo[i]| else 0
  {
    if i < N_EPOCHS {
      if |a.vlist| <= h && a.limbo[i] != [] {
        if IsOldEnough(LastOf(a.limbo[i]).created, clock(k)) {
          FillKeepsCur(Promote(a, i), h, i, clock, k + 1);
        } else {
          FillKeepsCur(a, h, i + 1, clock, k + 1);
        }
      } else {
        FillKeepsCur(a, h, i + 1, clock, k);
      }
    }
  }

  /** free_node_later */
  function Retire(a: Lists, epoch: nat, x: Item, fallback: bool, slots: Slots, clock: nat -> int): Lists
    requires Shaped(a) && epoch < N_EPOCHS && a.cur < |slots|
  {
    if fallback then UpdateLists(Enqueue(a, epoch, x), slots, clock) else Enqueue(a, epoch, x)
  }

  /** The non-NULL slots. */
  function Hazardous(slots: Slots): set<Node> {
    set i | 0 <= i < |slots| && slots[i].Some? :: slots[i].value
  }

  /** What a scan does not free: what a slot holds and, in the limbo lists, what is too young. */
  predicate Stays(x: Item, hazardous: set<Node>, aged: bool, now: int) {
    (aged && !IsOldEnough(x.created, now)) || x.node in hazardous
  }

  /** One of the four loops of scan: what it keeps, in the old order, and what it frees, oldest first. aged says whether it
      looks at the age; the test of the last node reads clock(k). */
  function Kept(q: seq<Item>, hazardous: set<Node>, aged: bool, clock: nat -> int, k: nat): seq<Item> {
    if q == [] then []
    else Kept(Front(q), hazardous, aged, clock, k + 1) + if Stays(LastOf(q), hazardous, aged, clock(k)) then [LastOf(q)] else []
  }

  function Dropped(q: seq<Item>, hazardous: set<Node>, aged: bool, clock: nat -> int, k: nat): seq<Node> {
    if q == [] then []
    else (if Stays(LastOf(q), hazardous, aged, clock(k)) then [] else [LastOf(q).node])
         + Dropped(Front(q), hazardous, aged, clock, k + 1)
  }

  /** Limbo list i, or vlist. */
  function ListAt(a: Lists, i: nat): seq<Item>
    requires Shaped(a) && i <= N_EPOCHS
  {
    if i < N_EPOCHS then a.limbo[i] else a.vlist
  }

  function With(a: Lists, i: nat, q: seq<Item>): (b: Lists)
    requires Shaped(a) && i <= N_EPOCHS
    ensures Shaped(b)
  {
    if i < N_EPOCHS then a.(limbo := a.limbo[i := q]) else a.(vlist := q)
  }

  /** The number of clock readings before the loop over list i. */
  function Readings(a: Lists, i: nat): nat
    requires Shaped(a) && i <= N_EPOCHS
  {
    if i == 0 then 0 else Readings(a, i - 1) + |a.limbo[i - 1]|
  }

  /** What the four loops keep and free; the last one is over vlist. */
  function KeptOf(a: Lists, z: set<Node>, clock: nat -> int, i: nat): seq<Item>
    requires Shaped(a) && i <= N_EPOCHS
  {
    Kept(ListAt(a, i), z, i < N_EPOCHS, clock, Readings(a, i))
  }

  function DroppedOf(a: Lists, z: set<Node>, clock: nat -> int, i: nat): seq<Node>
    requires Shaped(a) && i <= N_EPOCHS
  {
    Dropped(ListAt(a, i), z, i < N_EPOCHS, clock, Readings(a, i))
  }

  /** scan: rcount is set to 0 and counted up again. */
  function Scan(a: Lists, slots: Slots, clock: nat -> int): Lists
    requires Shaped(a)
  {
    var z := Hazardous(slots);
    var k0, k1, k2, kv := KeptOf(a, z, clock, 0), KeptOf(a, z, clock, 1), KeptOf(a, z, clock, 2), KeptOf(a, z, clock, 3);
    a.(limbo := [k0, k1, k2], vlist := kv, rcount := |k0| + |k1| + |k2| + |kv|,
       freed := a.freed + DroppedOf(a, z, clock, 0) + DroppedOf(a, z, clock, 1) + DroppedOf(a, z, clock, 2)
           + DroppedOf(a, z, clock, 3))
  }

  /** The start of mr_thread_exit: vlist goes, tail first, to the head of limbo list 0. */
  function Drain(a: Lists): Lists
    requires Shaped(a)
  {
    a.(limbo := a.limbo[0 := a.vlist + a.limbo[0]], vlist := [])
  }

  // ----- conservation, operation by operation

  lemma ProcessConserves(a: Lists, retired: multiset<Node>, l: nat)
    requires Accounted(a, retired) && l < N_EPOCHS
    ensures Accounted(Process(a, l), retired)
  {
    ReversedSame(Nodes(a.limbo[l]));
    assert multiset(a.freed + Reversed(Nodes(a.limbo[l]))) == multiset(a.freed) + multiset(Nodes(a.limbo[l]));
  }

  lemma {:induction false} FromTheEnd(q: seq<Node>, p: nat)
    requires p < |q|
    ensures |Reversed(q)| == |q| && Reversed(q)[|q| - 1 - p] == q[p]
  {
    if p > 0 {
      FromTheEnd(q[1..], p - 1);
    } else if |q| > 1 {
      FromTheEnd(q[1..], 0);
    }
  }

  /** Ending an epoch frees every node of that epoch's list, the oldest first, and touches nothing else. */
  lemma ProcessFreesAll(a: Lists, l: nat)
    requires Shaped(a) && l < N_EPOCHS
    ensures var b, n := Process(a, l), |a.limbo[l]|;
            && |b.limbo| == N_EPOCHS && b.limbo[l] == [] && (forall i :: 0 <= i < N_EPOCHS && i != l ==> b.limbo[i] == a.limbo[i])
            && b.vlist == a.vlist && b.marked == a.marked && b.cur == a.cur && b.rcount + n == a.rcount
            && |b.freed| == |a.freed| + n && b.freed[..|a.freed|] == a.freed
            && forall p :: 0 <= p < n ==> b.freed[|b.freed| - 1 - p] == a.limbo[l][p].node
  {
    var b, q := Process(a, l), Nodes(a.limbo[l]);
    ReversedSame(q);
    assert |Reversed(q)| == |q| by {
      if q != [] {
        FromTheEnd(q, 0);
      }
    }
    forall p | 0 <= p < |q| ensures b.freed[|b.freed| - 1 - p] == a.limbo[l][p].node {
      FromTheEnd(q, p);
    }
  }

  lemma EnqueueConserves(a: Lists, retired: multiset<Node>, epoch: nat, x: Item)
    requires Accounted(a, retired) && epoch < N_EPOCHS
    ensures Accounted(Enqueue(a, epoch, x), retired + multiset{x.node})
  {
    NodesCons(x, a.limbo[epoch]);
  }

  lemma PromoteConserves(a: Lists, retired: multiset<Node>, i: nat)
    requires Accounted(a, retired) && i < N_EPOCHS && a.limbo[i] != []
    ensures Accounted(Promote(a, i), retired)
  {
    NodesFront(a.limbo[i]);
    NodesCons(LastOf(a.limbo[i]), a.vlist);
  }

  lemma {:induction false} FillConserves(a: Lists, retired: multiset<Node>, h: nat, i: nat, clock: nat -> int, k: nat)
    requires Accounted(a, retired) && i <= N_EPOCHS
    ensures Accounted(Fill(a, h, i, clock, k), retired)
    decreases N_EPOCHS - i, if i < N_EPOCHS then |a.limbo[i]| else 0
  {
    hide Accounted;
    assert Shaped(a) by { AccountedShaped(a, retired); }
    if i < N_EPOCHS {
      if |a.vlist| <= h && a.limbo[i] != [] {
        if IsOldEnough(LastOf(a.limbo[i]).created, clock(k)) {
          PromoteConserves(a, retired, i);
          FillConserves(Promote(a, i), retired, h, i, clock, k + 1);
        } else {
          FillConserves(a, retired, h, i + 1, clock, k + 1);
        }
      } else {
        FillConserves(a, retired, h, i + 1, clock, k);
      }
    }
  }

  lemma AccountedShaped(a: Lists, retired: multiset<Node>)
    requires Accounted(a, retired)
    ensures Shaped(a)
  {
  }

  lemma TurnConserves(a: Lists, retired: multiset<Node>)
    requires Accounted(a, retired) && a.vlist != []
    ensures Accounted(Turned(a), retired)
  {
    var x := LastOf(a.vlist);
    NodesFront(a.vlist);
    NodesCons(x, Front(a.vlist));
    assert multiset(a.freed + [x.node]) == multiset(a.freed) + multiset{x.node};
  }

  lemma RotateConserves(a: Lists, retired: multiset<Node>, slots: Slots)
    requires Accounted(a, retired) && a.cur < |slots| && a.vlist != []
    ensures Accounted(Rotate(a, slots), retired)
  {
    RotateParts(a, slots);
    TurnConserves(Visited(a, slots), retired);
  }

  lemma RetireConserves(a: Lists, retired: multiset<Node>, epoch: nat, x: Item, fallback: bool, slots: Slots,
      clock: nat -> int)
    requires Accounted(a, retired) && epoch < N_EPOCHS && a.cur < |slots|
    ensures Accounted(Retire(a, epoch, x, fallback, slots, clock), retired + multiset{x.node})
  {
    EnqueueConserves(a, retired, epoch, x);
    var a0, r := Enqueue(a, epoch, x), retired + multiset{x.node};
    hide Accounted;
    if fallback {
      FillConserves(a0, r, |slots|, 0, clock, 0);
      FillKeepsCur(a0, |slots|, 0, clock, 0);
      var a1 := Fill(a0, |slots|, 0, clock, 0);
      if |a1.vlist| > |slots| {
        RotateConserves(a1, r, slots);
      }
    }
  }

  lemma {:induction false} SiftConserves(q: seq<Item>, z: set<Node>, aged: bool, clock: nat -> int, k: nat)
    ensures multiset(Nodes(Kept(q, z, aged, clock, k))) + multiset(Dropped(q, z, aged, clock, k)) == multiset(Nodes(q))
  {
    hide Stays;
    if q != [] {
      var p, x := Front(q), LastOf(q);
      SiftConserves(p, z, aged, clock, k + 1);
      NodesFront(q);
      RoundConserves(p, x, Stays(x, z, aged, clock(k)), Kept(p, z, aged, clock, k + 1), Dropped(p, z, aged, clock, k + 1));
    }
  }

  lemma FourParts(f: seq<Node>, d0: seq<Node>, d1: seq<Node>, d2: seq<Node>, dv: seq<Node>)
    ensures multiset(f + d0 + d1 + d2 + dv) == multiset(f) + multiset(d0) + multiset(d1) + multiset(d2) + multiset(dv)
  {
  }

  /** b's lists are a's without the nodes in the four d's, which b has freed. */
  predicate Sifted(a: Lists, b: Lists, d: seq<seq<Node>>) {
    && Shaped(a) && Shaped(b) && |d| == 4 && b.rcount == Size(b)
    && (forall i :: 0 <= i < 3 ==> multiset(Nodes(b.limbo[i])) + multiset(d[i]) == multiset(Nodes(a.limbo[i])))
    && multiset(Nodes(b.vlist)) + multiset(d[3]) == multiset(Nodes(a.vlist))
    && b.freed == a.freed + d[0] + d[1] + d[2] + d[3]
  }

  lemma ScanSifts(a: Lists, slots: Slots, clock: nat -> int) returns (d: seq<seq<Node>>)
    requires Shaped(a)
    ensures Sifted(a, Scan(a, slots, clock), d)
  {
    hide Kept, Dropped, Hazardous, Nodes, Readings;
    var z := Hazardous(slots);
    forall i | 0 <= i <= N_EPOCHS
      ensures multiset(Nodes(KeptOf(a, z, clock, i))) + multiset(DroppedOf(a, z, clock, i))
           == multiset(Nodes(ListAt(a, i)))
    {
      SiftConserves(ListAt(a, i), z, i < N_EPOCHS, clock, Readings(a, i));
    }
    d := [DroppedOf(a, z, clock, 0), DroppedOf(a, z, clock, 1), DroppedOf(a, z, clock, 2), DroppedOf(a, z, clock, 3)];
  }

  lemma ScanConserves(a: Lists, retired: multiset<Node>, slots: Slots, clock: nat -> int)
    requires Accounted(a, retired)
    ensures Accounted(Scan(a, slots, clock), retired)
  {
    var d := ScanSifts(a, slots, clock);
    hide Scan, Nodes;
    SiftedConserves(a, Scan(a, slots, clock), d, retired);
  }

  lemma SiftedConserves(a: Lists, b: Lists, d: seq<seq<Node>>, retired: multiset<Node>)
    requires Accounted(a, retired) && Sifted(a, b, d)
    ensures Accounted(b, retired)
  {
    hide Nodes;
    FourParts(a.freed, d[0], d[1], d[2], d[3]);
    Balance(multiset(Nodes(a.limbo[0])), multiset(Nodes(b.limbo[0])), multiset(d[0]),
            multiset(Nodes(a.limbo[1])), multiset(Nodes(b.limbo[1])), multiset(d[1]),
            multiset(Nodes(a.limbo[2])), multiset(Nodes(b.limbo[2])), multiset(d[2]),
            multiset(Nodes(a.vlist)), multiset(Nodes(b.vlist)), multiset(d[3]), multiset(a.freed), multiset(b.freed));
  }

  lemma Balance(a0: multiset<Node>, b0: multiset<Node>, d0: multiset<Node>,
                a1: multiset<Node>, b1: multiset<Node>, d1: multiset<Node>,
                a2: multiset<Node>, b2: multiset<Node>, d2: multiset<Node>,
                av: multiset<Node>, vb: multiset<Node>, dv: multiset<Node>,
                f: multiset<Node>, g: multiset<Node>)
    requires b0 + d0 == a0 && b1 + d1 == a1 && b2 + d2 == a2 && vb + dv == av && g == f + d0 + d1 + d2 + dv
    ensures b0 + b1 + b2 + vb + g == a0 + a1 + a2 + av + f
  {
  }

  lemma DrainConserves(a: Lists, retired: multiset<Node>)
    requires Accounted(a, retired)
    ensures Accounted(Drain(a), retired)
  {
    NodesAppend(a.vlist, a.limbo[0]);
  }

  // ----- over any mix of operations

  datatype Op =
    | RetireOp(epoch: nat, x: Item, fallback: bool, slots: Slots, clock: nat -> int)
    | ProcessOp(l: nat)
    | ScanOp(scanned: Slots, readings: nat -> int)
    | MarkOp(marks: set<Node>)
    | DrainOp

  /** The calls the program makes: labels below N_EPOCHS, and the same H slots all the time. */
  predicate OpOk(op: Op, h: nat) {
    match op
    case RetireOp(epoch, _, _, slots, _) => epoch < N_EPOCHS && |slots| == h
    case ProcessOp(l) => l < N_EPOCHS
    case _ => true
  }

  function Apply(a: Lists, op: Op): Lists
    requires Shaped(a) && OpOk(op, match op case RetireOp(_, _, _, slots, _) => |slots| case _ => 0)
    requires op.RetireOp? ==> a.cur < |op.slots|
  {
    match op
    case RetireOp(epoch, x, fallback, slots, clock) => Retire(a, epoch, x, fallback, slots, clock)
    case ProcessOp(l) => Process(a, l)
    case ScanOp(slots, clock) => Scan(a, slots, clock)
    case MarkOp(marks) => a.(marked := marks)
    case DrainOp => Drain(a)
  }

  function RetiredBy(op: Op): multiset<Node> {
    if op.RetireOp? then multiset{op.x.node} else multiset{}
  }

  function RetiredByAll(ops: seq<Op>): multiset<Node> {
    if ops == [] then multiset{} else RetiredByAll(ops[..|ops| - 1]) + RetiredBy(ops[|ops| - 1])
  }

  lemma MarkConserves(a: Lists, retired: multiset<Node>, op: Op, h: nat)
    requires op.MarkOp? && Accounted(a, retired) && OpOk(op, h) && a.cur < h
    ensures Accounted(Apply(a, op), retired) && Apply(a, op).cur < h
  {
  }

  lemma ApplyConserves(a: Lists, retired: multiset<Node>, op: Op, h: nat)
    requires Accounted(a, retired) && OpOk(op, h) && a.cur < h
    ensures Accounted(Apply(a, op), retired + RetiredBy(op)) && Apply(a, op).cur < h
  {
    assert Shaped(a) && retired + multiset{} == retired;
    hide Accounted;
    match op
    case RetireOp(epoch, x, fallback, slots, clock) =>
      RetireConserves(a, retired, epoch, x, fallback, slots, clock);
      FillKeepsCur(Enqueue(a, epoch, x), h, 0, clock, 0);
    case ProcessOp(l) => ProcessConserves(a, retired, l);
    case ScanOp(slots, clock) => ScanConserves(a, retired, slots, clock);
    case MarkOp(_) => MarkConserves(a, retired, op, h);
    case DrainOp => DrainConserves(a, retired);
  }

  /** The state after a list of operations, from the empty lists. */
  ghost predicate After(ops: seq<Op>, h: nat, a: Lists) {
    if ops == [] then h > 0 && a == EMPTY
    else exists a0 :: After(ops[..|ops| - 1], h, a0) && Shaped(a0) && a0.cur < h && OpOk(ops[|ops| - 1], h) && a == Apply(a0, ops[|ops| - 1])
  }

  lemma {:induction false} Conservation(ops: seq<Op>, h: nat, a: Lists)
    requires After(ops, h, a)
    ensures Accounted(a, RetiredByAll(ops)) && a.cur < h
  {
    if ops != [] {
      var last := ops[|ops| - 1];
      var a0 :| After(ops[..|ops| - 1], h, a0) && Shaped(a0) && a0.cur < h && OpOk(last, h) && a == Apply(a0, last);
      Conservation(ops[..|ops| - 1], h, a0);
      hide Accounted;
      ApplyConserves(a0, RetiredByAll(ops[..|ops| - 1]), last, h);
    }
  }

  /** How often n stands in the limbo lists, in vlist, and among the freed nodes. */
  function Places(a: Lists, n: Node): nat
    requires Shaped(a)
  {
    multiset(Nodes(a.limbo[0]))[n] + multiset(Nodes(a.limbo[1]))[n] + multiset(Nodes(a.limbo[2]))[n]
    + multiset(Nodes(a.vlist))[n] + multiset(a.freed)[n]
  }

  /** Over any mix of retiring, promotion, rotation, scanning, epoch processing and the exit drain: a node that was
      retired once is in exactly one of the four lists or has been freed exactly once, a node never retired is
      nowhere, and rcount is the sum of the four sizes. */
  lemma EachNodeOnce(ops: seq<Op>, h: nat, a: Lists, n: Node)
    requires After(ops, h, a)
    ensures Shaped(a) && a.rcount == Size(a) && Places(a, n) == RetiredByAll(ops)[n]
  {
    Conservation(ops, h, a);
  }

  // ----- what a scan keeps and what it frees, position by position

  /** Must position p of list i stay? Each loop goes from the tail to the head, with one reading of the clock per node. */
  ghost predicate MustStay(a: Lists, slots: Slots, clock: nat -> int, i: nat, p: nat)
    requires Shaped(a) && i <= N_EPOCHS && p < |ListAt(a, i)|
  {
    var q := ListAt(a, i);
    Some(q[p].node) in slots || (i < N_EPOCHS && !IsOldEnough(q[p].created, clock(Readings(a, i) + (|q| - 1 - p))))
  }

  /** Node n stands at position p of list i, and may go. */
  ghost predicate MayGo(a: Lists, slots: Slots, clock: nat -> int, i: nat, p: nat, n: Node)
    requires Shaped(a)
  {
    i <= N_EPOCHS && p < |ListAt(a, i)| && ListAt(a, i)[p].node == n && !MustStay(a, slots, clock, i, p)
  }

  lemma HazardousIff(slots: Slots, n: Node)
    ensures n in Hazardous(slots) <==> Some(n) in slots
  {
    if Some(n) in slots {
      var i :| 0 <= i < |slots| && slots[i] == Some(n);
      assert slots[i].value in Hazardous(slots);
    }
  }

  /** The verdicts of one loop */
  ghost predicate Verdicts(q: seq<Item>, z: set<Node>, aged: bool, clock: nat -> int, k: nat, stay: seq<bool>) {
    && |stay| == |q|
    && forall p :: 0 <= p < |q| ==> stay[p] == Stays(q[p], z, aged, clock(k + (|q| - 1 - p)))
  }

  lemma {:induction false} SiftIsChoice(q: seq<Item>, z: set<Node>, aged: bool, clock: nat -> int, k: nat, stay: seq<bool>)
    requires Verdicts(q, z, aged, clock, k, stay)
    ensures Kept(q, z, aged, clock, k) == Chosen(q, stay) && Dropped(q, z, aged, clock, k) == Rest(q, stay)
  {
    if q != [] {
      hide Stays;
      SiftIsChoice(Front(q), z, aged, clock, k + 1, stay[..|q| - 1]);
    }
  }

  lemma StaysIff(a: Lists, slots: Slots, clock: nat -> int, i: nat, p: nat)
    requires Shaped(a) && i <= N_EPOCHS && p < |ListAt(a, i)|
    ensures var q := ListAt(a, i);
            MustStay(a, slots, clock, i, p)
            == Stays(q[p], Hazardous(slots), i < N_EPOCHS, clock(Readings(a, i) + (|q| - 1 - p)))
  {
    HazardousIff(slots, ListAt(a, i)[p].node);
    hide Hazardous;
  }

  lemma ListSifted(a: Lists, slots: Slots, clock: nat -> int, i: nat) returns (stay: seq<bool>)
    requires Shaped(a) && i <= N_EPOCHS
    ensures var q, z := ListAt(a, i), Hazardous(slots);
            && |stay| == |q| && KeptOf(a, z, clock, i) == Chosen(q, stay) && DroppedOf(a, z, clock, i) == Rest(q, stay)
            && forall p :: 0 <= p < |q| ==> stay[p] == MustStay(a, slots, clock, i, p)
  {
    var q := ListAt(a, i);
    stay := seq(|q|, p requires 0 <= p < |q| => MustStay(a, slots, clock, i, p));
    hide MustStay, Stays, Hazardous;
    forall p | 0 <= p < |q| ensures stay[p] == Stays(q[p], Hazardous(slots), i < N_EPOCHS, clock(Readings(a, i) + (|q| - 1 - p))) {
      StaysIff(a, slots, clock, i, p);
    }
    SiftIsChoice(q, Hazardous(slots), i < N_EPOCHS, clock, Readings(a, i), stay);
  }

  /** Each list keeps exactly what is in a slot and, in the limbo lists, what is too young at its reading, in order. */
  lemma ScanKeepsExactly(a: Lists, slots: Slots, clock: nat -> int, i: nat) returns (at: seq<nat>)
    requires Shaped(a) && i <= N_EPOCHS
    ensures Picked(ListAt(a, i), ListAt(Scan(a, slots, clock), i), at)
    ensures forall p :: 0 <= p < |ListAt(a, i)| ==> (p in at <==> MustStay(a, slots, clock, i, p))
  {
    var stay := ListSifted(a, slots, clock, i);
    at := ChosenAt(ListAt(a, i), stay);
    hide KeptOf, Picked, MustStay, Chosen;
  }

  lemma DroppedIff(a: Lists, slots: Slots, clock: nat -> int, i: nat, n: Node)
    requires Shaped(a) && i <= N_EPOCHS
    ensures n in DroppedOf(a, Hazardous(slots), clock, i) <==> exists p: nat :: MayGo(a, slots, clock, i, p, n)
  {
    var q := ListAt(a, i);
    var stay := ListSifted(a, slots, clock, i);
    RestIff(q, stay, n);
    hide DroppedOf, MustStay, Rest, Hazardous;
    if p :| 0 <= p < |q| && !stay[p] && q[p].node == n {
      assert MayGo(a, slots, clock, i, p, n);
    }
  }

  /** A scan frees exactly the nodes in no slot that are in vlist or old enough at their own reading. */
  lemma ScanFreesIff(a: Lists, slots: Slots, clock: nat -> int, n: Node)
    requires Shaped(a)
    ensures a.freed <= Scan(a, slots, clock).freed
    ensures n in Scan(a, slots, clock).freed[|a.freed|..] <==> exists i: nat, p: nat :: MayGo(a, slots, clock, i, p, n)
  {
    var z, b := Hazardous(slots), Scan(a, slots, clock);
    var d0, d1, d2, dv := DroppedOf(a, z, clock, 0), DroppedOf(a, z, clock, 1), DroppedOf(a, z, clock, 2), DroppedOf(a, z, clock, 3);
    assert b.freed[|a.freed|..] == d0 + d1 + d2 + dv;
    hide DroppedOf, Hazardous, MayGo, Scan;
    DroppedIff(a, slots, clock, 0, n);
    DroppedIff(a, slots, clock, 1, n);
    DroppedIff(a, slots, clock, 2, n);
    DroppedIff(a, slots, clock, 3, n);
    if i: nat, p: nat :| MayGo(a, slots, clock, i, p, n) {
      GoesFrom(a, slots, clock, i, p, n);
    }
  }

  lemma GoesFrom(a: Lists, slots: Slots, clock: nat -> int, i: nat, p: nat, n: Node)
    requires Shaped(a) && MayGo(a, slots, clock, i, p, n)
    ensures i == 0 || i == 1 || i == 2 || i == 3
  {
  }

  /** So it frees nothing that a slot holds, and from the limbo lists nothing that is too young. */
  lemma ScanFreesNoneHeld(a: Lists, slots: Slots, clock: nat -> int, n: Node)
    requires Shaped(a) && n in Scan(a, slots, clock).freed[|a.freed|..]
    ensures Some(n) !in slots
  {
    ScanFreesIff(a, slots, clock, n);
    var i: nat, p: nat :| MayGo(a, slots, clock, i, p, n);
  }

  // ----- one loop of scan, round by round

  /** How far a loop over q has come: rest is still to be judged, its last node with clock(k). */
  predicate Sifting(q: seq<Item>, z: set<Node>, aged: bool, clock: nat -> int, k0: nat, before: seq<Node>,
                    rest: seq<Item>, kept: seq<Item>, freed: seq<Node>, k: nat) {
    && Kept(rest, z, aged, clock, k) + kept == Kept(q, z, aged, clock, k0)
    && freed + Dropped(rest, z, aged, clock, k) == before + Dropped(q, z, aged, clock, k0)
  }

  lemma SiftStarts(q: seq<Item>, z: set<Node>, aged: bool, clock: nat -> int, k: nat, before: seq<Node>)
    ensures Sifting(q, z, aged, clock, k, before, q, [], before, k)
  {
  }

  lemma SiftGoesOn(q: seq<Item>, z: set<Node>, aged: bool, clock: nat -> int, k0: nat, before: seq<Node>,
                   rest: seq<Item>, kept: seq<Item>, freed: seq<Node>, k: nat)
    requires rest != [] && Sifting(q, z, aged, clock, k0, before, rest, kept, freed, k)
    ensures var x := LastOf(rest);
            var keep := Stays(x, z, aged, clock(k));
            Sifting(q, z, aged, clock, k0, before, Front(rest), if keep then [x] + kept else kept,
                    if keep then freed else freed + [x.node], k + 1)
  {
    var x := LastOf(rest);
    var keep := Stays(x, z, aged, clock(k));
    var kr, dr := Kept(Front(rest), z, aged, clock, k + 1), Dropped(Front(rest), z, aged, clock, k + 1);
    assert Kept(rest, z, aged, clock, k) == kr + if keep then [x] else [];
    assert Dropped(rest, z, aged, clock, k) == (if !keep then [x.node] else []) + dr;
    hide Kept, Dropped, Stays;
    Between(kr, x, keep, kept);
    Between(freed, x.node, !keep, dr);
  }

  lemma SiftEnds(q: seq<Item>, z: set<Node>, aged: bool, clock: nat -> int, k0: nat, before: seq<Node>,
                 kept: seq<Item>, freed: seq<Node>, k: nat)
    requires Sifting(q, z, aged, clock, k0, before, [], kept, freed, k)
    ensures kept == Kept(q, z, aged, clock, k0) && freed == before + Dropped(q, z, aged, clock, k0)
  {
  }
}
