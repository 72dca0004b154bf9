/** Hazard slots written without a fence: a write sits in its thread's store buffer for at most v
    microseconds before the other threads see it (src/sleeper_threads.c wakes every core up in order to
    bound this delay). The rules of use are those of hazard pointers: publish, check that the node is
    still linked, and only then hold it.
 */
module StoreBuffers {
  import opened Addresses
  import opened Options
  import opened DoubleLlist
  import opened Timing

  /** Hazard slots per thread (include/smr.h). */
  const K := 2

  /** A write that the other threads do not see yet. */
  datatype Write = Write(value: Option<Node>, at: int)

  /** visible[i] is what others read in slot i; buffer[i] its pending writes, oldest first; written[i] the time of
      the last write to it; holds[i] the node its thread relies on slot i to protect. gone says since when a node
      has been unlinked. Times are microseconds. */
  datatype World = World(now: int, visible: seq<Option<Node>>, buffer: seq<seq<Write>>, written: seq<int>,
                         holds: seq<Option<Node>>, gone: map<Node, int>)

  function Slots(w: World): nat {
    |w.visible|
  }

  predicate Shaped(w: World) {
    |w.buffer| == |w.written| == |w.holds| == |w.visible|
  }

  /** What the slot's own thread reads there. */
  function Latest(w: World, i: nat): Option<Node>
    requires Shaped(w) && i < Slots(w)
  {
    if w.buffer[i] != [] then w.buffer[i][|w.buffer[i]| - 1].value else w.visible[i]
  }

  predicate Init(w: World) {
    && Shaped(w) && w.gone == map[]
    && forall i :: 0 <= i < Slots(w) ==> w.visible[i] == None && w.buffer[i] == [] && w.holds[i] == None && w.written[i] == w.now
  }

  // ----- steps

  /** A thread writes its slot, once it no longer relies on what the slot protected. */
  predicate PublishStep(w: World, w': World, i: nat, value: Option<Node>) {
    && Shaped(w) && i < Slots(w) && w.holds[i] == None
    && w' == w.(buffer := w.buffer[i := w.buffer[i] + [Write(value, w.now)]], written := w.written[i := w.now])
  }

  /** The oldest pending write of a slot becomes visible: by itself, at a fence, or because the core was woken up. */
  predicate FlushStep(w: World, w': World, i: nat) {
    && Shaped(w) && i < Slots(w) && w.buffer[i] != []
    && w' == w.(visible := w.visible[i := w.buffer[i][0].value], buffer := w.buffer[i := w.buffer[i][1..]])
  }

  /** Time passes, but no write stays invisible for longer than v. */
  predicate TickStep(w: World, w': World, v: int) {
    && Shaped(w) && w' == w.(now := w'.now) && w.now <= w'.now
    && forall i, j :: 0 <= i < Slots(w) && 0 <= j < |w.buffer[i]| ==> w'.now <= w.buffer[i][j].at + v
  }

  /** The validation after publishing: only a node that is still linked is held. */
  predicate HoldStep(w: World, w': World, i: nat, n: Node) {
    Shaped(w) && i < Slots(w) && Latest(w, i) == Some(n) && n !in w.gone && w' == w.(holds := w.holds[i := Some(n)])
  }

  predicate DropStep(w: World, w': World, i: nat) {
    Shaped(w) && i < Slots(w) && w' == w.(holds := w.holds[i := None])
  }

  predicate UnlinkStep(w: World, w': World, n: Node) {
    n !in w.gone && w' == w.(gone := w.gone[n := w.now])
  }

  ghost predicate WorldStep(w: World, w': World, v: int) {
    || (exists i, value :: PublishStep(w, w', i, value))
    || (exists i :: FlushStep(w, w', i))
    || TickStep(w, w', v)
    || (exists i, n :: HoldStep(w, w', i, n))
    || (exists i :: DropStep(w, w', i))
    || (exists n :: UnlinkStep(w, w', n))
  }

  // ----- the invariant

  predicate SlotOk(w: World, v: int, i: nat)
    requires Shaped(w) && i < Slots(w)
  {
    && w.written[i] <= w.now
    && (forall j :: 0 <= j < |w.buffer[i]| ==> w.now <= w.buffer[i][j].at + v)
    && (w.buffer[i] != [] ==> w.buffer[i][|w.buffer[i]| - 1].at == w.written[i])
    && (w.holds[i].Some? ==> Latest(w, i) == w.holds[i] && (w.holds[i].value in w.gone ==> w.written[i] <= w.gone[w.holds[i].value]))
  }

  predicate WorldInv(w: World, v: int) {
    && Shaped(w) && v >= 0
    && (forall i :: 0 <= i < Slots(w) ==> SlotOk(w, v, i))
    && (forall n :: n in w.gone ==> w.gone[n] <= w.now)
  }

  /** Steps that write or flush one slot. */
  lemma SlotWriteOk(w: World, w': World, v: int, i: nat)
    requires WorldInv(w, v) && i < Slots(w)
    requires (exists value :: PublishStep(w, w', i, value)) || FlushStep(w, w', i)
    ensures SlotOk(w', v, i)
  {
    assert SlotOk(w, v, i);
  }

  lemma WorldStepInv(w: World, w': World, v: int)
    requires WorldInv(w, v) && WorldStep(w, w', v)
    ensures WorldInv(w', v)
  {
    if i, value :| PublishStep(w, w', i, value) {
      WriteInv(w, w', v, i);
    } else if i :| FlushStep(w, w', i) {
      WriteInv(w, w', v, i);
    } else {
      forall i | 0 <= i < Slots(w') ensures SlotOk(w', v, i) {
        assert SlotOk(w, v, i);
      }
    }
  }

  lemma WriteInv(w: World, w': World, v: int, i: nat)
    requires WorldInv(w, v) && i < Slots(w)
    requires (exists value :: PublishStep(w, w', i, value)) || FlushStep(w, w', i)
    ensures WorldInv(w', v)
  {
    SlotWriteOk(w, w', v, i);
    forall j | 0 <= j < Slots(w') ensures SlotOk(w', v, j) {
      assert SlotOk(w, v, j);
    }
  }

  // ----- reading the slots

  /** A scan that began at start and has read the slots below next; plist is what it found there. */
  datatype SlotScan = SlotScan(start: int, next: nat, plist: seq<Node>)

  /** One read: a thread sees its own pending writes, and of the other slots what is visible. */
  function ReadSlot(w: World, r: SlotScan, t: nat): SlotScan
    requires Shaped(w) && r.next < Slots(w)
  {
    var value := if r.next / K == t then Latest(w, r.next) else w.visible[r.next];
    r.(next := r.next + 1, plist := if value.Some? then r.plist + [value.value] else r.plist)
  }

  predicate ReadOk(w: World, v: int, r: SlotScan, i: nat)
    requires Shaped(w) && i < Slots(w)
  {
    w.holds[i].Some? && w.holds[i].value in w.gone && w.gone[w.holds[i].value] + v < r.start ==> w.holds[i].value in r.plist
  }

  /** Whatever a slot already read protects, if it was unlinked more than v before the scan began, was found there. */
  predicate ReadingOk(w: World, v: int, r: SlotScan) {
    Shaped(w) && r.start <= w.now && r.next <= Slots(w) && forall i :: 0 <= i < r.next ==> ReadOk(w, v, r, i)
  }

  lemma ReadingKept(w: World, w': World, v: int, r: SlotScan)
    requires WorldInv(w, v) && WorldStep(w, w', v) && ReadingOk(w, v, r)
    ensures ReadingOk(w', v, r)
  {
    forall i | 0 <= i < r.next ensures ReadOk(w', v, r, i) {
      assert ReadOk(w, v, r, i);
    }
  }

  /** A node unlinked more than v ago is held only under a write that everybody sees by now. */
  lemma OldWritesAreVisible(w: World, v: int, i: nat)
    requires WorldInv(w, v) && i < Slots(w) && w.holds[i].Some? && w.holds[i].value in w.gone
    requires w.gone[w.holds[i].value] + v < w.now
    ensures w.visible[i] == w.holds[i] && Latest(w, i) == w.holds[i]
  {
    assert SlotOk(w, v, i);
  }

  lemma ReadSlotOk(w: World, v: int, r: SlotScan, t: nat)
    requires WorldInv(w, v) && ReadingOk(w, v, r) && r.next < Slots(w)
    ensures ReadingOk(w, v, ReadSlot(w, r, t))
  {
    var r' := ReadSlot(w, r, t);
    forall i | 0 <= i < r'.next ensures ReadOk(w, v, r', i) {
      if i < r.next {
        assert ReadOk(w, v, r, i);
      } else if w.holds[i].Some? && w.holds[i].value in w.gone && w.gone[w.holds[i].value] + v < r.start {
        OldWritesAreVisible(w, v, i);
      }
    }
  }

  /** The timing condition: the visibility delay, the time d from reading the slots to the age test, and the
      millisecond by which the age test may be wrong, fit into SLEEP_AMOUNT + MARGIN. */
  predicate Timely(v: int, d: int) {
    0 <= v && v + d + 1000 <= (SLEEP_AMOUNT + MARGIN) * 1000
  }

  /** What passes the age test and was found in no slot is held by nobody. */
  lemma FreeableIsFree(w: World, v: int, d: int, r: SlotScan, n: Node, created: int, i: nat)
    requires WorldInv(w, v) && Timely(v, d) && ReadingOk(w, v, r) && r.next == Slots(w) && i < Slots(w)
    requires n in w.gone && w.gone[n] <= created && InRange(created, w.now)
    requires w.now <= r.start + d && IsOldEnough(created, w.now) && n !in r.plist
    ensures w.holds[i] != Some(n)
  {
    AgeProved(created, w.now);
    assert ReadOk(w, v, r, i);
  }

  // ----- why the delay is bounded

  /** woken[c] is when the sleeper thread of core c last woke up. Worker t runs on core t, and the context switch
      empties its store buffer. */
  predicate SinceWakeup(w: World, woken: seq<int>) {
    Shaped(w) && forall i :: 0 <= i < Slots(w) ==> SlotSinceWakeup(w, woken, i)
  }

  predicate SlotSinceWakeup(w: World, woken: seq<int>, i: nat)
    requires Shaped(w) && i < Slots(w)
  {
    i / K < |woken| && forall j :: 0 <= j < |w.buffer[i]| ==> woken[i / K] <= w.buffer[i][j].at
  }

  /** The end of wakeup's sleep on core c: its slots have been flushed, one step each. */
  lemma WokenUp(w: World, woken: seq<int>, c: nat)
    requires SinceWakeup(w, woken) && c < |woken| && forall i :: 0 <= i < Slots(w) && i / K == c ==> w.buffer[i] == []
    ensures SinceWakeup(w, woken[c := w.now])
  {
    var woken' := woken[c := w.now];
    forall i | 0 <= i < Slots(w) ensures SlotSinceWakeup(w, woken', i) {
      assert SlotSinceWakeup(w, woken, i);
    }
  }

  /** Every other step keeps the buffers younger than the last wake-up. */
  lemma SinceWakeupKept(w: World, w': World, woken: seq<int>, v: int)
    requires SinceWakeup(w, woken) && WorldStep(w, w', v)
    requires forall c :: 0 <= c < |woken| ==> woken[c] <= w.now
    ensures SinceWakeup(w', woken)
  {
    forall i | 0 <= i < Slots(w') ensures SlotSinceWakeup(w', woken, i) {
      assert SlotSinceWakeup(w, woken, i);
    }
  }

  /** If no core sleeps longer than period, time passes as TickStep allows it with v = period. */
  lemma WakeupsBoundDelay(w: World, w': World, woken: seq<int>, period: int)
    requires SinceWakeup(w, woken) && w.now <= w'.now && w' == w.(now := w'.now)
    requires forall c :: 0 <= c < |woken| ==> w'.now <= woken[c] + period
    ensures TickStep(w, w', period)
  {
    forall i, j | 0 <= i < Slots(w) && 0 <= j < |w.buffer[i]| ensures w'.now <= w.buffer[i][j].at + period {
      assert SlotSinceWakeup(w, woken, i);
    }
  }
}
