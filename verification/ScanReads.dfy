/** What a scan knows: the nodes that its own reads of the slots showed it, and no others. */
module ScanReads {
  import opened Addresses
  import opened Options
  import opened StoreBuffers

  /** The world at one moment, and how far the scan of the thread in question is, if it is in one. */
  datatype Moment = Moment(w: World, scan: Option<SlotScan>)

  type Trace = seq<Moment>

  /** What thread t finds when it reads slot i: its own last write, even if nobody else sees it yet, or what is in
      memory. */
  function Sees(w: World, t: nat, i: nat): Option<Node>
    requires Shaped(w) && i < Slots(w)
  {
    if i / K != t || w.buffer[i] == [] then w.visible[i] else w.buffer[i][|w.buffer[i]| - 1].value
  }

  /** A scan begins with nothing read, reads slot after slot, and ends. */
  predicate Goes(a: Moment, b: Moment, t: nat) {
    || b.scan == a.scan || b.scan == None
    || (a.scan == None && b.scan.Some? && b.scan.value.next == 0 && b.scan.value.plist == [])
    || (a.scan.Some? && Shaped(a.w) && a.scan.value.next < Slots(a.w) && b.scan == Some(ReadSlot(a.w, a.scan.value, t)))
  }

  predicate Follows(tr: Trace, t: nat) {
    tr != [] && tr[0].scan == None && forall i :: 0 < i < |tr| ==> Goes(tr[i - 1], tr[i], t)
  }

  /** The step from moment j is the read of slot i by the scan that is still going on at moment e. */
  predicate ReadIn(tr: Trace, j: nat, e: nat, i: nat) {
    && j < e < |tr| && (forall l :: j <= l <= e ==> tr[l].scan.Some?)
    && tr[j].scan.value.next == i && tr[j + 1].scan.value.next == i + 1
    && Shaped(tr[j].w) && i < Slots(tr[j].w)
  }

  /** This scan has read n in some slot. */
  ghost predicate Saw(tr: Trace, t: nat, e: nat, n: Node) {
    exists j: nat, i: nat :: ReadIn(tr, j, e, i) && Sees(tr[j].w, t, i) == Some(n)
  }

  lemma SawBefore(tr: Trace, t: nat, e: nat, n: Node)
    requires Follows(tr, t) && 0 < e < |tr| && tr[e].scan.Some? && tr[e - 1].scan == tr[e].scan
    ensures Saw(tr, t, e, n) <==> Saw(tr, t, e - 1, n)
  {
    forall j: nat, i: nat | ReadIn(tr, j, e, i) && Sees(tr[j].w, t, i) == Some(n) ensures Saw(tr, t, e - 1, n) {
      assert ReadIn(tr, j, e - 1, i);
    }
    forall j: nat, i: nat | ReadIn(tr, j, e - 1, i) && Sees(tr[j].w, t, i) == Some(n) ensures Saw(tr, t, e, n) {
      assert ReadIn(tr, j, e, i);
    }
  }

  /** plist holds exactly what the scan has read. */
  lemma {:induction false} PlistIff(tr: Trace, t: nat, e: nat, n: Node)
    requires Follows(tr, t) && e < |tr| && tr[e].scan.Some?
    ensures n in tr[e].scan.value.plist <==> Saw(tr, t, e, n)
  {
    assert e > 0 && Goes(tr[e - 1], tr[e], t);
    if tr[e].scan == tr[e - 1].scan {
      PlistIff(tr, t, e - 1, n);
      SawBefore(tr, t, e, n);
    } else if tr[e - 1].scan == None {
      assert !Saw(tr, t, e, n);
    } else {
      PlistIff(tr, t, e - 1, n);
      ReadPlist(tr, t, e, n);
    }
  }

  lemma ReadPlist(tr: Trace, t: nat, e: nat, n: Node)
    requires Follows(tr, t) && 0 < e < |tr| && tr[e - 1].scan.Some? && Shaped(tr[e - 1].w)
    requires tr[e - 1].scan.value.next < Slots(tr[e - 1].w)
    requires tr[e].scan == Some(ReadSlot(tr[e - 1].w, tr[e - 1].scan.value, t))
    requires n in tr[e - 1].scan.value.plist <==> Saw(tr, t, e - 1, n)
    ensures n in tr[e].scan.value.plist <==> Saw(tr, t, e, n)
  {
    var i := tr[e - 1].scan.value.next;
    assert ReadIn(tr, e - 1, e, i);
    assert n in tr[e].scan.value.plist <==> n in tr[e - 1].scan.value.plist || Sees(tr[e - 1].w, t, i) == Some(n);
    if Saw(tr, t, e - 1, n) {
      var j: nat, s: nat :| ReadIn(tr, j, e - 1, s) && Sees(tr[j].w, t, s) == Some(n);
      assert ReadIn(tr, j, e, s);
    }
    if Saw(tr, t, e, n) {
      var j: nat, s: nat :| ReadIn(tr, j, e, s) && Sees(tr[j].w, t, s) == Some(n);
      assert j < e - 1 ==> ReadIn(tr, j, e - 1, s);
    }
  }

  /** And by then it has read every slot before the one it comes to next. */
  lemma {:induction false} EachRead(tr: Trace, t: nat, e: nat, i: nat) returns (j: nat)
    requires Follows(tr, t) && e < |tr| && tr[e].scan.Some? && i < tr[e].scan.value.next
    ensures ReadIn(tr, j, e, i)
  {
    assert e > 0 && Goes(tr[e - 1], tr[e], t);
    if tr[e].scan == tr[e - 1].scan || i < tr[e - 1].scan.value.next {
      j := EachRead(tr, t, e - 1, i);
    } else {
      j := e - 1;
    }
  }
}
