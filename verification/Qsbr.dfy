/** Quiescent-state-based reclamation (src/qsbr.c): the data every thread publishes, and the
    operations on it. The class is the C code; the functions say what each operation does to the
    values, and QsbrSafety builds the interleavings from them.
 */
module Qsbr {
  import opened Addresses

  const N_EPOCHS := 3

  /** One entry of qd. limbo[l] is the list of nodes waiting for label l, newest first. */
  datatype Local = Local(limbo: seq<seq<Node>>, epoch: int, inCritical: bool, rcount: int)

  /** The epoch labels are 0, 1 and 2. freed lists what was handed back to the allocator, oldest first. */
  datatype Domain = Domain(global: int, locals: seq<Local>, freed: seq<Node>)

  predicate IsLocal(l: Local) {
    |l.limbo| == N_EPOCHS && 0 <= l.epoch < N_EPOCHS && l.rcount == |l.limbo[0]| + |l.limbo[1]| + |l.limbo[2]|
  }

  predicate IsDomain(d: Domain) {
    0 <= d.global < N_EPOCHS && forall t :: 0 <= t < |d.locals| ==> IsLocal(d.locals[t])
  }

  /** A thread other than t that is in a critical section and has not reached epoch label curr. */
  predicate Lags(d: Domain, t: nat, i: nat, curr: int)
    requires i < |d.locals|
  {
    d.locals[i].inCritical && d.locals[i].epoch != curr && i != t
  }

  /** process_callbacks on t's list for label l. */
  function ProcessCallbacks(d: Domain, t: nat, l: int): Domain
    requires t < |d.locals| && IsDomain(d) && 0 <= l < N_EPOCHS
  {
    var x := d.locals[t];
    d.(freed := d.freed + x.limbo[l], locals := d.locals[t := x.(limbo := x.limbo[l := []],
        rcount := x.rcount - |x.limbo[l]|)])
  }

  /** What a thread does when it finds a new epoch label: free the list that waited for it and take it over. */
  function Adopt(d: Domain, t: nat): Domain
    requires t < |d.locals| && IsDomain(d)
  {
    if d.locals[t].epoch == d.global then d
    else
      var d' := ProcessCallbacks(d, t, d.global);
      d'.(locals := d'.locals[t := d'.locals[t].(epoch := d.global)])
  }

  function Advance(d: Domain): Domain {
    d.(global := (d.global + 1) % N_EPOCHS)
  }

  /** t has the global epoch label, and the epoch cannot advance. */
  predicate Waits(d: Domain, t: nat)
    requires t < |d.locals|
  {
    d.locals[t].epoch == d.global && exists i :: 0 <= i < |d.locals| && Lags(d, t, i, d.global)
  }

  /** quiescent_state(FUZZY), uninterrupted. */
  function QuiescentState(d: Domain, t: nat): Domain
    requires t < |d.locals| && IsDomain(d)
  {
    if d.locals[t].epoch != d.global then Adopt(d, t)
    else if exists i :: 0 <= i < |d.locals| && Lags(d, t, i, d.global) then d
    else Adopt(Advance(d), t)
  }

  /** free_node_later */
  function FreeNodeLater(d: Domain, t: nat, n: Node): Domain
    requires t < |d.locals| && IsDomain(d)
  {
    var x := d.locals[t];
    d.(locals := d.locals[t := x.(limbo := x.limbo[x.epoch := [n] + x.limbo[x.epoch]], rcount := x.rcount + 1)])
  }

  /** The nodes a thread has retired and not freed yet. */
  function Waiting(x: Local): multiset<Node>
    requires |x.limbo| == N_EPOCHS
  {
    multiset(x.limbo[0]) + multiset(x.limbo[1]) + multiset(x.limbo[2])
  }

  /** Nodes are freed, and labels change, hand in hand: if t's label is a new one, what waited under it has been freed, in
      order, and nothing else; otherwise nothing has. Other threads' entries stay. */
  ghost predicate LabelsFree(d: Domain, d': Domain, t: nat) {
    && t < |d.locals| == |d'.locals| && (forall u :: 0 <= u < |d.locals| && u != t ==> d'.locals[u] == d.locals[u])
    && var x, x' := d.locals[t], d'.locals[t];
       && |x.limbo| == |x'.limbo| == N_EPOCHS && 0 <= x'.epoch < N_EPOCHS && x'.inCritical == x.inCritical
       && if x'.epoch == x.epoch then d'.freed == d.freed && x'.limbo == x.limbo
          else d'.freed == d.freed + x.limbo[x'.epoch] && x'.limbo[x'.epoch] == []
               && forall l :: 0 <= l < N_EPOCHS && l != x'.epoch ==> x'.limbo[l] == x.limbo[l]
  }

  /** Which label t has after a quiescent state: a new epoch's, if there was one already; the next epoch's, if no other
      thread in a critical section lags; otherwise its own, and nothing has happened. */
  ghost predicate Labelled(d: Domain, d': Domain, t: nat) {
    && t < |d.locals| == |d'.locals|
    && if d.locals[t].epoch != d.global then d'.global == d.global && d'.locals[t].epoch == d.global
       else if forall i :: 0 <= i < |d.locals| && i != t && d.locals[i].inCritical ==> d.locals[i].epoch == d.global then
         d'.global == d'.locals[t].epoch == if d.global == N_EPOCHS - 1 then 0 else d.global + 1
       else d' == d
  }

  lemma QuiescentLaw(d: Domain, t: nat)
    requires t < |d.locals| && IsDomain(d)
    ensures LabelsFree(d, QuiescentState(d, t), t) && Labelled(d, QuiescentState(d, t), t)
  {
    AdoptLaw(d, t);
    AdoptLaw(Advance(d), t);
    NothingFreed(d, t);
    if d.locals[t].epoch == d.global {
      if i :| 0 <= i < |d.locals| && Lags(d, t, i, d.global) {
        assert d.locals[i].inCritical && d.locals[i].epoch != d.global && i != t;
        hide LabelsFree, Adopt;
      } else {
        forall i | 0 <= i < |d.locals| && i != t && d.locals[i].inCritical ensures d.locals[i].epoch == d.global {
          assert !Lags(d, t, i, d.global);
        }
        assert QuiescentState(d, t) == Adopt(Advance(d), t);
        hide Adopt;
      }
    }
  }

  lemma NothingFreed(d: Domain, t: nat)
    requires t < |d.locals| && IsDomain(d)
    ensures LabelsFree(d, d, t)
  {
  }

  lemma AdoptLaw(d: Domain, t: nat)
    requires t < |d.locals| && IsDomain(d)
    ensures LabelsFree(d, Adopt(d, t), t) && Adopt(d, t).global == d.global && Adopt(d, t).locals[t].epoch == d.global
  {
  }

  /** Freeing loses no node and invents none, and rcount stays the number of nodes waiting. */
  lemma AdoptConserves(d: Domain, t: nat)
    requires t < |d.locals| && IsDomain(d)
    ensures var d' := Adopt(d, t);
            && IsDomain(d') && |d'.locals| == |d.locals|
            && multiset(d'.freed) + Waiting(d'.locals[t]) == multiset(d.freed) + Waiting(d.locals[t])
            && (forall u :: 0 <= u < |d.locals| && u != t ==> d'.locals[u] == d.locals[u])
  {
    var x := d.locals[t];
    var l := d.global;
    assert multiset(d.freed + x.limbo[l]) == multiset(d.freed) + multiset(x.limbo[l]);
  }

  lemma FreeNodeLaterConserves(d: Domain, t: nat, n: Node)
    requires t < |d.locals| && IsDomain(d)
    ensures var d' := FreeNodeLater(d, t, n);
            && IsDomain(d') && d'.freed == d.freed && d'.global == d.global
            && Waiting(d'.locals[t]) == Waiting(d.locals[t]) + multiset{n}
  {
    var x := d.locals[t];
    assert multiset([n] + x.limbo[x.epoch]) == multiset{n} + multiset(x.limbo[x.epoch]);
  }

  /** The shared structures of src/qsbr.c: global_epoch, the array qd, and the allocator's free list.
      A call of a method stands for that call running without interruption. */
  class Reclaimer {
    var globalEpoch: int
    var epoch: array<int>
    var inCritical: array<bool>
    var rcount: array<int>
    var limbo: array2<seq<Node>>
    var freed: seq<Node>

    ghost predicate Shaped()
      reads this
    {
      && epoch != rcount
      && epoch.Length == inCritical.Length == rcount.Length == limbo.Length0 && limbo.Length1 == N_EPOCHS
    }

    ghost function LocalAt(t: nat): Local
      requires Shaped() && t < epoch.Length
      reads this, epoch, inCritical, rcount, limbo
    {
      Local([limbo[t, 0], limbo[t, 1], limbo[t, 2]], epoch[t], inCritical[t], rcount[t])
    }

    ghost function View(): (d: Domain)
      requires Shaped()
      reads this, epoch, inCritical, rcount, limbo
      ensures |d.locals| == epoch.Length && forall t :: 0 <= t < epoch.Length ==> d.locals[t] == LocalAt(t)
    {
      Domain(globalEpoch, seq(epoch.Length, t requires 0 <= t < epoch.Length reads this, epoch, inCritical, rcount,
          limbo requires Shaped() => LocalAt(t)), freed)
    }

    ghost predicate Valid()
      reads this, epoch, inCritical, rcount, limbo
    {
      Shaped() && IsDomain(View())
    }

    /** mr_init_global */
    constructor (nthreads: nat)
      ensures Valid() && fresh(epoch) && fresh(inCritical) && fresh(rcount) && fresh(limbo)
      ensures View() == Domain(1, seq(nthreads, _ => Local([[], [], []], 0, true, 0)), [])
    {
      globalEpoch := 1;
      epoch := new int[nthreads](_ => 0);
      inCritical := new bool[nthreads](_ => true);
      rcount := new int[nthreads](_ => 0);
      limbo := new seq<Node>[nthreads, N_EPOCHS]((_, _) => []);
      freed := [];
      new;
      assert View().locals == seq(nthreads, _ => Local([[], [], []], 0, true, 0));
    }

    /** update_epoch, with the lock free. */
    method UpdateEpoch(t: nat) returns (ok: bool)
      requires Valid() && t < epoch.Length
      modifies this`globalEpoch
      ensures Valid()
      ensures ok == !exists i :: 0 <= i < epoch.Length && Lags(old(View()), t, i, old(globalEpoch))
      ensures View() == if ok then Advance(old(View())) else old(View())
    {
      ghost var d := View();
      var currEpoch := globalEpoch;
      var i := 0;
      while i < epoch.Length
        invariant 0 <= i <= epoch.Length
        invariant forall j :: 0 <= j < i ==> !Lags(d, t, j, currEpoch)
      {
        if inCritical[i] && epoch[i] != currEpoch && i != t {
          assert Lags(d, t, i, currEpoch);
          return false;
        }
        i := i + 1;
      }
      globalEpoch := (currEpoch + 1) % N_EPOCHS;
      assert View().locals == d.locals;
      return true;
    }

    /** process_callbacks: hand back every node of one list, head first. */
    method ProcessList(t: nat, l: int)
      requires Valid() && t < epoch.Length && 0 <= l < N_EPOCHS
      modifies this`freed, rcount, limbo
      ensures Valid() && View() == ProcessCallbacks(old(View()), t, l)
    {
      ghost var d := View();
      var num := 0;
      while limbo[t, l] != []
        invariant Shaped() && globalEpoch == old(globalEpoch)
        invariant forall u :: 0 <= u < rcount.Length ==> rcount[u] == old(rcount[u])
        invariant forall u, k :: 0 <= u < epoch.Length && 0 <= k < N_EPOCHS && (u != t || k != l) ==> limbo[u, k] == old(limbo[u, k])
        invariant freed + limbo[t, l] == d.freed + old(limbo[t, l]) && num + |limbo[t, l]| == |old(limbo[t, l])|
        decreases |limbo[t, l]|
      {
        freed := freed + [limbo[t, l][0]];
        limbo[t, l] := limbo[t, l][1..];
        num := num + 1;
      }
      rcount[t] := rcount[t] - num;
      assert freed == d.freed + d.locals[t].limbo[l];
      assert LocalAt(t).limbo == d.locals[t].limbo[l := []];
      assert forall u :: 0 <= u < epoch.Length && u != t ==> LocalAt(u) == d.locals[u];
      assert View() == ProcessCallbacks(d, t, l);
    }

    /** in_critical = 0 around update_epoch; t itself never keeps the epoch from advancing. */
    method TryUpdate(t: nat) returns (ok: bool)
      requires Valid() && t < epoch.Length
      modifies this`globalEpoch, inCritical
      ensures Shaped() && !inCritical[t]
      ensures forall i :: 0 <= i < inCritical.Length && i != t ==> inCritical[i] == old(inCritical[i])
      ensures ok == !exists i :: 0 <= i < epoch.Length && Lags(old(View()), t, i, old(globalEpoch))
      ensures globalEpoch == if ok then (old(globalEpoch) + 1) % N_EPOCHS else old(globalEpoch)
    {
      ghost var d := View();
      inCritical[t] := false;
      ghost var hidden := View();
      assert forall u :: 0 <= u < epoch.Length && u != t ==> LocalAt(u) == d.locals[u];
      assert LocalAt(t) == d.locals[t].(inCritical := false);
      assert hidden.locals == d.locals[t := LocalAt(t)];
      assert forall i :: 0 <= i < epoch.Length ==> Lags(hidden, t, i, globalEpoch) == Lags(d, t, i, globalEpoch);
      ok := UpdateEpoch(t);
    }

    /** One round of quiescent_state: up to the return, or up to the goto with which a blocking call tries again. */
    method TryQuiesce(t: nat) returns (ok: bool)
      requires Valid() && t < epoch.Length
      modifies this`globalEpoch, this`freed, epoch, inCritical, rcount, limbo
      ensures Valid() && View() == QuiescentState(old(View()), t) && ok == !Waits(old(View()), t)
      ensures !ok ==> View() == old(View())
    {
      ghost var d := View();
      var e := globalEpoch;
      ok := true;
      if epoch[t] != e {
        TakeOver(t, e);
      } else {
        var orig := inCritical[t];
        ok := TryUpdate(t);
        inCritical[t] := orig;
        assert View().locals == d.locals;
        if ok {
          e := globalEpoch;
          if epoch[t] != e {
            TakeOver(t, e);
          }
        }
      }
    }

    /** quiescent_state, undisturbed: a call that does not block is over after one round, and a blocking one too, unless
        another thread lags; then it goes on trying. turns bounds how long we look. */
    method Quiesce(t: nat, blocking: bool, turns: nat) returns (done: bool)
      requires Valid() && t < epoch.Length
      modifies this`globalEpoch, this`freed, epoch, inCritical, rcount, limbo
      ensures Valid() && done == (turns > 0 && !(blocking && Waits(old(View()), t)))
      ensures View() == if done then QuiescentState(old(View()), t) else old(View())
      ensures LabelsFree(old(View()), View(), t) && (done ==> Labelled(old(View()), View(), t))
    {
      ghost var d := View();
      QuiescentLaw(d, t);
      hide LabelsFree, Labelled, QuiescentState;
      assert LabelsFree(d, d, t) by { NothingFreed(d, t); }
      var i := 0;
      while i < turns
        invariant Valid() && View() == d && (i > 0 ==> blocking && Waits(d, t))
      {
        var ok := TryQuiesce(t);
        if ok || !blocking {
          return true;
        }
        i := i + 1;
      }
      return false;
    }

    /** The two lines that both branches of quiescent_state share. */
    method TakeOver(t: nat, e: int)
      requires Valid() && t < epoch.Length && e == globalEpoch && epoch[t] != e
      modifies this`freed, epoch, rcount, limbo
      ensures Valid() && View() == Adopt(old(View()), t)
    {
      ghost var d := View();
      ProcessList(t, e);
      ghost var d' := View();
      epoch[t] := e;
      assert forall u :: 0 <= u < epoch.Length && u != t ==> LocalAt(u) == d'.locals[u];
      assert LocalAt(t) == d'.locals[t].(epoch := e);
      assert View() == Adopt(d, t);
      AdoptConserves(d, t);
    }

    /** free_node_later, once the wrapper is allocated. */
    method Retire(t: nat, n: Node)
      requires Valid() && t < epoch.Length
      modifies rcount, limbo
      ensures Valid() && View() == FreeNodeLater(old(View()), t, n)
    {
      ghost var d := View();
      assert IsLocal(d.locals[t]);
      var l := epoch[t];
      limbo[t, l] := [n] + limbo[t, l];
      rcount[t] := rcount[t] + 1;
      assert LocalAt(t).limbo == d.locals[t].limbo[l := [n] + d.locals[t].limbo[l]];
      assert forall u :: 0 <= u < epoch.Length && u != t ==> LocalAt(u) == d.locals[u];
      assert View() == FreeNodeLater(d, t, n);
      FreeNodeLaterConserves(d, t, n);
    }
  }
}
