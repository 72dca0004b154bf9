/** Quiescent states bring the epochs on (src/qsbr.c): if all threads are in critical sections and call quiescent_state one
    after the other, over and over, whatever they retire in between, the global epoch goes on once in every round but the
    first, and what waited at the beginning has been freed after four rounds.
 */
module QsbrProgress {
  import opened Addresses
  import opened Qsbr

  function Next(l: int): int {
    if l == N_EPOCHS - 1 then 0 else l + 1
  }

  predicate Calm(d: Domain, n: nat) {
    IsDomain(d) && |d.locals| == n && forall t :: 0 <= t < n ==> d.locals[t].inCritical
  }

  /** t retires some nodes. */
  ghost predicate Retires(d: Domain, d': Domain, t: nat, ns: seq<Node>)
    decreases |ns|
  {
    if ns == [] then d' == d
    else t < |d.locals| && IsDomain(d) && Retires(FreeNodeLater(d, t, ns[0]), d', t, ns[1..])
  }

  /** And then passes through a quiescent state. */
  ghost predicate Turn(d: Domain, d': Domain, t: nat) {
    exists ns, m :: Retires(d, m, t, ns) && t < |m.locals| && IsDomain(m) && d' == QuiescentState(m, t)
  }

  /** Each of n threads takes its turn once. */
  ghost predicate Round(ds: seq<Domain>, n: nat) {
    |ds| == n + 1 && forall t :: 0 <= t < n ==> Turn(ds[t], ds[t + 1], t)
  }

  // ----- what one turn does

  /** Labels and flags as before, and nothing has left the lists. */
  ghost predicate OnlyMore(d: Domain, d': Domain) {
    && |d'.locals| == |d.locals| && d'.global == d.global && d'.freed == d.freed
    && forall u :: 0 <= u < |d.locals| ==>
         && d'.locals[u].epoch == d.locals[u].epoch && d'.locals[u].inCritical == d.locals[u].inCritical
         && |d'.locals[u].limbo| == |d.locals[u].limbo|
         && forall l, x :: 0 <= l < |d.locals[u].limbo| && x in d.locals[u].limbo[l] ==> x in d'.locals[u].limbo[l]
  }

  lemma RetireMore(d: Domain, t: nat, x: Node)
    requires t < |d.locals| && IsDomain(d)
    ensures OnlyMore(d, FreeNodeLater(d, t, x)) && IsDomain(FreeNodeLater(d, t, x))
  {
  }

  lemma MoreTwice(a: Domain, b: Domain, c: Domain)
    requires OnlyMore(a, b) && OnlyMore(b, c)
    ensures OnlyMore(a, c)
  {
  }

  lemma {:induction false} RetiresMore(d: Domain, d': Domain, t: nat, ns: seq<Node>)
    requires Retires(d, d', t, ns) && IsDomain(d)
    ensures OnlyMore(d, d') && IsDomain(d')
    decreases |ns|
  {
    if ns != [] {
      var m := FreeNodeLater(d, t, ns[0]);
      RetireMore(d, t, ns[0]);
      RetiresMore(m, d', t, ns[1..]);
      hide OnlyMore, IsDomain, FreeNodeLater;
      MoreTwice(d, m, d');
    }
  }

  /** Node x waits in list l of thread u, or has been freed. */
  predicate Watched(d: Domain, u: nat, l: int, x: Node) {
    u < |d.locals| && 0 <= l < |d.locals[u].limbo| && (x in d.freed || x in d.locals[u].limbo[l])
  }

  predicate Lagging(d: Domain, t: nat, i: nat) {
    i < |d.locals| && i != t && d.locals[i].epoch != d.global
  }

  /** What a turn of t does to labels: it takes over the label of a new epoch, or advances the epoch if nobody lags. */
  ghost predicate TurnLabels(d: Domain, d': Domain, t: nat, n: nat) {
    && t < n && Calm(d, n) && Calm(d', n)
    && (forall u :: 0 <= u < n && u != t ==> d'.locals[u].epoch == d.locals[u].epoch)
    && if d.locals[t].epoch != d.global then d'.global == d.global && d'.locals[t].epoch == d.global
       else if exists i: nat :: Lagging(d, t, i) then d'.global == d.global && d'.locals[t].epoch == d.global
       else d'.global == Next(d.global) && d'.locals[t].epoch == Next(d.global)
  }

  lemma QuiesceDomain(d: Domain, t: nat)
    requires IsDomain(d) && t < |d.locals|
    ensures IsDomain(QuiescentState(d, t)) && |QuiescentState(d, t).locals| == |d.locals|
  {
    AdoptConserves(d, t);
    AdoptConserves(Advance(d), t);
    hide Adopt, Lags, Waiting;
  }

  lemma NobodyLags(d: Domain, t: nat)
    requires t < |d.locals| && forall i :: 0 <= i < |d.locals| ==> d.locals[i].inCritical
    ensures (forall i :: 0 <= i < |d.locals| && i != t && d.locals[i].inCritical ==> d.locals[i].epoch == d.global)
       <==> !exists i: nat :: Lagging(d, t, i)
  {
    if forall i: nat :: !Lagging(d, t, i) {
      forall i | 0 <= i < |d.locals| && i != t && d.locals[i].inCritical ensures d.locals[i].epoch == d.global {
        assert !Lagging(d, t, i);
      }
    }
  }

  lemma QuiesceLabels(d: Domain, t: nat, n: nat)
    requires Calm(d, n) && t < n
    ensures TurnLabels(d, QuiescentState(d, t), t, n)
  {
    QuiesceDomain(d, t);
    QuiescentLaw(d, t);
    NobodyLags(d, t);
    hide QuiescentState, Lagging, IsDomain;
  }

  lemma QuiesceWatches(d: Domain, t: nat, u: nat, l: int, x: Node)
    requires IsDomain(d) && t < |d.locals| && Watched(d, u, l, x)
    ensures var d' := QuiescentState(d, t);
            Watched(d', u, l, x) && (u == t && d'.locals[t].epoch == l && d.locals[t].epoch != l ==> x in d'.freed)
  {
    QuiescentLaw(d, t);
    hide QuiescentState, Labelled;
  }

  lemma MoreLabels(d: Domain, m: Domain, d': Domain, t: nat, n: nat)
    requires OnlyMore(d, m) && TurnLabels(m, d', t, n) && Calm(d, n)
    ensures TurnLabels(d, d', t, n)
  {
    assert forall i :: Lagging(m, t, i) <==> Lagging(d, t, i);
    hide IsDomain;
  }

  lemma TurnOk(d: Domain, d': Domain, t: nat, n: nat)
    requires Calm(d, n) && t < n && Turn(d, d', t)
    ensures TurnLabels(d, d', t, n)
  {
    var ns, m :| Retires(d, m, t, ns) && t < |m.locals| && IsDomain(m) && d' == QuiescentState(m, t);
    RetiresMore(d, m, t, ns);
    hide QuiescentState, TurnLabels, Retires, IsDomain;
    QuiesceLabels(m, t, n);
    MoreLabels(d, m, d', t, n);
  }

  /** What is watched stays so, and is freed when the thread takes over its label. */
  lemma TurnWatches(d: Domain, d': Domain, t: nat, n: nat, u: nat, l: int, x: Node)
    requires Calm(d, n) && t < n && Turn(d, d', t) && Watched(d, u, l, x)
    ensures Watched(d', u, l, x) && (x in d.freed ==> x in d'.freed)
    ensures u == t && d'.locals[t].epoch == l && d.locals[t].epoch != l ==> x in d'.freed
  {
    var ns, m :| Retires(d, m, t, ns) && t < |m.locals| && IsDomain(m) && d' == QuiescentState(m, t);
    RetiresMore(d, m, t, ns);
    hide QuiescentState, Retires, IsDomain;
    QuiesceWatches(m, t, u, l, x);
    QuiescentLaw(m, t);
    hide Labelled;
  }

  // ----- rounds

  /** In a round in which thread i is the one to advance the epoch, before the turn of t: those before i have come to label
      g by then, and the others to the next one. */
  ghost predicate Mid(d: Domain, n: nat, i: nat, g: int, t: nat) {
    && Calm(d, n) && i < n && 0 <= g < N_EPOCHS
    && if t <= i then d.global == g && forall j :: 0 <= j < n ==>
         if t <= j < i then 0 <= d.locals[j].epoch < N_EPOCHS && Next(d.locals[j].epoch) == g else d.locals[j].epoch == g
       else d.global == Next(g) && forall j :: 0 <= j < n ==> d.locals[j].epoch == if i <= j < t then Next(g) else g
  }

  lemma MidTurn(d: Domain, d': Domain, n: nat, i: nat, g: int, t: nat)
    requires Mid(d, n, i, g, t) && TurnLabels(d, d', t, n)
    ensures Mid(d', n, i, g, t + 1) && d'.locals[t].epoch == Next(d.locals[t].epoch)
  {
    if t == i {
      assert forall j :: !Lagging(d, t, j);
    }
    hide IsDomain;
  }

  lemma MidAgain(d: Domain, n: nat, i: nat, g: int)
    requires Mid(d, n, i, g, n)
    ensures Mid(d, n, i, Next(g), 0)
  {
    hide IsDomain;
  }

  lemma {:induction false} RoundMid(ds: seq<Domain>, n: nat, i: nat, g: int, t: nat)
    requires Round(ds, n) && Mid(ds[0], n, i, g, 0) && t <= n
    ensures Mid(ds[t], n, i, g, t) && |ds[t].locals| == |ds[0].locals| == n
    ensures forall u :: t <= u < n ==> ds[t].locals[u].epoch == ds[0].locals[u].epoch
    ensures forall u :: 0 <= u < t ==> ds[t].locals[u].epoch == Next(ds[0].locals[u].epoch)
  {
    if t > 0 {
      RoundMid(ds, n, i, g, t - 1);
      assert Turn(ds[t - 1], ds[t - 1 + 1], t - 1);
      assert Calm(ds[t - 1], n);
      TurnOk(ds[t - 1], ds[t], t - 1, n);
      MidTurn(ds[t - 1], ds[t], n, i, g, t - 1);
      hide Mid, Turn, Lagging, IsDomain;
    } else {
      hide IsDomain, Turn;
    }
  }

  /** In such a round the epoch goes on by one, and so does every thread's label. */
  lemma RoundAdvances(ds: seq<Domain>, n: nat, i: nat, g: int)
    requires Round(ds, n) && Mid(ds[0], n, i, g, 0)
    ensures Mid(ds[n], n, i, Next(g), 0) && ds[0].global == g && ds[n].global == Next(g)
    ensures |ds[0].locals| == |ds[n].locals| == n
    ensures forall u :: 0 <= u < n ==> ds[n].locals[u].epoch == Next(ds[0].locals[u].epoch)
  {
    RoundMid(ds, n, i, g, n);
    MidAgain(ds[n], n, i, g);
    hide Round, IsDomain, Calm;
  }

  /** Before the turn of t in the first round: either all before have taken over the one epoch, or it has advanced. */
  ghost predicate First(d: Domain, n: nat, t: nat) {
    && Calm(d, n)
    && ((forall j :: 0 <= j < t && j < n ==> d.locals[j].epoch == d.global) || exists i: nat, g :: i < t && Mid(d, n, i, g, t))
  }

  lemma FirstTurn(d: Domain, d': Domain, n: nat, t: nat)
    requires First(d, n, t) && TurnLabels(d, d', t, n)
    ensures First(d', n, t + 1)
  {
    hide IsDomain;
    if i: nat, g :| i < t && Mid(d, n, i, g, t) {
      MidTurn(d, d', n, i, g, t);
    } else if d.locals[t].epoch == d.global && !(exists i: nat :: Lagging(d, t, i)) {
      forall j | 0 <= j < n ensures d.locals[j].epoch == d.global {
        assert !Lagging(d, t, j);
      }
      assert IsDomain(d);
      DomainLabels(d);
      assert Mid(d', n, t, d.global, t + 1);
    }
  }

  lemma DomainLabels(d: Domain)
    requires IsDomain(d)
    ensures 0 <= d.global < N_EPOCHS
  {
  }

  lemma {:induction false} FirstRound(ds: seq<Domain>, n: nat, t: nat)
    requires Round(ds, n) && Calm(ds[0], n) && t <= n
    ensures First(ds[t], n, t)
  {
    hide IsDomain, Turn;
    if t > 0 {
      FirstRound(ds, n, t - 1);
      assert Turn(ds[t - 1], ds[t - 1 + 1], t - 1);
      hide Lagging, Mid;
      TurnOk(ds[t - 1], ds[t], t - 1, n);
      FirstTurn(ds[t - 1], ds[t], n, t - 1);
    }
  }

  /** Whatever the labels were, after one round they are in step. */
  lemma AfterFirst(ds: seq<Domain>, n: nat) returns (i: nat, g: int)
    requires Round(ds, n) && Calm(ds[0], n) && n > 0
    ensures Mid(ds[n], n, i, g, 0)
  {
    FirstRound(ds, n, n);
    hide IsDomain, Turn;
    var d := ds[n];
    if j: nat, h :| j < n && Mid(d, n, j, h, n) {
      i, g := j, Next(h);
      MidAgain(d, n, j, h);
    } else {
      i, g := 0, d.global;
      assert IsDomain(d);
      DomainLabels(d);
    }
  }

  // ----- everything is freed

  lemma {:induction false} RoundWatches(ds: seq<Domain>, n: nat, t: nat, u: nat, l: int, x: Node)
    requires Round(ds, n) && Calm(ds[0], n) && t <= n && Watched(ds[0], u, l, x)
    ensures Calm(ds[t], n) && Watched(ds[t], u, l, x) && (x in ds[0].freed ==> x in ds[t].freed)
  {
    hide IsDomain, Turn, Watched;
    if t > 0 {
      RoundWatches(ds, n, t - 1, u, l, x);
      assert Turn(ds[t - 1], ds[t - 1 + 1], t - 1);
      TurnOk(ds[t - 1], ds[t], t - 1, n);
      TurnWatches(ds[t - 1], ds[t], t - 1, n, u, l, x);
    }
  }

  /** Once u has taken its turn with the label of the node's list, the node is freed. */
  lemma {:induction false} RoundFrees(ds: seq<Domain>, n: nat, i: nat, g: int, t: nat, u: nat, l: int, x: Node)
    requires Round(ds, n) && Mid(ds[0], n, i, g, 0) && u < t <= n && Watched(ds[0], u, l, x)
    requires Next(ds[0].locals[u].epoch) == l
    ensures x in ds[t].freed
  {
    RoundMid(ds, n, i, g, t - 1);
    RoundMid(ds, n, i, g, t);
    RoundWatches(ds, n, t - 1, u, l, x);
    assert Turn(ds[t - 1], ds[t - 1 + 1], t - 1);
    hide IsDomain, Turn, Watched, Mid;
    TurnWatches(ds[t - 1], ds[t], t - 1, n, u, l, x);
    if u < t - 1 {
      RoundFrees(ds, n, i, g, t - 1, u, l, x);
    }
  }

  /** Four rounds, one after the other */
  ghost predicate Rounds(rs: seq<seq<Domain>>, n: nat) {
    && |rs| == 4 && (forall k :: 0 <= k < 4 ==> |rs[k]| == n + 1 && Round(rs[k], n))
    && rs[1][0] == rs[0][n] && rs[2][0] == rs[1][n] && rs[3][0] == rs[2][n]
  }

  /** What waited at the beginning has been freed after four rounds, whatever was retired meanwhile. */
  lemma AllFreed(rs: seq<seq<Domain>>, n: nat, u: nat, l: int, x: Node)
    requires n > 0 && Rounds(rs, n) && Calm(rs[0][0], n) && u < n && 0 <= l < N_EPOCHS && x in rs[0][0].locals[u].limbo[l]
    ensures x in rs[3][n].freed
  {
    assert Watched(rs[0][0], u, l, x);
    var i, g := AfterFirst(rs[0], n);
    RoundWatches(rs[0], n, n, u, l, x);
    var a := rs[1][0].locals[u].epoch;
    assert 0 <= a < N_EPOCHS;
    hide Round, Mid, Watched, Calm;
    RoundAdvances(rs[1], n, i, g);
    RoundAdvances(rs[2], n, i, Next(g));
    RoundStays(rs[1], n, i, g, u, l, x);
    RoundStays(rs[2], n, i, Next(g), u, l, x);
    RoundAdvances(rs[3], n, i, Next(Next(g)));
    RoundStays(rs[3], n, i, Next(Next(g)), u, l, x);
    if Next(a) == l {
      RoundFrees(rs[1], n, i, g, n, u, l, x);
    } else if Next(Next(a)) == l {
      RoundFrees(rs[2], n, i, Next(g), n, u, l, x);
    } else {
      RoundFrees(rs[3], n, i, Next(Next(g)), n, u, l, x);
    }
  }

  lemma RoundStays(ds: seq<Domain>, n: nat, i: nat, g: int, u: nat, l: int, x: Node)
    requires Round(ds, n) && Mid(ds[0], n, i, g, 0) && Watched(ds[0], u, l, x)
    ensures Watched(ds[n], u, l, x) && (x in ds[0].freed ==> x in ds[n].freed)
  {
    RoundWatches(ds, n, n, u, l, x);
  }
}
