/** QSBR under interleaving: why nothing is freed while a thread still holds it, with three epoch labels only. Here are
    the steps between quiescent states, and the invariant with the parts of a quiescent state that keep it;
    QsbrWindow has the calls of quiescent_state and the runs.

    Beside each three-valued label stands the true epoch it stands for, and beside each node where it is
    and since when.
 */
module QsbrSafety {
  import opened Addresses
  import opened Qsbr

  /** Where a node is. who is the thread that took it out of the structure, at the true global epoch
      of that moment, epoch the true local epoch of who when it called free_node_later, when the true
      global epoch of the moment it was freed. Scanned is for nodes that a hazard scan frees out of a limbo
      list; src/qsbr.c has none, src/qsbr_smr_hybrid.c does (see HybridSafety). */
  datatype Place =
    | Linked
    | Pending(who: nat, at: nat)
    | Limbo(who: nat, at: nat, epoch: nat)
    | Freed(at: nat, epoch: nat, when: nat)
    | Scanned

  datatype Activity = Running | Scanning(next: nat, curr: int)

  /** What the program does not store: the thread's true epoch, the nodes it holds, and its position. */
  datatype Shadow = Shadow(e: nat, held: set<Node>, act: Activity)

  datatype State = State(d: Domain, lock: bool, now: nat, shadows: seq<Shadow>, nodes: map<Node, Place>)

  predicate Init(s: State, nthreads: nat) {
    && s.d == Domain(1, seq(nthreads, _ => Local([[], [], []], 0, true, 0)), [])
    && !s.lock && s.now == 1 && s.nodes == map[]
    && |s.shadows| == nthreads && forall t :: 0 <= t < nthreads ==> s.shadows[t] == Shadow(0, {}, Running)
  }

  predicate Shaped(s: State) {
    IsDomain(s.d) && |s.shadows| == |s.d.locals|
  }

  predicate Active(s: State, t: nat) {
    Shaped(s) && t < |s.shadows| && s.shadows[t].act.Running? && s.d.locals[t].inCritical
  }

  // ----- what a thread does between quiescent states

  predicate LinkStep(s: State, s': State, n: Node) {
    n !in s.nodes && s' == s.(nodes := s.nodes[n := Linked])
  }

  /** The acquire rule: a thread newly takes only a node that is still linked. */
  predicate AcquireStep(s: State, s': State, t: nat, n: Node) {
    && Active(s, t) && n in s.nodes && s.nodes[n].Linked?
    && s' == s.(shadows := s.shadows[t := s.shadows[t].(held := s.shadows[t].held + {n})])
  }

  predicate ReleaseStep(s: State, s': State, t: nat, n: Node) {
    && Active(s, t)
    && s' == s.(shadows := s.shadows[t := s.shadows[t].(held := s.shadows[t].held - {n})])
  }

  predicate UnlinkStep(s: State, s': State, t: nat, n: Node) {
    && Active(s, t) && n in s.nodes && s.nodes[n].Linked?
    && s' == s.(nodes := s.nodes[n := Pending(t, s.now)])
  }

  predicate RetireStep(s: State, s': State, t: nat, n: Node) {
    && Active(s, t) && n in s.nodes && s.nodes[n].Pending? && s.nodes[n].who == t
    && s' == s.(d := FreeNodeLater(s.d, t, n), nodes := s.nodes[n := Limbo(t, s.nodes[n].at, s.shadows[t].e)])
  }

  // ----- quiescent states

  /** A thread calls quiescent_state only while it holds no node. */
  predicate Quiet(s: State, t: nat) {
    Shaped(s) && t < |s.shadows| && s.shadows[t].held == {}
  }

  function FreeAll(nodes: map<Node, Place>, list: seq<Node>, now: nat): map<Node, Place> {
    map n | n in nodes :: if n in list && nodes[n].Limbo? then Freed(nodes[n].at, nodes[n].epoch, now) else nodes[n]
  }

  /** Taking over the global epoch, freeing the list that waited for its label. */
  function TakeOver(s: State, t: nat): State
    requires Shaped(s) && t < |s.shadows|
  {
    if s.d.locals[t].epoch == s.d.global then s
    else s.(d := Adopt(s.d, t),
            shadows := s.shadows[t := s.shadows[t].(e := s.now)],
            nodes := FreeAll(s.nodes, s.d.locals[t].limbo[s.d.global], s.now))
  }

  function Unlocked(s: State, t: nat): State
    requires t < |s.shadows|
  {
    s.(lock := false, shadows := s.shadows[t := s.shadows[t].(act := Running)])
  }

  /** mr_thread_exit leaves the critical section; the loop that follows is more quiescent states. */
  predicate ExitStep(s: State, s': State, t: nat) {
    && Quiet(s, t) && s.shadows[t].act.Running?
    && s' == s.(d := s.d.(locals := s.d.locals[t := s.d.locals[t].(inCritical := false)]))
  }

  // ----- the invariant

  /** Labels are true epochs modulo three; a critical thread is at most one true epoch behind. */
  predicate EpochOk(now: nat, l: Local, x: Shadow) {
    l.epoch == x.e % N_EPOCHS && x.e <= now && (l.inCritical ==> now <= x.e + 1)
  }

  predicate EpochsOk(s: State) {
    && Shaped(s) && s.d.global == s.now % N_EPOCHS
    && forall t :: 0 <= t < |s.shadows| ==> EpochOk(s.now, s.d.locals[t], s.shadows[t])
  }

  predicate NoDuplicates(q: seq<Node>) {
    forall i, j :: 0 <= i < j < |q| ==> q[i] != q[j]
  }

  predicate HandedBack(p: Place) {
    p.Freed? || p.Scanned?
  }

  /** t's list for label l holds exactly the nodes that wait there, once each. */
  ghost predicate ListOk(s: State, t: nat, l: int)
    requires Shaped(s) && t < |s.shadows| && 0 <= l < N_EPOCHS
  {
    && NoDuplicates(s.d.locals[t].limbo[l])
    && forall n :: n in s.d.locals[t].limbo[l] <==>
         n in s.nodes && s.nodes[n].Limbo? && s.nodes[n].who == t && s.nodes[n].epoch % N_EPOCHS == l
  }

  ghost predicate ListsOk(s: State)
    requires Shaped(s)
  {
    && (forall t, l :: 0 <= t < |s.shadows| && 0 <= l < N_EPOCHS ==> ListOk(s, t, l))
    && NoDuplicates(s.d.freed)
    && forall n :: n in s.d.freed <==> n in s.nodes && HandedBack(s.nodes[n])
  }

  predicate PlaceOk(s: State, p: Place)
    requires Shaped(s)
  {
    match p
    case Linked => true
    case Pending(who, at) => who < |s.shadows| && at <= s.now
    case Limbo(who, at, epoch) => who < |s.shadows| && epoch <= s.shadows[who].e && at <= epoch + 1
    case Freed(at, epoch, when) => epoch + 3 <= when <= s.now && at + 2 <= when
    case Scanned => true
  }

  predicate PlacesOk(s: State)
    requires Shaped(s)
  {
    forall n :: n in s.nodes ==> PlaceOk(s, s.nodes[n])
  }

  /** A node that a thread holds was unlinked, if at all, no earlier than the thread's epoch, and is not freed. */
  predicate HeldOk(x: Shadow, p: Place) {
    match p
    case Linked => true
    case Pending(_, at) => x.e <= at
    case Limbo(_, at, _) => x.e <= at
    case Freed(_, _, _) => false
    case Scanned => false
  }

  predicate HolderOk(s: State, t: nat, n: Node)
    requires Shaped(s) && t < |s.shadows|
  {
    n in s.shadows[t].held ==>
      s.d.locals[t].inCritical && s.shadows[t].act.Running? && n in s.nodes && HeldOk(s.shadows[t], s.nodes[n])
  }

  ghost predicate HoldersOk(s: State)
    requires Shaped(s)
  {
    forall t, n :: 0 <= t < |s.shadows| ==> HolderOk(s, t, n)
  }

  /** The thread in update_epoch has the lock, and every critical thread it has looked at has the current epoch. */
  predicate ScanOk(s: State, t: nat)
    requires Shaped(s) && t < |s.shadows|
  {
    match s.shadows[t].act
    case Running => true
    case Scanning(next, curr) =>
      && s.lock && curr == s.d.global && (s.d.locals[t].inCritical ==> s.d.locals[t].epoch == curr) && next <= |s.shadows|
      && s.shadows[t].held == {}
      && forall j :: 0 <= j < next && j != t && s.d.locals[j].inCritical ==> s.shadows[j].e == s.now
  }

  predicate ScansOk(s: State)
    requires Shaped(s)
  {
    && (forall t :: 0 <= t < |s.shadows| ==> ScanOk(s, t))
    && (forall t, u :: 0 <= t < u < |s.shadows| ==> s.shadows[t].act.Running? || s.shadows[u].act.Running?)
  }

  ghost predicate Inv(s: State) {
    EpochsOk(s) && ListsOk(s) && PlacesOk(s) && HoldersOk(s) && ScansOk(s)
  }

  lemma InitInv(s: State, nthreads: nat)
    requires Init(s, nthreads)
    ensures Inv(s)
  {
  }

  /** A list keeps its meaning when neither it nor the nodes that wait in it change. */
  lemma ListSame(s: State, s': State, t: nat, l: int)
    requires Shaped(s) && Shaped(s') && t < |s.shadows| && t < |s'.shadows| && 0 <= l < N_EPOCHS && ListOk(s, t, l)
    requires s'.d.locals[t].limbo[l] == s.d.locals[t].limbo[l]
    requires forall n :: n in s.nodes && s.nodes[n].Limbo? && s.nodes[n].who == t && s.nodes[n].epoch % N_EPOCHS == l ==>
               n in s'.nodes && s'.nodes[n] == s.nodes[n]
    requires forall n :: n in s'.nodes && s'.nodes[n].Limbo? && s'.nodes[n].who == t && s'.nodes[n].epoch % N_EPOCHS == l ==>
               n in s.nodes && s'.nodes[n] == s.nodes[n]
    ensures ListOk(s', t, l)
  {
  }

  /** Steps that touch neither the lists nor the nodes that wait in them or are freed. */
  lemma ListsSame(s: State, s': State)
    requires Shaped(s) && Shaped(s') && ListsOk(s) && |s'.shadows| == |s.shadows| && s'.d.freed == s.d.freed
    requires forall t :: 0 <= t < |s.shadows| ==> s'.d.locals[t].limbo == s.d.locals[t].limbo
    requires forall n :: n in s.nodes ==> n in s'.nodes
    requires forall n :: n in s.nodes && (s.nodes[n].Limbo? || HandedBack(s.nodes[n])) ==> s'.nodes[n] == s.nodes[n]
    requires forall n :: n in s'.nodes && (s'.nodes[n].Limbo? || HandedBack(s'.nodes[n])) ==> n in s.nodes && s'.nodes[n] == s.nodes[n]
    ensures ListsOk(s')
  {
    forall t, l | 0 <= t < |s.shadows| && 0 <= l < N_EPOCHS ensures ListOk(s', t, l) {
      assert ListOk(s, t, l);
      ListSame(s, s', t, l);
    }
  }

  /** Steps that leave the epochs, the lock and the positions as they are. */
  predicate SameEpochs(s: State, s': State)
    requires Shaped(s) && Shaped(s')
  {
    && |s'.shadows| == |s.shadows| && s'.lock == s.lock && s'.now == s.now && s'.d.global == s.d.global
    && forall t :: 0 <= t < |s.shadows| ==>
         && s'.shadows[t].e == s.shadows[t].e && s'.shadows[t].act == s.shadows[t].act
         && s'.d.locals[t].epoch == s.d.locals[t].epoch && (s'.d.locals[t].inCritical ==> s.d.locals[t].inCritical)
         && (s.shadows[t].act.Scanning? ==> s'.shadows[t].held == s.shadows[t].held)
  }

  lemma EpochsSame(s: State, s': State)
    requires Inv(s) && Shaped(s') && SameEpochs(s, s')
    ensures EpochsOk(s') && ScansOk(s')
  {
    forall t | 0 <= t < |s.shadows| ensures EpochOk(s'.now, s'.d.locals[t], s'.shadows[t]) && ScanOk(s', t) {
      assert EpochOk(s.now, s.d.locals[t], s.shadows[t]) && ScanOk(s, t);
    }
  }

  lemma PlacesSame(s: State, s': State)
    requires Shaped(s) && Shaped(s') && PlacesOk(s) && SameEpochs(s, s')
    requires forall n :: n in s'.nodes ==> (n in s.nodes && s'.nodes[n] == s.nodes[n]) || PlaceOk(s', s'.nodes[n])
    ensures PlacesOk(s')
  {
    forall n | n in s'.nodes ensures PlaceOk(s', s'.nodes[n]) {
      if n in s.nodes && s'.nodes[n] == s.nodes[n] {
        assert PlaceOk(s, s.nodes[n]);
      }
    }
  }

  lemma HoldersSame(s: State, s': State)
    requires Inv(s) && Shaped(s') && SameEpochs(s, s')
    requires forall t :: 0 <= t < |s.shadows| ==> s'.shadows[t].held <= s.shadows[t].held
    requires forall t :: 0 <= t < |s.shadows| && s.shadows[t].held != {} ==> s'.d.locals[t].inCritical == s.d.locals[t].inCritical
    requires forall n :: n in s.nodes ==> n in s'.nodes && (s'.nodes[n] == s.nodes[n] || s'.nodes[n].Pending? || s'.nodes[n].Limbo?)
    requires forall n :: n in s.nodes && s'.nodes[n].Pending? && !s.nodes[n].Pending? ==> s'.nodes[n].at == s.now
    requires forall n :: n in s.nodes && s'.nodes[n].Limbo? && !s.nodes[n].Limbo? ==> s.nodes[n].Pending? && s'.nodes[n].at == s.nodes[n].at
    requires forall n :: n in s.nodes && (s.nodes[n].Pending? || s.nodes[n].Limbo?) && s'.nodes[n] != s.nodes[n] ==> s'.nodes[n].Limbo? && !s.nodes[n].Limbo?
    ensures HoldersOk(s')
  {
    forall t, n | 0 <= t < |s.shadows| ensures HolderOk(s', t, n) {
      assert HolderOk(s, t, n) && EpochOk(s.now, s.d.locals[t], s.shadows[t]);
    }
  }

  lemma LinkInv(s: State, s': State, n: Node)
    requires Inv(s) && LinkStep(s, s', n)
    ensures Inv(s')
  {
    ListsSame(s, s');
    EpochsSame(s, s');
    PlacesSame(s, s');
    HoldersLink(s, s', n);
  }

  lemma HoldersLink(s: State, s': State, n: Node)
    requires Inv(s) && LinkStep(s, s', n)
    ensures HoldersOk(s')
  {
    forall t, k | 0 <= t < |s.shadows| ensures HolderOk(s', t, k) {
      assert HolderOk(s, t, k);
    }
  }

  lemma AcquireInv(s: State, s': State, t: nat, n: Node)
    requires Inv(s) && AcquireStep(s, s', t, n)
    ensures Inv(s')
  {
    ListsSame(s, s');
    EpochsSame(s, s');
    PlacesSame(s, s');
    forall u, k | 0 <= u < |s.shadows| ensures HolderOk(s', u, k) {
      assert HolderOk(s, u, k);
    }
  }

  lemma ReleaseInv(s: State, s': State, t: nat, n: Node)
    requires Inv(s) && ReleaseStep(s, s', t, n)
    ensures Inv(s')
  {
    ListsSame(s, s');
    EpochsSame(s, s');
    PlacesSame(s, s');
    HoldersSame(s, s');
  }

  /** Whoever holds the node now cannot have an epoch later than the present one. */
  lemma UnlinkInv(s: State, s': State, t: nat, n: Node)
    requires Inv(s) && UnlinkStep(s, s', t, n)
    ensures Inv(s')
  {
    ListsSame(s, s');
    EpochsSame(s, s');
    PlacesSame(s, s');
    HoldersSame(s, s');
  }

  lemma ExitInv(s: State, s': State, t: nat)
    requires Inv(s) && ExitStep(s, s', t)
    ensures Inv(s')
  {
    ListsSame(s, s');
    EpochsSame(s, s');
    PlacesSame(s, s');
    HoldersSame(s, s');
  }

  lemma RetireLists(s: State, s': State, t: nat, n: Node)
    requires Inv(s) && RetireStep(s, s', t, n) && Shaped(s')
    ensures ListsOk(s')
  {
    var l0 := s.d.locals[t].epoch;
    forall u, l | 0 <= u < |s.shadows| && 0 <= l < N_EPOCHS ensures ListOk(s', u, l) {
      assert ListOk(s, u, l);
      if u == t && l == l0 {
        assert s'.d.locals[u].limbo[l] == [n] + s.d.locals[u].limbo[l];
        assert n !in s.d.locals[u].limbo[l];
      } else {
        ListSame(s, s', u, l);
      }
    }
  }

  lemma RetireInv(s: State, s': State, t: nat, n: Node)
    requires Inv(s) && RetireStep(s, s', t, n)
    ensures Inv(s')
  {
    FreeNodeLaterConserves(s.d, t, n);
    RetireLists(s, s', t, n);
    hide ListsOk;
    assert PlaceOk(s, s.nodes[n]) && EpochOk(s.now, s.d.locals[t], s.shadows[t]);
    EpochsSame(s, s');
    PlacesSame(s, s');
    HoldersSame(s, s');
  }

  /** Why three labels are enough: what waits under the label of a new epoch was retired three epochs ago. */
  lemma LabelMeansThreeEpochs(epoch: nat, e: nat, now: nat)
    requires epoch <= e < now && epoch % N_EPOCHS == now % N_EPOCHS
    ensures epoch + 3 <= now
  {
  }

  /** The heart of the grace period: every node waiting in the list that is about to be freed was retired
      three true epochs ago and unlinked two, and no thread holds it. */
  lemma GracePeriod(s: State, t: nat, n: Node)
    requires Inv(s) && Quiet(s, t) && s.d.locals[t].epoch != s.d.global && n in s.d.locals[t].limbo[s.d.global]
    ensures n in s.nodes && s.nodes[n].Limbo? && s.nodes[n].epoch + 3 <= s.now && s.nodes[n].at + 2 <= s.now
    ensures forall u :: 0 <= u < |s.shadows| && s.d.locals[u].inCritical ==> s.shadows[u].e > s.nodes[n].at
    ensures forall u :: 0 <= u < |s.shadows| ==> n !in s.shadows[u].held
  {
    assert ListOk(s, t, s.d.global);
    var p := s.nodes[n];
    assert PlaceOk(s, p);
    LabelMeansThreeEpochs(p.epoch, s.shadows[t].e, s.now);
    forall u | 0 <= u < |s.shadows|
      ensures n !in s.shadows[u].held && (s.d.locals[u].inCritical ==> s.shadows[u].e > p.at)
    {
      assert HolderOk(s, u, n) && EpochOk(s.now, s.d.locals[u], s.shadows[u]);
    }
  }

  lemma FreedOnce(s: State, t: nat)
    requires Inv(s) && Quiet(s, t)
    ensures NoDuplicates(s.d.freed + s.d.locals[t].limbo[s.d.global])
  {
    var q := s.d.locals[t].limbo[s.d.global];
    assert ListOk(s, t, s.d.global);
    forall i, j | 0 <= i < |s.d.freed| && 0 <= j < |q| ensures s.d.freed[i] != q[j] {
      assert s.d.freed[i] in s.d.freed && q[j] in q;
    }
  }

  lemma TakeOverLists(s: State, t: nat)
    requires Inv(s) && Quiet(s, t) && s.d.locals[t].epoch != s.d.global && Shaped(TakeOver(s, t))
    ensures ListsOk(TakeOver(s, t))
  {
    var s' := TakeOver(s, t);
    var q := s.d.locals[t].limbo[s.d.global];
    FreedOnce(s, t);
    assert ListOk(s, t, s.d.global);
    assert s'.d.freed == s.d.freed + q;
    forall u, l | 0 <= u < |s.shadows| && 0 <= l < N_EPOCHS ensures ListOk(s', u, l) {
      assert ListOk(s, u, l);
      if u == t && l == s.d.global {
        assert s'.d.locals[u].limbo[l] == [];
      } else {
        ListSame(s, s', u, l);
      }
    }
  }

  lemma TakeOverInv(s: State, t: nat)
    requires Inv(s) && Quiet(s, t) && s.shadows[t].act.Running?
    ensures Inv(TakeOver(s, t))
  {
    if s.d.locals[t].epoch != s.d.global {
      var s' := TakeOver(s, t);
      AdoptConserves(s.d, t);
      TakeOverLists(s, t);
      forall n | n in s.d.locals[t].limbo[s.d.global]
        ensures n in s.nodes && s.nodes[n].Limbo? && s.nodes[n].epoch + 3 <= s.now && s.nodes[n].at + 2 <= s.now
        ensures forall u :: 0 <= u < |s.shadows| ==> n !in s.shadows[u].held
      {
        GracePeriod(s, t, n);
      }
      hide ListsOk;
      forall u | 0 <= u < |s.shadows| ensures EpochOk(s'.now, s'.d.locals[u], s'.shadows[u]) && ScanOk(s', u) {
        assert EpochOk(s.now, s.d.locals[u], s.shadows[u]) && ScanOk(s, u);
      }
      forall n | n in s'.nodes ensures PlaceOk(s', s'.nodes[n]) {
        assert PlaceOk(s, s.nodes[n]) && EpochOk(s.now, s.d.locals[t], s.shadows[t]);
      }
      forall u, n | 0 <= u < |s.shadows| ensures HolderOk(s', u, n) {
        assert HolderOk(s, u, n);
      }
    }
  }

  /** Steps that change only one thread's position and the lock. */
  lemma PositionInv(s: State, s': State, t: nat, act: Activity)
    requires Inv(s) && t < |s.shadows| && s'.d == s.d && s'.nodes == s.nodes && s'.now == s.now
    requires s'.shadows == s.shadows[t := s.shadows[t].(act := act)] && s.shadows[t].held == {}
    requires ListsOk(s') && ScanOk(s', t)
    requires if s.shadows[t].act.Running? then !s.lock && s'.lock else s'.lock == act.Scanning?
    ensures Inv(s')
  {
    forall u | 0 <= u < |s.shadows| ensures EpochOk(s'.now, s'.d.locals[u], s'.shadows[u]) && ScanOk(s', u) {
      assert EpochOk(s.now, s.d.locals[u], s.shadows[u]) && ScanOk(s, u);
    }
    forall u, w | 0 <= u < w < |s.shadows| ensures s'.shadows[u].act.Running? || s'.shadows[w].act.Running? {
      assert ScanOk(s, u) && ScanOk(s, w);
    }
    forall n | n in s'.nodes ensures PlaceOk(s', s'.nodes[n]) {
      assert PlaceOk(s, s.nodes[n]);
    }
    forall u, n | 0 <= u < |s.shadows| ensures HolderOk(s', u, n) {
      assert HolderOk(s, u, n);
    }
  }

  lemma AdvanceEpochs(s: State, t: nat)
    requires Inv(s) && t < |s.shadows| && s.shadows[t].act.Scanning? && s.shadows[t].act.next == |s.shadows|
    ensures var s' := Unlocked(s, t).(d := Advance(s.d), now := s.now + 1);
            Shaped(s') && EpochsOk(s') && ScansOk(s')
  {
    var s' := Unlocked(s, t).(d := Advance(s.d), now := s.now + 1);
    assert ScanOk(s, t);
    hide ListsOk, PlacesOk, HoldersOk;
    forall u | 0 <= u < |s.shadows| ensures EpochOk(s'.now, s'.d.locals[u], s'.shadows[u]) && ScanOk(s', u) {
      assert EpochOk(s.now, s.d.locals[u], s.shadows[u]);
    }
  }

  /** When the walk is over, every other critical thread has the current epoch, so the epoch may advance. */
  lemma AdvanceInv(s: State, t: nat)
    requires Inv(s) && t < |s.shadows| && s.shadows[t].act.Scanning? && s.shadows[t].act.next == |s.shadows|
    ensures Inv(Unlocked(s, t).(d := Advance(s.d), now := s.now + 1))
  {
    var s' := Unlocked(s, t).(d := Advance(s.d), now := s.now + 1);
    assert ScanOk(s, t);
    AdvanceEpochs(s, t);
    ListsSame(s, s');
    hide ListsOk, EpochsOk, ScansOk;
    forall n | n in s'.nodes ensures PlaceOk(s', s'.nodes[n]) {
      assert PlaceOk(s, s.nodes[n]);
    }
    forall u, n | 0 <= u < |s.shadows| ensures HolderOk(s', u, n) {
      assert HolderOk(s, u, n);
    }
  }

  /** A label equal to the global one means the current true epoch, for a critical thread. */
  lemma CaughtUp(s: State, t: nat, i: nat)
    requires Inv(s) && t < |s.shadows| && i < |s.shadows|
    ensures !Lags(s.d, t, i, s.d.global) && i != t && s.d.locals[i].inCritical ==> s.shadows[i].e == s.now
  {
    assert EpochOk(s.now, s.d.locals[i], s.shadows[i]);
  }
}
