/** Why writes become visible in time (src/sleeper_threads.c): a sleeper thread on every core wakes up periodically,
    and the context switch empties the core's store buffer. With these wake-ups as steps, and nothing else said of how
    long a write may stay in its buffer, the fence-free scheme is safe.
 */
module Wakeups {
  import opened Addresses
  import opened Options
  import opened StoreBuffers
  import F = FenceFree

  /** woken[c] is when the sleeper thread of core c last woke up; worker t runs on core t. */
  datatype State = State(s: F.State, woken: seq<int>)

  predicate Init(a: State) {
    && F.Init(a.s) && Slots(a.s.w) == K * |a.woken|
    && forall c :: 0 <= c < |a.woken| ==> a.woken[c] == a.s.w.now
  }

  /** The sleeper thread of core c runs: the core's pending writes have been flushed, one step each. */
  predicate WakeStep(a: State, b: State, c: nat) {
    && c < |a.woken| && Shaped(a.s.w) && (forall i :: 0 <= i < Slots(a.s.w) && i / K == c ==> a.s.w.buffer[i] == [])
    && b == a.(woken := a.woken[c := a.s.w.now])
  }

  /** Time passes, however old the pending writes are, but no core sleeps longer than period. */
  predicate TimeStep(a: State, b: State, period: int) {
    && a.s.w.now <= b.s.w.now && b == a.(s := a.s.(w := a.s.w.(now := b.s.w.now)))
    && forall c :: 0 <= c < |a.woken| ==> b.s.w.now <= a.woken[c] + period
  }

  /** Any step of a thread or of a slot that takes no time. */
  ghost predicate WorkStep(a: State, b: State, d: int) {
    && b.woken == a.woken && b.s.w.now == a.s.w.now
    && (|| (exists i, value :: PublishStep(a.s.w, b.s.w, i, value) && b.s == a.s.(w := b.s.w))
        || (exists i :: FlushStep(a.s.w, b.s.w, i) && b.s == a.s.(w := b.s.w))
        || (exists i, n :: HoldStep(a.s.w, b.s.w, i, n) && b.s == a.s.(w := b.s.w))
        || (exists i :: DropStep(a.s.w, b.s.w, i) && b.s == a.s.(w := b.s.w))
        || (exists n :: UnlinkStep(a.s.w, b.s.w, n) && b.s == a.s.(w := b.s.w))
        || (exists t, n :: F.RetireStep(a.s, b.s, t, n))
        || (exists t :: F.BeginStep(a.s, b.s, t) || F.ReadStep(a.s, b.s, t) || F.JudgeStep(a.s, b.s, t, d)
                        || F.EndStep(a.s, b.s, t)))
  }

  ghost predicate Next(a: State, b: State, period: int, d: int) {
    WorkStep(a, b, d) || TimeStep(a, b, period) || exists c :: WakeStep(a, b, c)
  }

  ghost predicate Run(run: seq<State>, period: int, d: int) {
    run != [] && Init(run[0]) && forall i :: 0 <= i < |run| - 1 ==> Next(run[i], run[i + 1], period, d)
  }

  /** No pending write is older than its core's last wake-up, and no core has slept too long. */
  predicate Awake(a: State, period: int) {
    && period >= 0 && SinceWakeup(a.s.w, a.woken)
    && forall c :: 0 <= c < |a.woken| ==> a.woken[c] <= a.s.w.now <= a.woken[c] + period
  }

  lemma InitAwake(a: State, period: int)
    requires Init(a) && period >= 0
    ensures Awake(a, period)
  {
    forall i | 0 <= i < Slots(a.s.w) ensures SlotSinceWakeup(a.s.w, a.woken, i) {
    }
  }

  /** A step that takes no time is one of the fence-free scheme, whatever v is. */
  lemma WorkIsNext(a: State, b: State, period: int, d: int)
    requires WorkStep(a, b, d)
    ensures F.Next(a.s, b.s, period, d) && (b.s.w == a.s.w || WorldStep(a.s.w, b.s.w, period))
  {
    hide PublishStep, FlushStep, HoldStep, DropStep, UnlinkStep;
  }

  /** Every step is a step of the fence-free scheme with v = period. */
  lemma NextAwake(a: State, b: State, period: int, d: int)
    requires Awake(a, period) && Next(a, b, period, d)
    ensures Awake(b, period) && F.Next(a.s, b.s, period, d)
  {
    if WorkStep(a, b, d) {
      WorkIsNext(a, b, period, d);
      hide WorkStep, F.Next;
      if b.s.w != a.s.w {
        SinceWakeupKept(a.s.w, b.s.w, a.woken, period);
      }
    } else if TimeStep(a, b, period) {
      WakeupsBoundDelay(a.s.w, b.s.w, a.woken, period);
      SinceWakeupKept(a.s.w, b.s.w, a.woken, period);
    } else {
      var c: nat :| WakeStep(a, b, c);
      WokenUp(a.s.w, a.woken, c);
      WakeupsBoundDelay(a.s.w, b.s.w, a.woken, period);
    }
  }

  lemma {:induction false} RunAwake(run: seq<State>, period: int, d: int, i: nat)
    requires Run(run, period, d) && period >= 0 && i < |run|
    ensures Awake(run[i], period) && (i > 0 ==> F.Next(run[i - 1].s, run[i].s, period, d))
  {
    if i == 0 {
      InitAwake(run[0], period);
    } else {
      RunAwake(run, period, d, i - 1);
      assert Next(run[i - 1], run[i - 1 + 1], period, d);
      hide Run, Next, Awake, F.Next;
      NextAwake(run[i - 1], run[i], period, d);
    }
  }

  /** The run without the wake-ups */
  ghost function Scheme(run: seq<State>): (r: seq<F.State>)
    ensures |r| == |run| && forall i :: 0 <= i < |run| ==> r[i] == run[i].s
  {
    seq(|run|, i requires 0 <= i < |run| => run[i].s)
  }

  /** If every core is woken up at least every period, a run is a run of the fence-free scheme with v = period. */
  lemma WakeupsSuffice(run: seq<State>, period: int, d: int)
    requires Run(run, period, d) && period >= 0
    ensures F.Run(Scheme(run), period, d)
  {
    var r := Scheme(run);
    forall i | 0 <= i < |r| - 1 ensures F.Next(r[i], r[i + 1], period, d) {
      RunAwake(run, period, d, i + 1);
    }
  }

  /** With sleepers that wake up every period, and period + d + 1 ms <= SLEEP_AMOUNT + MARGIN, no freed node is held. */
  lemma NoFreedNodeHeld(run: seq<State>, period: int, d: int, k: nat, i: nat, n: Node)
    requires Run(run, period, d) && Timely(period, d) && k < |run| && i < |run[k].s.w.holds| && n in run[k].s.freed
    ensures run[k].s.w.holds[i] != Some(n)
  {
    WakeupsSuffice(run, period, d);
    hide Run, F.Run;
    F.NoFreedNodeHeld(Scheme(run), period, d, k, i, n);
  }
}
