/** From the history recorded in a state back to the moments of the run that led there.

    Both trees prove their results about the recorded history. These lemmas turn "some entry of
    the history since the call began" into "some state of the run during the call".
 */
module HistoryRuns {
  import opened Options
  import opened ExternalTree
  import opened TreeHistory

  /** The history at each state of a run. */
  type Trace = seq<History>

  /** One step adds at most one tree. */
  ghost predicate Appends(h: History, h': History) {
    h != [] && h' != [] && (h' == h || exists u :: h' == h + [u])
  }

  ghost predicate IsTrace(tr: Trace) {
    forall j :: 0 < j < |tr| ==> Appends(tr[j - 1], tr[j])
  }

  /** At state i of the run the map gave this answer for k. */
  ghost predicate AnswerAt(tr: Trace, i: int, k: int, answer: Option<int>) {
    0 <= i < |tr| && tr[i] != [] && Lookup(Contents(Last(tr[i])), k) == answer
  }

  /** The step into state i turned the map from before into after. */
  ghost predicate ChangedAt(tr: Trace, i: int, before: map<int, int>, after: map<int, int>) {
    && 0 < i < |tr| && tr[i - 1] != [] && tr[i] != []
    && before == Contents(Last(tr[i - 1])) && after == Contents(Last(tr[i]))
  }

  ghost predicate WroteEntry(tr: Trace, i: int, x: nat) {
    0 < i < |tr| && |tr[i - 1]| == x && |tr[i]| == x + 1 && tr[i][..x] == tr[i - 1]
  }

  /** Entry x was written by one step between states b and j. */
  lemma {:induction false} HistoryIsTheRun(tr: Trace, b: nat, j: nat, x: nat)
    requires IsTrace(tr) && b <= j < |tr| && |tr[b]| <= x < |tr[j]|
    ensures exists i :: b < i <= j && WroteEntry(tr, i, x) && tr[i] == tr[j][..x + 1]
    decreases j
  {
    assert Appends(tr[j - 1], tr[j]);
    var h, h' := tr[j - 1], tr[j];
    if x < |h| {
      HistoryIsTheRun(tr, b, j - 1, x);
      var i :| b < i <= j - 1 && WroteEntry(tr, i, x) && tr[i] == h[..x + 1];
      assert h[..x + 1] == h'[..x + 1];
    } else {
      assert WroteEntry(tr, j, x) && h' == h'[..x + 1];
    }
  }

  lemma {:induction false} HistoryPrefix(tr: Trace, b: nat, j: nat)
    requires IsTrace(tr) && b <= j < |tr|
    ensures |tr[b]| <= |tr[j]| && tr[j][..|tr[b]|] == tr[b]
    decreases j
  {
    if b < j {
      HistoryPrefix(tr, b, j - 1);
      assert Appends(tr[j - 1], tr[j]);
    }
  }

  /** Entry x of the history was the tree in some state from b to e. */
  lemma MomentOfEntry(tr: Trace, b: nat, e: nat, x: nat) returns (i: nat)
    requires IsTrace(tr) && b <= e < |tr| && 0 < |tr[b]| <= x + 1 && x < |tr[e]|
    ensures b <= i <= e && tr[i] != [] && Last(tr[i]) == tr[e][x]
  {
    if |tr[b]| <= x {
      HistoryIsTheRun(tr, b, e, x);
      i :| b < i <= e && WroteEntry(tr, i, x) && tr[i] == tr[e][..x + 1];
    } else {
      HistoryPrefix(tr, b, e);
      i := b;
    }
  }

  /** An answer that held at some entry since the call began in state b held in some state of the call. */
  lemma AnswerMoment(tr: Trace, b: nat, e: nat, k: int, answer: Option<int>) returns (i: nat)
    requires IsTrace(tr) && b <= e < |tr| && 0 < |tr[b]| && AnswerHeld(tr[e], |tr[b]| - 1, k, answer)
    ensures b <= i <= e && AnswerAt(tr, i, k, answer)
  {
    var x :| |tr[b]| - 1 <= x < |tr[e]| && Lookup(Contents(tr[e][x]), k) == answer;
    i := MomentOfEntry(tr, b, e, x);
  }

  /** A change between two entries since the call began is the change of one step of the call. */
  lemma ChangeMoment(tr: Trace, b: nat, e: nat, x: int) returns (i: nat)
    requires IsTrace(tr) && b <= e < |tr| && 0 < |tr[b]| <= x < |tr[e]|
    ensures b < i <= e && WroteEntry(tr, i, x) && ChangedAt(tr, i, Contents(tr[e][x - 1]), Contents(tr[e][x]))
  {
    HistoryIsTheRun(tr, b, e, x);
    i :| b < i <= e && WroteEntry(tr, i, x) && tr[i] == tr[e][..x + 1];
    assert Appends(tr[i - 1], tr[i]);
    assert tr[i - 1] == tr[e][..x];
  }

  // ----- runs, as far as histories and calls go

  /** A call in progress: what it is to do, with which key, and the last entry of the history when it began. */
  datatype Running<O> = Running(op: O, k: int, since: nat)

  /** What a state shows: the history, who made each entry, and each thread's call, if it is in one. */
  datatype Moment<O, A> = Moment(hist: History, author: seq<A>, calls: seq<Option<Running<O>>>)

  /** A call in progress stays the same call, and one that begins does so now. */
  ghost predicate CallFollows<O>(c: Option<Running<O>>, c': Option<Running<O>>, h: History, h': History) {
    c'.Some? ==> if c.Some? then c' == c else c'.value.since == |h| - 1 && h' == h
  }

  /** One step adds at most one entry. */
  ghost predicate Follows<O, A>(m: Moment<O, A>, m': Moment<O, A>) {
    && Appends(m.hist, m'.hist) && m.author <= m'.author && |m'.calls| == |m.calls|
    && forall t :: 0 <= t < |m.calls| ==> CallFollows(m.calls[t], m'.calls[t], m.hist, m'.hist)
  }

  ghost predicate HistoryRun<O, A>(ms: seq<Moment<O, A>>) {
    forall j :: 0 < j < |ms| ==> Follows(ms[j - 1], ms[j])
  }

  /** Thread t's call began with the step into state b and has not ended in state e. */
  ghost predicate InCall<O, A>(ms: seq<Moment<O, A>>, b: nat, e: nat, t: nat) {
    && 0 < b <= e < |ms| && t < |ms[b - 1].calls| && ms[b - 1].calls[t].None?
    && forall i :: b <= i <= e ==> t < |ms[i].calls| && ms[i].calls[t].Some?
  }

  lemma {:induction false} CallFrozen<O, A>(ms: seq<Moment<O, A>>, b: nat, e: nat, t: nat)
    requires HistoryRun(ms) && InCall(ms, b, e, t)
    ensures ms[e].calls[t] == ms[b].calls[t] && ms[b].hist != [] && ms[b].calls[t].value.since == |ms[b].hist| - 1
  {
    if b < e {
      CallFrozen(ms, b, e - 1, t);
      assert Follows(ms[e - 1], ms[e]) && CallFollows(ms[e - 1].calls[t], ms[e].calls[t], ms[e - 1].hist, ms[e].hist);
    } else {
      assert Follows(ms[b - 1], ms[b]) && CallFollows(ms[b - 1].calls[t], ms[b].calls[t], ms[b - 1].hist, ms[b].hist);
    }
  }

  /** The history at each state of the run. */
  function TraceOf<O, A>(ms: seq<Moment<O, A>>): (tr: Trace)
    ensures |tr| == |ms| && forall i :: 0 <= i < |ms| ==> tr[i] == ms[i].hist
  {
    seq(|ms|, i requires 0 <= i < |ms| => ms[i].hist)
  }

  lemma TraceLinked<O, A>(ms: seq<Moment<O, A>>)
    requires HistoryRun(ms)
    ensures IsTrace(TraceOf(ms))
  {
    var tr := TraceOf(ms);
    forall j | 0 < j < |tr| ensures Appends(tr[j - 1], tr[j]) {
      assert Follows(ms[j - 1], ms[j]);
    }
  }

  lemma {:induction false} AuthorsStay<O, A>(ms: seq<Moment<O, A>>, i: nat, j: nat)
    requires HistoryRun(ms) && i <= j < |ms|
    ensures ms[i].author <= ms[j].author
    decreases j
  {
    if i < j {
      AuthorsStay(ms, i, j - 1);
      assert Follows(ms[j - 1], ms[j]);
    }
  }

  /** A thread's calls do not overlap. */
  lemma CallsApart<O, A>(ms: seq<Moment<O, A>>, b: nat, e: nat, t: nat, c: nat, f: nat)
    requires HistoryRun(ms) && InCall(ms, b, e, t) && InCall(ms, c, f, t) && b < c
    ensures e < c && |ms[e].hist| <= |ms[c].hist|
  {
    assert ms[c - 1].calls[t].None?;
    TraceLinked(ms);
    hide HistoryRun, IsTrace;
    HistoryPrefix(TraceOf(ms), e, c);
  }
}
