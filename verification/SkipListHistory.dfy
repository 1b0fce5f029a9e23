/** The sequential history of a run: its calls in the order of the instants that justify them, replayed one after the
    other on a set, give the answers that the threads got. */
module SkipListHistory {
  import opened SkipListMachine
  import opened SkipListInvariant
  import opened SkipListPreservation
  import opened SkipListTheorems
  import opened SkipListLinearizability
  import opened SkipListCalls

  /** A call: who made it and when it began, what it asked and what it was told, and the instant that justifies it. */
  datatype Event = Event(thread: int, start: int, op: Op, key: int, answer: bool, at: nat)

  // ----- a set, sequentially -----

  function Answered(op: Op, key: int, s: set<int>): bool {
    if op == Insert then key !in s else key in s
  }

  function Changed(op: Op, key: int, s: set<int>): set<int> {
    match op
    case Contains => s
    case Insert => s + {key}
    case Remove => s - {key}
  }

  /** The set after the calls of the history, from the empty set. */
  function Replay(h: seq<Event>): set<int> {
    if h == [] then {} else Changed(h[|h| - 1].op, h[|h| - 1].key, Replay(h[..|h| - 1]))
  }

  /** Every call gets the answer that the set gives at its turn. */
  predicate Legal(h: seq<Event>) {
    h == []
    || (Legal(h[..|h| - 1]) && h[|h| - 1].answer == Answered(h[|h| - 1].op, h[|h| - 1].key, Replay(h[..|h| - 1])))
  }

  lemma LegalAppend(h: seq<Event>, e: Event)
    requires Legal(h) && e.answer == Answered(e.op, e.key, Replay(h))
    ensures Legal(h + [e]) && Replay(h + [e]) == Changed(e.op, e.key, Replay(h))
  {
    assert (h + [e])[..|h + [e]| - 1] == h;
  }

  // ----- the calls of a run -----

  /** Step r is the return of a call of thread t. */
  ghost predicate Returns(run: seq<State>, r: nat, t: int) {
    && 0 < r < |run| && 0 <= t < |run[r].threads| && t < |run[r - 1].threads|
    && run[r - 1].threads[t].pc == DONE && run[r].threads[t].pc == IDLE
  }

  ghost function Returning(run: seq<State>, r: nat, t: int): Thread
    requires Returns(run, r, t)
  {
    run[r - 1].threads[t]
  }

  /** The call that returns at step r changed nothing. */
  ghost predicate ReadOnly(th: Thread) {
    th.op == Contains || !th.ret
  }

  /** The call that returns at step r is the one exception: contains answered 0 off the mark of a node that was complete
      when the call began and is still linked. */
  ghost predicate Wrong(run: seq<State>, r: nat, t: int)
    requires Run(run) && Returns(run, r, t)
  {
    AnswerIsJustified(run, r - 1, t);
    var th := Returning(run, r, t);
    th.op == Contains && !th.ret && WrongZero(run, t, th.find.start, r - 1)
  }

  ghost predicate Reads(run: seq<State>, r: nat, t: int)
    requires Run(run)
  {
    Returns(run, r, t) && ReadOnly(Returning(run, r, t)) && !Wrong(run, r, t)
  }

  /** The set of instant j gives the call its answer. */
  ghost predicate AnsweredAt(run: seq<State>, th: Thread, j: nat) {
    j < |run| && Answered(th.op, th.find.key, Abs(run[j].heap)) == th.ret
  }

  lemma ReadHasInstant(run: seq<State>, r: nat, t: int)
    requires Run(run) && Reads(run, r, t)
    ensures exists j :: 0 < Returning(run, r, t).find.start <= j < r && AnsweredAt(run, Returning(run, r, t), j)
  {
    var th := Returning(run, r, t);
    AnswerIsJustified(run, r - 1, t);
    var present := if th.op == Contains then th.ret else th.op == Insert;
    assert SomeInstant(run, th.find.start, r - 1, th.find.key, present);
    var j :| 0 <= th.find.start <= j <= r - 1 < |run| && (th.find.key in Abs(run[j].heap)) == present;
    assert AnsweredAt(run, th, j);
  }

  /** The instant at which a call that changed nothing is placed. */
  ghost function Point(run: seq<State>, r: nat, t: int): (j: nat)
    requires Run(run) && Reads(run, r, t)
    ensures 0 < Returning(run, r, t).find.start <= j < r && AnsweredAt(run, Returning(run, r, t), j)
  {
    ReadHasInstant(run, r, t);
    var j :| 0 < Returning(run, r, t).find.start <= j < r && AnsweredAt(run, Returning(run, r, t), j);
    j
  }

  ghost function ReadEvent(run: seq<State>, r: nat, t: int): Event
    requires Run(run) && Reads(run, r, t)
  {
    var th := Returning(run, r, t);
    Event(t, th.find.start, th.op, th.find.key, th.ret, Point(run, r, t))
  }

  /** Step k is the one at which a call of thread t changes the set. */
  ghost predicate Effect(run: seq<State>, k: nat, t: int) {
    && 0 < k < |run| && 0 <= t < |run[k].threads| && t < |run[k - 1].threads|
    && run[k].threads[t].pc != IDLE && TakesEffect(run, t, k)
    && run[k - 1].threads[t].did == 0 && run[k].threads[t].did == 1
  }

  ghost function EffectEvent(run: seq<State>, k: nat, t: int): Event
    requires Effect(run, k, t)
  {
    var th := run[k].threads[t];
    Event(t, th.find.start, th.op, th.find.key, true, k)
  }

  /** An event is the change that a call makes, or a call that changed nothing, at its point. */
  ghost predicate EventOk(run: seq<State>, e: Event)
    requires Run(run)
  {
    || (Effect(run, e.at, e.thread) && e == EffectEvent(run, e.at, e.thread))
    || (exists r: nat :: Reads(run, r, e.thread) && e == ReadEvent(run, r, e.thread))
  }

  // ----- one event per call -----

  lemma EffectsDiffer(run: seq<State>, a: nat, b: nat, t: int)
    requires Run(run) && Effect(run, a, t) && Effect(run, b, t) && a < b
    ensures run[a].threads[t].find.start != run[b].threads[t].find.start
  {
    CallHistory(run, b, t);
    CallHistory(run, a, t);
  }

  lemma ReturnsDiffer(run: seq<State>, q: nat, r: nat, t: int)
    requires Run(run) && Returns(run, q, t) && Returns(run, r, t) && q < r
    ensures Returning(run, q, t).find.start != Returning(run, r, t).find.start
  {
    CallHistory(run, q - 1, t);
    CallHistory(run, r - 1, t);
  }

  lemma EffectIsNoRead(run: seq<State>, a: nat, r: nat, t: int)
    requires Run(run) && Effect(run, a, t) && Reads(run, r, t)
    ensures run[a].threads[t].find.start != Returning(run, r, t).find.start
  {
    CallHistory(run, a, t);
    AnswerIsJustified(run, r - 1, t);
  }

  /** Events of the same call are the same. */
  lemma OneEventPerCall(run: seq<State>, d: Event, e: Event)
    requires Run(run) && EventOk(run, d) && EventOk(run, e) && d.thread == e.thread && d.start == e.start
    ensures d == e
  {
    var t := d.thread;
    if Effect(run, d.at, t) && d == EffectEvent(run, d.at, t) {
      if Effect(run, e.at, t) && e == EffectEvent(run, e.at, t) {
        if d.at < e.at { EffectsDiffer(run, d.at, e.at, t); }
        if e.at < d.at { EffectsDiffer(run, e.at, d.at, t); }
      } else {
        var r: nat :| Reads(run, r, t) && e == ReadEvent(run, r, t);
        EffectIsNoRead(run, d.at, r, t);
      }
    } else {
      var q: nat :| Reads(run, q, t) && d == ReadEvent(run, q, t);
      if Effect(run, e.at, t) && e == EffectEvent(run, e.at, t) {
        EffectIsNoRead(run, e.at, q, t);
      } else {
        var r: nat :| Reads(run, r, t) && e == ReadEvent(run, r, t);
        if q < r { ReturnsDiffer(run, q, r, t); }
        if r < q { ReturnsDiffer(run, r, q, t); }
      }
    }
  }

  // ----- building the history -----

  ghost predicate Ordered(h: seq<Event>, last: nat) {
    && (forall x, y :: 0 <= x < y < |h| ==> h[x].at <= h[y].at)
    && (forall x :: 0 <= x < |h| ==> h[x].at <= last)
  }

  ghost predicate NoRepeats(h: seq<Event>) {
    forall x, y :: 0 <= x < y < |h| ==> h[x] != h[y]
  }

  ghost predicate AllOk(run: seq<State>, h: seq<Event>)
    requires Run(run)
  {
    forall x :: 0 <= x < |h| ==> EventOk(run, h[x])
  }

  /** Every change up to step k is in the history. */
  ghost predicate HasEffects(run: seq<State>, h: seq<Event>, k: nat) {
    forall a: nat, t :: a <= k && Effect(run, a, t) ==> EffectEvent(run, a, t) in h
  }

  /** Every call that changed nothing and has its point before instant k, or at k and returns before step m, is too. */
  ghost predicate HasReads(run: seq<State>, h: seq<Event>, k: nat, m: nat)
    requires Run(run)
  {
    forall r: nat, t :: Reads(run, r, t) && (Point(run, r, t) < k || (Point(run, r, t) == k && r < m)) ==>
      ReadEvent(run, r, t) in h
  }

  ghost predicate Built(run: seq<State>, h: seq<Event>, k: nat)
    requires Run(run) && k < |run|
  {
    && Legal(h) && Replay(h) == Abs(run[k].heap)
    && Ordered(h, k) && NoRepeats(h) && AllOk(run, h) && HasEffects(run, h, k)
  }

  lemma Extend(run: seq<State>, h: seq<Event>, k: nat, e: Event)
    requires Run(run) && k < |run| && Legal(h) && Ordered(h, k) && NoRepeats(h) && AllOk(run, h)
    requires EventOk(run, e) && e.at == k && e !in h && e.answer == Answered(e.op, e.key, Replay(h))
    ensures Legal(h + [e]) && Replay(h + [e]) == Changed(e.op, e.key, Replay(h))
    ensures Ordered(h + [e], k) && NoRepeats(h + [e]) && AllOk(run, h + [e])
  {
    LegalAppend(h, e);
  }

  /** Only the thread that moves returns or changes the set. */
  lemma OneReturner(run: seq<State>, r: nat, t: int, u: int)
    requires Run(run) && Returns(run, r, t) && Returns(run, r, u)
    ensures t == u
  {
    var v, a := StepTaken(run, r);
  }

  lemma ReadEventLegal(run: seq<State>, r: nat, t: int)
    requires Run(run) && Reads(run, r, t)
    ensures var e := ReadEvent(run, r, t);
      && EventOk(run, e) && e.at == Point(run, r, t) < |run|
      && e.answer == Answered(e.op, e.key, Abs(run[e.at].heap))
      && Changed(e.op, e.key, Abs(run[e.at].heap)) == Abs(run[e.at].heap)
  {
    var e := ReadEvent(run, r, t);
    var s := Abs(run[e.at].heap);
    assert AnsweredAt(run, Returning(run, r, t), e.at);
    if e.op == Insert {
      assert s + {e.key} == s;
    }
  }

  /** The reads of instant k, call by call. */
  lemma {:induction false} AddReads(run: seq<State>, h: seq<Event>, k: nat, m: nat) returns (h': seq<Event>)
    requires Run(run) && k < |run| && m <= |run| && Built(run, h, k) && HasReads(run, h, k, 0)
    ensures Built(run, h', k) && HasReads(run, h', k, m)
    decreases m
  {
    h' := h;
    if m > 0 {
      h' := AddReads(run, h, k, m - 1);
      h' := AddRead(run, h', k, m - 1);
    }
  }

  lemma AddRead(run: seq<State>, h: seq<Event>, k: nat, r: nat) returns (h': seq<Event>)
    requires Run(run) && k < |run| && Built(run, h, k) && HasReads(run, h, k, r)
    ensures Built(run, h', k) && HasReads(run, h', k, r + 1)
  {
    h' := h;
    if t :| Reads(run, r, t) && Point(run, r, t) == k {
      var e := ReadEvent(run, r, t);
      ReadEventLegal(run, r, t);
      if e !in h {
        Extend(run, h, k, e);
        h' := h + [e];
      }
      forall u | Reads(run, r, u) ensures u == t {
        OneReturner(run, r, t, u);
      }
    }
  }

  /** A change is made by the thread that moves, at one of its two effective steps. */
  lemma EffectIsMove(run: seq<State>, k: nat, t: int, u: int, a: Action)
    requires Run(run) && Effect(run, k, t) && Inv(run[k - 1])
    requires Enabled(run[k - 1], u, a) && run[k] == Apply(run[k - 1], u, a)
    ensures t == u && a.Go? && Effective(run[k - 1].threads[u])
  {
    if t == u && a.Go? && run[k - 1].threads[t].pc != DONE {
      OwnStep(run[k - 1], t);
    }
  }

  lemma MoveIsEffect(run: seq<State>, k: nat, u: int)
    requires Run(run) && 0 < k < |run| && Inv(run[k - 1]) && Enabled(run[k - 1], u, Go)
    requires run[k] == Apply(run[k - 1], u, Go) && Effective(run[k - 1].threads[u])
    ensures Effect(run, k, u)
    ensures var e := EffectEvent(run, k, u);
      && e.answer == Answered(e.op, e.key, Abs(run[k - 1].heap))
      && Abs(run[k].heap) == Changed(e.op, e.key, Abs(run[k - 1].heap))
  {
    OwnStep(run[k - 1], u);
  }

  /** The reads before instant k are all there: the history is ready for it. */
  lemma NextInstant(run: seq<State>, h: seq<Event>, k: nat)
    requires Run(run) && 0 < k < |run| && Built(run, h, k - 1) && HasReads(run, h, k - 1, |run|)
    ensures Ordered(h, k) && HasReads(run, h, k, 0)
    ensures forall e :: e in h ==> e.at < k
  {}

  lemma NoChange(run: seq<State>, h: seq<Event>, k: nat, u: int, a: Action)
    requires Run(run) && 0 < k < |run| && HasEffects(run, h, k - 1) && Inv(run[k - 1])
    requires Enabled(run[k - 1], u, a) && run[k] == Apply(run[k - 1], u, a)
    requires !(a.Go? && Effective(run[k - 1].threads[u]))
    ensures HasEffects(run, h, k)
  {
    forall t | Effect(run, k, t) ensures false {
      EffectIsMove(run, k, t, u, a);
    }
  }

  lemma OneChange(run: seq<State>, h: seq<Event>, k: nat, u: int)
    requires Run(run) && 0 < k < |run| && HasEffects(run, h, k - 1) && Inv(run[k - 1])
    requires Enabled(run[k - 1], u, Go) && run[k] == Apply(run[k - 1], u, Go)
    requires Effect(run, k, u)
    ensures HasEffects(run, h + [EffectEvent(run, k, u)], k)
  {
    forall t | Effect(run, k, t) ensures t == u {
      EffectIsMove(run, k, t, u, Go);
    }
  }

  /** The change of step k, if there is one. */
  lemma AddEffect(run: seq<State>, h: seq<Event>, k: nat) returns (h': seq<Event>)
    requires Run(run) && 0 < k < |run| && Built(run, h, k - 1) && HasReads(run, h, k - 1, |run|)
    ensures Built(run, h', k) && HasReads(run, h', k, 0)
  {
    var u, a := InvStep(run, k);
    NextInstant(run, h, k);
    if a.Go? && Effective(run[k - 1].threads[u]) {
      h' := AddChange(run, h, k, u);
    } else {
      StepEffect(run[k - 1], u, a);
      NoChange(run, h, k, u, a);
      h' := h;
    }
  }

  lemma AddChange(run: seq<State>, h: seq<Event>, k: nat, u: int) returns (h': seq<Event>)
    requires Run(run) && 0 < k < |run| && Built(run, h, k - 1) && HasReads(run, h, k, 0)
    requires Ordered(h, k) && forall e :: e in h ==> e.at < k
    requires Inv(run[k - 1]) && Enabled(run[k - 1], u, Go) && run[k] == Apply(run[k - 1], u, Go)
    requires Effective(run[k - 1].threads[u])
    ensures Built(run, h', k) && HasReads(run, h', k, 0)
  {
    MoveIsEffect(run, k, u);
    OneChange(run, h, k, u);
    Extend(run, h, k, EffectEvent(run, k, u));
    h' := h + [EffectEvent(run, k, u)];
  }

  lemma {:induction false} BuildHistory(run: seq<State>, k: nat) returns (h: seq<Event>)
    requires Run(run) && k < |run|
    ensures Built(run, h, k) && HasReads(run, h, k, |run|)
    decreases k
  {
    if k == 0 {
      h := [];
      InitialHeap();
    } else {
      h := BuildHistory(run, k - 1);
      h := AddEffect(run, h, k);
      h := AddReads(run, h, k, |run|);
    }
  }

  // ----- linearizability -----

  /** The event is a call of its thread that is under way at its instant, with the arguments of the move that began it. */
  ghost predicate OfCall(run: seq<State>, moves: seq<Move>, e: Event) {
    && Begins(moves, e.start, e.thread) && InCall(run, e.thread, e.start, e.at)
    && Arguments(moves, e.start, e.thread).op == e.op && Arguments(moves, e.start, e.thread).key == e.key
  }

  lemma EventOfCall(run: seq<State>, moves: seq<Move>, e: Event)
    requires Run(run) && Trace(run, moves) && EventOk(run, e)
    ensures OfCall(run, moves, e)
  {
    if Effect(run, e.at, e.thread) && e == EffectEvent(run, e.at, e.thread) {
      CallHistory(run, e.at, e.thread);
      CallServesArguments(run, moves, e.at, e.thread);
    } else {
      var r: nat :| Reads(run, r, e.thread) && e == ReadEvent(run, r, e.thread);
      CallHistory(run, r - 1, e.thread);
      CallServesArguments(run, moves, r - 1, e.thread);
    }
  }

  /** The event of a call that has returned at step r: its answer, placed before its return. */
  ghost predicate IsEventOf(run: seq<State>, e: Event, r: nat, t: int)
    requires Returns(run, r, t)
  {
    e.thread == t && InCall(run, t, e.start, r - 1) && e.answer == Returning(run, r, t).ret && e.at < r
  }

  lemma ReturnedIsThere(run: seq<State>, h: seq<Event>, r: nat, t: int) returns (x: nat)
    requires Run(run) && Built(run, h, |run| - 1) && HasReads(run, h, |run| - 1, |run|)
    requires Returns(run, r, t) && !Wrong(run, r, t)
    ensures x < |h| && IsEventOf(run, h[x], r, t)
  {
    var th := Returning(run, r, t);
    CallHistory(run, r - 1, t);
    if ReadOnly(th) {
      var e := ReadEvent(run, r, t);
      assert e in h;
      x :| 0 <= x < |h| && h[x] == e;
    } else {
      var k := ItsEffect(run, r, t);
      x :| 0 <= x < |h| && h[x] == EffectEvent(run, k, t);
    }
  }

  lemma ItsEffect(run: seq<State>, r: nat, t: int) returns (k: nat)
    requires Run(run) && Returns(run, r, t) && !ReadOnly(Returning(run, r, t))
    ensures k < r && Effect(run, k, t)
    ensures var th, e := Returning(run, r, t), EffectEvent(run, k, t);
      e.start == th.find.start && e.op == th.op && e.key == th.find.key
  {
    var c := Returning(run, r, t).find.start;
    AnswerIsJustified(run, r - 1, t);
    k :| EffectAt(run, t, c, r - 1, k);
    assert run[k - 1].threads[t].did == 0;
  }

  /** Linearizability: every run has one sequential history of its calls.  Replayed on the empty set, with the arguments
      that the callers gave, it gives each call its answer and ends in the set of the last state; each call stands at an
      instant between its beginning and its return, in the order of these instants; no call occurs twice; and every call
      that has returned occurs, with the answer it returned, except a contains in the one case in which it is wrong. */
  lemma SequentialHistory(run: seq<State>, moves: seq<Move>) returns (h: seq<Event>)
    requires Run(run) && Trace(run, moves)
    ensures Legal(h) && Replay(h) == Abs(run[|run| - 1].heap)
    ensures Ordered(h, |run| - 1)
    ensures forall x :: 0 <= x < |h| ==> OfCall(run, moves, h[x])
    ensures forall x, y :: 0 <= x < y < |h| ==> h[x].thread != h[y].thread || h[x].start != h[y].start
    ensures forall r: nat, t :: Returns(run, r, t) && !Wrong(run, r, t) ==> Occurs(run, h, r, t)
  {
    h := BuildHistory(run, |run| - 1);
    forall x | 0 <= x < |h| ensures OfCall(run, moves, h[x]) {
      EventOfCall(run, moves, h[x]);
    }
    forall x, y | 0 <= x < y < |h| ensures h[x].thread != h[y].thread || h[x].start != h[y].start {
      if h[x].thread == h[y].thread && h[x].start == h[y].start {
        OneEventPerCall(run, h[x], h[y]);
      }
    }
    forall r: nat, t | Returns(run, r, t) && !Wrong(run, r, t) ensures Occurs(run, h, r, t) {
      var x := ReturnedIsThere(run, h, r, t);
    }
  }

  ghost predicate Occurs(run: seq<State>, h: seq<Event>, r: nat, t: int)
    requires Returns(run, r, t)
  {
    exists x :: 0 <= x < |h| && IsEventOf(run, h[x], r, t)
  }

  /** Real-time order: a call that returned before another began precedes it in the history. */
  lemma RealTimeOrder(run: seq<State>, moves: seq<Move>, h: seq<Event>, r: nat, t: int, x: nat, y: nat)
    requires |run| > 0 && Ordered(h, |run| - 1) && x < |h| && y < |h| && OfCall(run, moves, h[y])
    requires Returns(run, r, t) && IsEventOf(run, h[x], r, t) && r <= h[y].start
    ensures x < y
  {
    assert h[x].at < r <= h[y].start <= h[y].at;
  }
}
