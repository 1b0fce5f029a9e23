/** The compare-and-swap loop of atomics.c, for any number of threads that add to one cell, one shared access a step. */
module AtomicAdd {
  import opened Sums

  const INT64_LIMIT: int := 0x8000_0000_0000_0000
  const INT64_SPAN: int := 0x1_0000_0000_0000_0000

  /** Two's-complement wrap-around to 64 bits. */
  function Wrap(x: int): (w: int)
    ensures -INT64_LIMIT <= w < INT64_LIMIT
  {
    (x + INT64_LIMIT) % INT64_SPAN - INT64_LIMIT
  }

  lemma WrapSmall(x: int)
    requires -INT64_LIMIT <= x < INT64_LIMIT
    ensures Wrap(x) == x
  {
  }

  /** Wrapping early makes no difference. */
  lemma WrapAdds(x: int, dx: int)
    ensures Wrap(Wrap(x) + dx) == Wrap(x + dx)
  {
    var q := (x + INT64_LIMIT) / INT64_SPAN;
    assert Wrap(x) == x - q * INT64_SPAN;
    ModAdds(x + dx + INT64_LIMIT, q);
  }

  lemma ModAdds(y: int, q: int)
    ensures (y - q * INT64_SPAN) % INT64_SPAN == y % INT64_SPAN
  {
    var k, r := y / INT64_SPAN, y % INT64_SPAN;
    assert y - q * INT64_SPAN == (k - q) * INT64_SPAN + r;
    assert (y - q * INT64_SPAN) / INT64_SPAN == k - q;
  }

  // The next step of a thread.
  type PC = int
  const RESTING: PC := 0
  const READ: PC := 1   // v = *addr
  const SWAP: PC := 2   // CAS64(addr, v, v + dx)

  datatype Adder = Adder(
    pc: PC,
    dx: int,
    v: int,
    done: nat,        // history: how many of its calls have returned
    result: int)      // what the last call returned

  datatype State = State(
    cell: int,
    adders: seq<Adder>,
    adds: seq<int>)   // history: the dx of every successful swap, oldest first

  datatype Action = Call(dx: int) | Go

  predicate Enabled(s: State, t: int, a: Action) {
    && 0 <= t < |s.adders|
    && match a
       case Call(_) => s.adders[t].pc == RESTING
       case Go => s.adders[t].pc != RESTING
  }

  function Apply(s: State, t: int, a: Action): State
    requires Enabled(s, t, a)
  {
    var w := s.adders[t];
    match a
    case Call(dx) => s.(adders := s.adders[t := w.(pc := READ, dx := dx)])
    case Go =>
      if w.pc == READ then s.(adders := s.adders[t := w.(pc := SWAP, v := s.cell)])
      else if s.cell == w.v then
        State(Wrap(w.v + w.dx), s.adders[t := w.(pc := RESTING, done := w.done + 1, result := w.v)], s.adds + [w.dx])
      else s.(adders := s.adders[t := w.(pc := READ)])
  }

  predicate Init(s: State) {
    && -INT64_LIMIT <= s.cell < INT64_LIMIT && s.adds == []
    && (forall t :: 0 <= t < |s.adders| ==> s.adders[t].pc == RESTING && s.adders[t].done == 0)
  }

  ghost predicate Step(s: State, s': State) {
    exists t, a :: Enabled(s, t, a) && s' == Apply(s, t, a)
  }

  ghost predicate StepAt(run: seq<State>, i: nat)
    requires 0 < i < |run|
  {
    Step(run[i - 1], run[i])
  }

  ghost predicate Run(run: seq<State>) {
    && |run| > 0 && Init(run[0])
    && forall i :: 0 < i < |run| ==> StepAt(run, i)
  }

  lemma StepTaken(run: seq<State>, k: nat) returns (t: int, a: Action)
    requires Run(run) && 0 < k < |run|
    ensures Enabled(run[k - 1], t, a) && run[k] == Apply(run[k - 1], t, a)
  {
    assert StepAt(run, k);
    t, a :| Enabled(run[k - 1], t, a) && run[k] == Apply(run[k - 1], t, a);
  }

  /** No lost updates: in every interleaving the cell is its initial value plus every successful add, modulo 2^64. */
  lemma {:induction false} NoLostUpdates(run: seq<State>, k: nat)
    requires Run(run) && k < |run|
    ensures run[k].cell == Wrap(run[0].cell + Sum(run[k].adds))
  {
    if k == 0 {
      WrapSmall(run[0].cell);
    } else {
      NoLostUpdates(run, k - 1);
      var t, a := StepTaken(run, k);
      var s := run[k - 1];
      SumAppend(s.adds, s.adders[t].dx);
      WrapAdds(run[0].cell + Sum(s.adds), s.adders[t].dx);
    }
  }

  // ----- calls with their own arguments -----

  /** A thread and what it does. */
  datatype Move = Move(thread: int, action: Action)

  ghost predicate MoveAt(run: seq<State>, moves: seq<Move>, i: nat)
    requires 0 < i < |run| && i < |moves|
  {
    var m := moves[i];
    Enabled(run[i - 1], m.thread, m.action) && run[i] == Apply(run[i - 1], m.thread, m.action)
  }

  /** A run together with its moves: moves[i] leads to state i (and moves[0] stands for nothing). */
  ghost predicate Trace(run: seq<State>, moves: seq<Move>) {
    && |moves| == |run| > 0 && Init(run[0])
    && forall i :: 0 < i < |run| ==> MoveAt(run, moves, i)
  }

  lemma TraceIsRun(run: seq<State>, moves: seq<Move>)
    requires Trace(run, moves)
    ensures Run(run)
  {
    forall i | 0 < i < |run| ensures StepAt(run, i) {
      assert MoveAt(run, moves, i);
      var m := moves[i];
      assert Enabled(run[i - 1], m.thread, m.action) && run[i] == Apply(run[i - 1], m.thread, m.action);
    }
  }

  /** Move c is the last call that thread t has made by state i, and its argument is dx. */
  ghost predicate LastCall(moves: seq<Move>, c: int, i: int, t: int, dx: int) {
    && 0 < c <= i < |moves| && moves[c] == Move(t, Call(dx))
    && forall j :: c < j <= i ==> moves[j].thread != t || !moves[j].action.Call?
  }

  /** A thread in a call adds the argument of that call. */
  lemma {:induction false} AddsArgument(run: seq<State>, moves: seq<Move>, i: nat, t: int) returns (c: nat)
    requires Trace(run, moves) && i < |run| && 0 <= t < |run[i].adders| && run[i].adders[t].pc != RESTING
    ensures LastCall(moves, c, i, t, run[i].adders[t].dx)
  {
    assert i > 0;
    assert MoveAt(run, moves, i);
    if moves[i].thread == t && moves[i].action.Call? {
      c := i;
    } else {
      c := AddsArgument(run, moves, i - 1, t);
    }
  }

  /** Each call takes effect at one instant: the swap that succeeds, which returns the value that the earlier adds made
      and contributes exactly the argument of the call. */
  lemma AddsAtOneInstant(run: seq<State>, moves: seq<Move>, k: nat, t: int) returns (c: nat, dx: int)
    requires Trace(run, moves) && 0 < k < |run| && 0 <= t < |run[k - 1].adders| == |run[k].adders|
    requires run[k].adders[t].done != run[k - 1].adders[t].done
    ensures LastCall(moves, c, k, t, dx) && c < k
    ensures run[k].adders[t].done == run[k - 1].adders[t].done + 1
    ensures run[k].adds == run[k - 1].adds + [dx]
    ensures run[k].adders[t].result == Wrap(run[0].cell + Sum(run[k - 1].adds))
  {
    TraceIsRun(run, moves);
    NoLostUpdates(run, k - 1);
    assert MoveAt(run, moves, k);
    dx := run[k - 1].adders[t].dx;
    c := AddsArgument(run, moves, k - 1, t);
  }

  /** For every thread, how many of its calls have returned. */
  function Dones(adders: seq<Adder>): seq<int> {
    seq(|adders|, t requires 0 <= t < |adders| => adders[t].done)
  }

  lemma {:induction false} SumOfZeros(a: seq<int>)
    requires forall i :: 0 <= i < |a| ==> a[i] == 0
    ensures Sum(a) == 0
  {
    if a != [] {
      SumOfZeros(a[..|a| - 1]);
    }
  }

  /** ... and no call is counted twice: there are as many successful adds as calls that have returned. */
  lemma {:induction false} AddsAreCalls(run: seq<State>, k: nat)
    requires Run(run) && k < |run|
    ensures |run[k].adds| == Sum(Dones(run[k].adders))
  {
    if k == 0 {
      SumOfZeros(Dones(run[0].adders));
    } else {
      AddsAreCalls(run, k - 1);
      var t, a := StepTaken(run, k);
      var before, after := run[k - 1].adders, run[k].adders;
      assert Dones(after) == Dones(before)[t := after[t].done];
      SumOfUpdate(Dones(before), t, after[t].done);
    }
  }
}
