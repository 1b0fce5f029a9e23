/** Calls with their own arguments: what a caller asked for, the answer that is justified for it, the node that its
    insertion puts into the list or its removal takes out, and the benchmark's books.  A trace records every move, so a
    call's arguments are those of the move that began it. */
module SkipListCalls {
  import opened SkipListMachine
  import opened SkipListInvariant
  import opened SkipListPreservation
  import opened SkipListLifetimes
  import opened SkipListSteps
  import opened SkipListTheorems
  import opened SkipListLinearizability

  lemma TraceIsRun(run: seq<State>, moves: seq<Move>)
    requires Trace(run, moves)
    ensures Run(run)
  {
    forall i | 0 < i < |run| ensures StepAt(run, i) {
      assert MoveAt(run, moves, i);
      var m := moves[i];
      assert Enabled(run[i - 1], m.thread, m.action) && run[i] == Apply(run[i - 1], m.thread, m.action);
    }
  }

  /** Every run has its moves. */
  lemma {:induction false} RunHasTrace(run: seq<State>) returns (moves: seq<Move>)
    requires Run(run)
    ensures Trace(run, moves)
  {
    var n := |run| - 1;
    if n == 0 {
      moves := [Move(0, Go)];
    } else {
      var shorter := run[..n];
      assert Run(shorter) by {
        forall i | 0 < i < n ensures StepAt(shorter, i) {
          assert StepAt(run, i);
        }
      }
      var before := RunHasTrace(shorter);
      var t, a := StepTaken(run, n);
      moves := before + [Move(t, a)];
      forall i | 0 < i < |run| ensures MoveAt(run, moves, i) {
        assert i < n ==> MoveAt(shorter, before, i);
      }
    }
  }

  lemma MoveTaken(run: seq<State>, moves: seq<Move>, k: nat)
    requires Trace(run, moves) && 0 < k < |run|
    ensures Run(run) && Inv(run[k - 1])
    ensures var m := moves[k];
      Enabled(run[k - 1], m.thread, m.action) && run[k] == Apply(run[k - 1], m.thread, m.action)
  {
    TraceIsRun(run, moves);
    InvHolds(run, k - 1);
    assert MoveAt(run, moves, k);
  }

  /** Move c is a call by thread t. */
  predicate Begins(moves: seq<Move>, c: int, t: int) {
    0 < c < |moves| && moves[c].thread == t && moves[c].action.Call?
  }

  function Arguments(moves: seq<Move>, c: int, t: int): Action
    requires Begins(moves, c, t)
  {
    moves[c].action
  }

  // ----- the arguments -----

  /** What the thread works on is what the call was made with. */
  ghost predicate Serves(th: Thread, a: Action)
    requires a.Call?
  {
    && th.op == a.op && th.find.key == a.key && th.filling == a.filling
    && (a.op.Insert? ==> th.topLevel == a.height)
  }

  ghost predicate SameArguments(th: Thread, th': Thread) {
    SameOp(th, th') && th'.filling == th.filling && (th.op.Insert? ==> th'.topLevel == th.topLevel)
  }

  lemma FindKeepsArguments(heap: Heap, th: Thread)
    requires Safe(heap, th) && IDLE < th.pc <= I_FOUND_FULLY
    ensures ExecThread(heap, th).filling == th.filling && ExecThread(heap, th).topLevel == th.topLevel
  {
    if th.pc == F_CHECK {
      var th1 := th.(find := Record(th.find, th.level, th.pred, th.curr, heap[th.curr].key));
      assert AfterFind(th1).filling == th1.filling && AfterFind(th1).topLevel == th1.topLevel;
    }
  }

  lemma InsertKeepsArguments(heap: Heap, th: Thread)
    requires Safe(heap, th) && I_LOCK <= th.pc <= I_FULL
    ensures ExecThread(heap, th).filling == th.filling && ExecThread(heap, th).topLevel == th.topLevel
  {
  }

  lemma RemoveKeepsArguments(heap: Heap, th: Thread)
    requires Safe(heap, th) && R_LOCK <= th.pc < DONE
    ensures ExecThread(heap, th).filling == th.filling && (th.pc != R_LOCK ==> ExecThread(heap, th).topLevel == th.topLevel)
  {
  }

  lemma GoKeepsArguments(s: State, t: int)
    requires Inv(s) && Enabled(s, t, Go) && s.threads[t].pc != DONE
    ensures SameArguments(s.threads[t], Apply(s, t, Go).threads[t])
  {
    var th := s.threads[t];
    assert ThreadInv(s.heap, th, t, s.log);
    GoSameOp(s.heap, th);
    if th.pc <= I_FOUND_FULLY { FindKeepsArguments(s.heap, th); }
    else if th.pc <= I_FULL { InsertKeepsArguments(s.heap, th); }
    else { RemoveKeepsArguments(s.heap, th); }
  }

  /** Throughout a call the thread serves the arguments of the move that began it. */
  lemma {:induction false} CallServesArguments(run: seq<State>, moves: seq<Move>, i: nat, t: int)
    requires Trace(run, moves) && i < |run| && 0 <= t < |run[i].threads| && run[i].threads[t].pc != IDLE
    ensures Begins(moves, run[i].threads[t].find.start, t)
    ensures Serves(run[i].threads[t], Arguments(moves, run[i].threads[t].find.start, t))
  {
    TraceIsRun(run, moves);
    NotInitial(run, i, t);
    MoveTaken(run, moves, i);
    var m := moves[i];
    if m.thread == t && m.action.Call? {
      LogIsHistory(run, i - 1);
    } else {
      CallServesArguments(run, moves, i - 1, t);
      if m.thread == t {
        GoKeepsArguments(run[i - 1], t);
      }
    }
  }

  /** Linearizability of every run: each finished call has an instant or an effect of its own, inside the call, that
      gives its answer to its own arguments in the sequential set.  An update that succeeded changed the set exactly
      once, by exactly its key; one that failed changed nothing and the key was there (insert) or not there (remove) at
      some instant; an answer 1 of contains was right at some instant, and an answer 0 was unless, and only unless, it is
      the case of WrongZero; the mark that such an answer is read off was set during the call. */
  lemma Linearizable(run: seq<State>, moves: seq<Move>, i: nat, t: int) returns (c: nat)
    requires Trace(run, moves) && i < |run| && 0 <= t < |run[i].threads| && run[i].threads[t].pc == DONE
    ensures Begins(moves, c, t) && InCall(run, t, c, i)
    ensures Justified(run, t, c, i, Arguments(moves, c, t).op, Arguments(moves, c, t).key)
  {
    TraceIsRun(run, moves);
    CallServesArguments(run, moves, i, t);
    AnswerIsJustified(run, i, t);
    c := run[i].threads[t].find.start;
  }

  // ----- the node of a successful update -----

  /** The step at which a call changes the set is the one that its program counter names. */
  lemma EffectStep(run: seq<State>, c: int, i: int, t: int, k: int)
    requires Run(run) && InCall(run, t, c, i) && EffectAt(run, t, c, i, k)
    ensures Inv(run[k - 1]) && Enabled(run[k - 1], t, Go) && run[k] == Apply(run[k - 1], t, Go)
    ensures Effective(run[k - 1].threads[t])
    ensures run[k - 1].threads[t].pc == if run[i].threads[t].op == Insert then I_FULL else R_UNLINK
  {
    var u, a := InvStep(run, k);
    assert run[k - 1].threads[t].did == 0 && run[k].threads[t].did == 1;
    assert u == t && a.Go? && run[k - 1].threads[t].pc != IDLE;
    if run[k - 1].threads[t].pc != DONE {
      OwnStep(run[k - 1], t);
    }
  }

  lemma {:induction false} CreatorStays(run: seq<State>, i: nat, j: nat, r: Ref)
    requires Run(run) && i <= j < |run| && ValidRef(run[i].heap, r)
    ensures ValidRef(run[j].heap, r) && run[j].heap[r].creator == run[i].heap[r].creator
    decreases j
  {
    if i < j {
      CreatorStays(run, i, j - 1, r);
      CreatorNext(run, j, r);
    }
  }

  lemma CreatorNext(run: seq<State>, k: nat, r: Ref)
    requires Run(run) && 0 < k < |run| && ValidRef(run[k - 1].heap, r)
    ensures ValidRef(run[k].heap, r) && run[k].heap[r].creator == run[k - 1].heap[r].creator
  {
    var t, a := InvStep(run, k);
    StepKeepsCreator(run[k - 1], t, a, r);
  }

  lemma StepKeepsCreator(s: State, t: int, a: Action, r: Ref)
    requires Inv(s) && Enabled(s, t, a) && ValidRef(s.heap, r)
    ensures ValidRef(Apply(s, t, a).heap, r) && Apply(s, t, a).heap[r].creator == s.heap[r].creator
  {
    ApplyKeepsInv(s, t, a);
    assert NodeGuarantee(s.heap[r], Apply(s, t, a).heap[r], t);
  }

  /** A node that its own thread is still linking was allocated in this call. */
  lemma LinkedIsNew(run: seq<State>, moves: seq<Move>, c: nat, k: nat, t: int, n: Ref)
    requires Trace(run, moves) && Begins(moves, c, t) && c <= k < |run| && 2 <= n < |run[k].heap|
    requires run[k].heap[n].creator == t && !run[k].heap[n].fullyLinked
    ensures |run[c].heap| <= n
  {
    TraceIsRun(run, moves);
    if n < |run[c].heap| {
      CreatorStays(run, c, k, n);
      MoveTaken(run, moves, c);
      InvHolds(run, c);
      assert ThreadInv(run[c].heap, run[c].threads[t], t, run[c].log);
      assert Completed(run[c].heap, n);
      StaysCompleted(run, c, k, n);
    }
  }

  /** The node is linked at levels 0 to height, no further, and complete. */
  ghost predicate Stands(heap: Heap, n: Ref, key: int, height: int) {
    && ValidRef(heap, n) && heap[n].key == key && heap[n].topLevel == height && heap[n].fullyLinked
    && forall l :: Linked(heap, n, l) <==> 0 <= l <= height
  }

  /** The node that an insertion of these arguments completes at step k. */
  lemma CompletedNode(s: State, t: int, a: Action) returns (n: Ref)
    requires Inv(s) && Enabled(s, t, Go) && s.threads[t].pc == I_FULL && a.Call? && a.op.Insert? && Serves(s.threads[t], a)
    ensures 2 <= n < |s.heap| && s.heap[n].creator == t && !s.heap[n].fullyLinked
    ensures Stands(Apply(s, t, Go).heap, n, a.key, a.height)
  {
    var th := s.threads[t];
    assert ThreadInv(s.heap, th, t, s.log);
    n := th.newNode;
  }

  /** The step at which a successful update takes effect. */
  lemma UpdateStep(run: seq<State>, moves: seq<Move>, i: nat, t: int) returns (c: nat, k: nat)
    requires Trace(run, moves) && i < |run| && 0 <= t < |run[i].threads| && run[i].threads[t].pc == DONE
    requires !run[i].threads[t].op.Contains? && run[i].threads[t].ret
    ensures Run(run) && Begins(moves, c, t) && InCall(run, t, c, i) && c < k <= i
    ensures Inv(run[k - 1]) && Enabled(run[k - 1], t, Go) && run[k] == Apply(run[k - 1], t, Go)
    ensures Effective(run[k - 1].threads[t]) && Serves(run[k - 1].threads[t], Arguments(moves, c, t))
    ensures Arguments(moves, c, t).op == run[i].threads[t].op
    ensures run[k - 1].threads[t].pc == if Arguments(moves, c, t).op.Insert? then I_FULL else R_UNLINK
  {
    c, k := UpdateEffect(run, moves, i, t);
    EffectStep(run, c, i, t, k);
    ServedBefore(run, moves, c, i, t, k);
  }

  lemma ServedBefore(run: seq<State>, moves: seq<Move>, c: int, i: int, t: int, k: int)
    requires Trace(run, moves) && InCall(run, t, c, i) && c < k <= i
    ensures Begins(moves, c, t) && Serves(run[k - 1].threads[t], Arguments(moves, c, t))
  {
    CallServesArguments(run, moves, k - 1, t);
  }

  lemma UpdateEffect(run: seq<State>, moves: seq<Move>, i: nat, t: int) returns (c: nat, k: nat)
    requires Trace(run, moves) && i < |run| && 0 <= t < |run[i].threads| && run[i].threads[t].pc == DONE
    requires !run[i].threads[t].op.Contains? && run[i].threads[t].ret
    ensures Run(run) && Begins(moves, c, t) && InCall(run, t, c, i) && EffectAt(run, t, c, i, k)
    ensures Arguments(moves, c, t).op == run[i].threads[t].op
    ensures run[k - 1].threads[t].pc != IDLE && run[k - 1].threads[t].find.start == c
  {
    TraceIsRun(run, moves);
    CallServesArguments(run, moves, i, t);
    c := run[i].threads[t].find.start;
    AnswerIsJustified(run, i, t);
    k :| EffectAt(run, t, c, i, k);
  }

  /** An insertion that succeeds completes, at one step of the call, a node that did not exist when the call began: it has
      the key and the height of the call and is linked at exactly the levels up to that height. */
  lemma InsertLinksNode(run: seq<State>, moves: seq<Move>, i: nat, t: int) returns (c: nat, k: nat, n: Ref)
    requires Trace(run, moves) && i < |run| && 0 <= t < |run[i].threads| && run[i].threads[t].pc == DONE
    requires run[i].threads[t].op.Insert? && run[i].threads[t].ret
    ensures Begins(moves, c, t) && InCall(run, t, c, i) && c < k <= i && Arguments(moves, c, t).op.Insert?
    ensures |run[c].heap| <= n < |run[k - 1].heap| && !run[k - 1].heap[n].fullyLinked
    ensures Stands(run[k].heap, n, Arguments(moves, c, t).key, Arguments(moves, c, t).height)
  {
    c, k := UpdateStep(run, moves, i, t);
    n := CompletedNode(run[k - 1], t, Arguments(moves, c, t));
    LinkedIsNew(run, moves, c, k - 1, t, n);
  }

  /** The node that a removal takes out of level 0. */
  lemma TakenNode(s: State, t: int) returns (v: Ref)
    requires Inv(s) && Enabled(s, t, Go) && s.threads[t].pc == R_UNLINK && s.threads[t].level == 0
    ensures Present(s.heap, v) && s.heap[v].key == s.threads[t].find.key
    ensures ValidRef(Apply(s, t, Go).heap, v)
    ensures Apply(s, t, Go).heap[v].now == 0 < Apply(s, t, Go).heap[v].ever
  {
    var th := s.threads[t];
    assert ThreadInv(s.heap, th, t, s.log);
    v := th.victim;
    assert NodeOk(s.heap[v]);
  }

  /** A removal that succeeds takes, at one step of the call, a complete node with the key of the call out of level 0, and
      from then on the node is linked at no level. */
  lemma RemoveUnlinksNode(run: seq<State>, moves: seq<Move>, i: nat, t: int) returns (c: nat, k: nat, v: Ref)
    requires Trace(run, moves) && i < |run| && 0 <= t < |run[i].threads| && run[i].threads[t].pc == DONE
    requires run[i].threads[t].op.Remove? && run[i].threads[t].ret
    ensures Begins(moves, c, t) && InCall(run, t, c, i) && c < k <= i && Arguments(moves, c, t).op.Remove?
    ensures Present(run[k - 1].heap, v) && run[k - 1].heap[v].key == Arguments(moves, c, t).key
    ensures forall j, l :: k <= j < |run| ==> !Linked(run[j].heap, v, l)
  {
    c, k := UpdateStep(run, moves, i, t);
    v := TakenNode(run[k - 1], t);
    forall j, l | k <= j < |run| ensures !Linked(run[j].heap, v, l) {
      UnlinkedForever(run, k, j, v, 0);
    }
  }

  // ----- the benchmark's books -----

  datatype Kind = Search | Filling | Insertion | Removal

  function KindOf(a: Action): Kind
    requires a.Call?
  {
    match a.op
    case Contains => Search
    case Insert => if a.filling then Filling else Insertion
    case Remove => Removal
  }

  /** Step r is the return, with a positive answer, of a call of this kind by thread t. */
  ghost predicate SucceedsAt(run: seq<State>, moves: seq<Move>, r: nat, t: int, kind: Kind) {
    && 0 < r < |run| && 0 <= t < |run[r].threads| && t < |run[r - 1].threads|
    && run[r - 1].threads[t].pc == DONE && run[r].threads[t].pc == IDLE && run[r - 1].threads[t].ret
    && exists c :: InCall(run, t, c, r - 1) && Begins(moves, c, t) && KindOf(Arguments(moves, c, t)) == kind
  }

  /** How many calls of this kind by thread t have returned with a positive answer by step k. */
  ghost function Successes(run: seq<State>, moves: seq<Move>, k: nat, t: int, kind: Kind): nat {
    if k == 0 then 0 else Successes(run, moves, k - 1, t, kind) + if SucceedsAt(run, moves, k, t, kind) then 1 else 0
  }

  lemma CallIsUnique(run: seq<State>, moves: seq<Move>, r: nat, t: int, kind: Kind)
    requires Trace(run, moves) && 0 < r < |run| && 0 <= t < |run[r].threads| && t < |run[r - 1].threads|
    requires run[r - 1].threads[t].pc == DONE
    ensures var c := run[r - 1].threads[t].find.start;
      && Begins(moves, c, t) && Serves(run[r - 1].threads[t], Arguments(moves, c, t))
      && (SucceedsAt(run, moves, r, t, kind) <==>
            run[r].threads[t].pc == IDLE && run[r - 1].threads[t].ret && KindOf(Arguments(moves, c, t)) == kind)
  {
    TraceIsRun(run, moves);
    CallServesArguments(run, moves, r - 1, t);
    CallHistory(run, r - 1, t);
  }

  ghost function Gain(run: seq<State>, moves: seq<Move>, r: nat, t: int, kind: Kind): nat {
    if SucceedsAt(run, moves, r, t, kind) then 1 else 0
  }

  /** One step of the books. */
  lemma BooksStep(run: seq<State>, moves: seq<Move>, r: nat, t: int)
    requires Trace(run, moves) && 0 < r < |run| && 0 <= t < |run[r].threads|
    ensures t < |run[r - 1].threads|
    ensures run[r].threads[t].filled == run[r - 1].threads[t].filled + Gain(run, moves, r, t, Filling)
    ensures run[r].threads[t].diff ==
      run[r - 1].threads[t].diff + Gain(run, moves, r, t, Insertion) - Gain(run, moves, r, t, Removal)
  {
    MoveTaken(run, moves, r);
    var m, th := moves[r], run[r - 1].threads[t];
    if th.pc == DONE {
      CallIsUnique(run, moves, r, t, Filling);
      CallIsUnique(run, moves, r, t, Insertion);
      CallIsUnique(run, moves, r, t, Removal);
    } else if m.thread == t && m.action.Go? {
      BooksUntouched(run[r - 1], t);
    }
  }

  lemma BooksUntouched(s: State, t: int)
    requires Inv(s) && Enabled(s, t, Go) && s.threads[t].pc != DONE
    ensures var th, th' := s.threads[t], Apply(s, t, Go).threads[t]; th'.filled == th.filled && th'.diff == th.diff
  {
    var th := s.threads[t];
    if th.pc <= I_FOUND_FULLY { SearchBooks(s.heap, th); }
    else if th.pc <= I_FULL { InsertBooks(s.heap, th); }
    else if th.pc <= R_PRED_NEXT { VictimBooks(s.heap, th); }
    else { UnlinkBooks(s.heap, th); }
  }

  lemma SearchBooks(heap: Heap, th: Thread)
    requires Safe(heap, th) && IDLE < th.pc <= I_FOUND_FULLY
    ensures ExecThread(heap, th).filled == th.filled && ExecThread(heap, th).diff == th.diff
  {
    if th.pc == F_CHECK {
      var th1 := th.(find := Record(th.find, th.level, th.pred, th.curr, heap[th.curr].key));
      assert AfterFind(th1).filled == th1.filled && AfterFind(th1).diff == th1.diff;
    }
  }

  lemma InsertBooks(heap: Heap, th: Thread)
    requires Safe(heap, th) && I_LOCK <= th.pc <= I_FULL
    ensures ExecThread(heap, th).filled == th.filled && ExecThread(heap, th).diff == th.diff
  {
  }

  lemma VictimBooks(heap: Heap, th: Thread)
    requires Safe(heap, th) && R_LOCK <= th.pc <= R_PRED_NEXT
    ensures ExecThread(heap, th).filled == th.filled && ExecThread(heap, th).diff == th.diff
  {
  }

  lemma UnlinkBooks(heap: Heap, th: Thread)
    requires Safe(heap, th) && R_READ <= th.pc < DONE
    ensures ExecThread(heap, th).filled == th.filled && ExecThread(heap, th).diff == th.diff
  {
  }

  /** The books are right: `filled` counts the successful insertions that populate the set, `diff` the other successful
      insertions less the successful removals. */
  lemma {:induction false} BooksAreRight(run: seq<State>, moves: seq<Move>, k: nat, t: int)
    requires Trace(run, moves) && k < |run| && 0 <= t < |run[k].threads|
    ensures run[k].threads[t].filled == Successes(run, moves, k, t, Filling)
    ensures run[k].threads[t].diff == Successes(run, moves, k, t, Insertion) - Successes(run, moves, k, t, Removal)
  {
    if k == 0 {
      assert run[0].threads[t] == RESTING;
    } else {
      BooksStep(run, moves, k, t);
      BooksAreRight(run, moves, k - 1, t);
    }
  }
}
