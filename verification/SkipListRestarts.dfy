/** Why a call starts its search over: it does so only after it has read a mark, a NULL link, or a link that has changed
    since its search.  In every other case it goes on to its answer. */
module SkipListRestarts {
  import opened SkipListMachine
  import opened SkipListInvariant
  import opened SkipListPreservation
  import opened SkipListTheorems
  import opened SkipListSearches
  import opened SkipListCalls

  /** What a search reads that makes it start over. */
  ghost predicate SearchDisturbed(heap: Heap, th: Thread)
    requires Safe(heap, th)
  {
    || (th.pc == F_NEXT && heap[th.pred].next[th.level] == NULL)
    || (th.pc == F_CHECK && heap[th.curr].marked)
    || (th.pc == I_FOUND_MARKED && heap[th.find.succs[th.find.lFound]].marked)
  }

  /** What a validation reads that makes it fail. */
  ghost predicate ValidationDisturbed(heap: Heap, th: Thread)
    requires Safe(heap, th)
  {
    || ((th.pc == I_PRED_MARKED || th.pc == R_PRED_MARKED) && heap[th.find.preds[th.level]].marked)
    || (th.pc == I_SUCC_MARKED && heap[th.find.succs[th.level]].marked)
    || (th.pc == I_PRED_NEXT && heap[th.find.preds[th.level]].next[th.level] != th.find.succs[th.level])
    || (th.pc == R_PRED_NEXT && heap[th.find.preds[th.level]].next[th.level] != th.victim)
  }

  lemma FindRestarts(heap: Heap, th: Thread)
    requires Safe(heap, th) && F_START < th.pc <= I_FOUND_FULLY
    ensures ExecThread(heap, th).pc == F_START <==> SearchDisturbed(heap, th)
  {
    if th.pc == F_CHECK {
      var th1 := th.(find := Record(th.find, th.level, th.pred, th.curr, heap[th.curr].key));
      assert AfterFind(th1).pc != F_START;
    }
  }

  lemma InsertRestarts(heap: Heap, th: Thread)
    requires Safe(heap, th) && I_LOCK <= th.pc <= I_FULL
    ensures ExecThread(heap, th).pc != F_START
  {
  }

  lemma RemoveRestarts(heap: Heap, th: Thread)
    requires Safe(heap, th) && R_LOCK <= th.pc <= UNLOCK
    ensures ExecThread(heap, th).pc == F_START <==> th.pc == UNLOCK && th.level >= th.highest && !th.valid
  {
  }

  ghost predicate Restarts(heap: Heap, th: Thread)
    requires Safe(heap, th)
  {
    SearchDisturbed(heap, th) || (th.pc == UNLOCK && th.level >= th.highest && !th.valid)
  }

  /** A step takes a call back to the beginning of its search exactly if a search has met a marked node or a NULL link, an
      insertion has found its node marked, or the last lock of a failed validation has been released. */
  lemma RestartsExactlyIf(s: State, t: int)
    requires Inv(s) && Enabled(s, t, Go) && F_START < s.threads[t].pc < DONE
    ensures Apply(s, t, Go).threads[t].pc == F_START <==> Restarts(s.heap, s.threads[t])
  {
    var th := s.threads[t];
    if th.pc <= I_FOUND_FULLY { FindRestarts(s.heap, th); }
    else if th.pc <= I_FULL { InsertRestarts(s.heap, th); }
    else { RemoveRestarts(s.heap, th); }
  }

  lemma InsertValidates(heap: Heap, th: Thread)
    requires Safe(heap, th) && I_LOCK <= th.pc <= I_FULL && th.valid
    ensures !ExecThread(heap, th).valid <==> ValidationDisturbed(heap, th)
  {
  }

  lemma RemoveValidates(heap: Heap, th: Thread)
    requires Safe(heap, th) && R_LOCK_PRED <= th.pc <= R_RELEASE && th.valid
    ensures !ExecThread(heap, th).valid <==> ValidationDisturbed(heap, th)
  {
  }

  /** A validation fails exactly if it has read a mark on a predecessor or (inserting) on a successor, or a predecessor's
      link that no longer leads to the successor or to the victim. */
  lemma ValidationFailsExactlyIf(s: State, t: int)
    requires Inv(s) && Enabled(s, t, Go) && s.threads[t].valid
    requires I_LOCK <= s.threads[t].pc <= I_FULL || R_LOCK_PRED <= s.threads[t].pc <= R_RELEASE
    ensures !Apply(s, t, Go).threads[t].valid <==> ValidationDisturbed(s.heap, s.threads[t])
  {
    var th := s.threads[t];
    if th.pc <= I_FULL { InsertValidates(s.heap, th); }
    else { RemoveValidates(s.heap, th); }
  }

  // ----- how long an attempt can take -----

  const AFTER_SEARCH: int := 77
  const MAX_LEFT: int := AFTER_SEARCH + 2 * (MAX_LEVEL + MAX_KEY)

  /** How many steps are left after the search, at most. */
  function LeftAfterSearch(th: Thread): int {
    if th.pc == C_FULLY || th.pc == I_FOUND_MARKED then 2
    else if th.pc == C_MARKED || th.pc == I_FOUND_FULLY || th.pc == R_ABANDON then 1
    else if th.pc == UNLOCK then th.highest - th.level + 1
    else if th.pc == I_FULL || th.pc == R_RELEASE || th.pc == R_GIVE_UP then 12
    else if th.pc == R_UNMARK then 13
    else if th.pc == I_LINK then 13 + 2 * (th.topLevel - th.level)
    else if th.pc == I_FILL then 14 + 2 * (th.topLevel - th.level)
    else if th.pc == I_ALLOC then 35
    else if I_LOCK <= th.pc <= I_PRED_NEXT then 36 + 4 * (th.topLevel - th.level) + I_ALLOC - th.pc
    else if R_READ <= th.pc <= R_NULL then 12 + 3 * th.level + R_RELEASE - th.pc
    else if R_LOCK_PRED <= th.pc <= R_PRED_NEXT then 43 + 3 * (th.topLevel - th.level) + R_READ - th.pc
    else if R_LOCK <= th.pc <= R_MARK then 74 + R_MARK - th.pc
    else 0
  }

  /** How many steps are left in this attempt, at most. */
  function Left(heap: Heap, th: Thread): int
    requires th.pc == F_NEXT || th.pc == F_CHECK ==> ValidRef(heap, th.pred)
  {
    if th.pc == F_START then MAX_LEFT
    else if th.pc == F_NEXT || th.pc == F_CHECK then
      AFTER_SEARCH + 2 * (th.level + MAX_KEY - heap[th.pred].key) + F_CHECK - th.pc
    else LeftAfterSearch(th)
  }

  lemma AfterFindLeft(th: Thread)
    requires th.pc == F_CHECK && (th.op.Insert? ==> 0 <= th.topLevel < MAX_LEVEL)
    ensures var th' := AfterFind(th); F_CHECK < th'.pc && 0 <= LeftAfterSearch(th') <= AFTER_SEARCH
  {
  }

  lemma SearchGetsCloser(heap: Heap, th: Thread)
    requires Safe(heap, th) && F_START <= th.pc <= F_CHECK && ExecThread(heap, th).pc != F_START
    requires ValidRef(heap, HEAD) && heap[HEAD].key == MIN_KEY && (th.op.Insert? ==> 0 <= th.topLevel < MAX_LEVEL)
    requires F_NEXT <= th.pc ==> ValidLevel(th.level) && ValidRef(heap, th.pred) && heap[th.pred].key < MAX_KEY
    requires th.pc == F_CHECK ==> heap[th.pred].key < heap[th.curr].key && th.find.key < MAX_KEY
    ensures var th' := ExecThread(heap, th);
      && (th'.pc == F_NEXT || th'.pc == F_CHECK ==> ValidRef(heap, th'.pred))
      && 0 <= Left(heap, th') < Left(heap, th)
  {
    if th.pc == F_CHECK && th.level == 0 && th.find.key <= heap[th.curr].key {
      AfterFindLeft(th.(find := Record(th.find, th.level, th.pred, th.curr, heap[th.curr].key)));
    }
  }

  lemma FoundGetsCloser(heap: Heap, th: Thread)
    requires Safe(heap, th) && C_FULLY <= th.pc <= I_FOUND_FULLY && ExecThread(heap, th).pc !in {F_START, th.pc}
    ensures F_CHECK < ExecThread(heap, th).pc
    ensures 0 <= LeftAfterSearch(ExecThread(heap, th)) < LeftAfterSearch(th)
  {
  }

  lemma LockGetsCloser(heap: Heap, th: Thread)
    requires Safe(heap, th) && (th.pc == I_LOCK || th.pc == I_PRED_MARKED) && 0 <= th.level <= th.topLevel < MAX_LEVEL
    requires I_PRED_MARKED <= th.pc ==> th.highest == th.level
    ensures F_CHECK < ExecThread(heap, th).pc
    ensures 0 <= LeftAfterSearch(ExecThread(heap, th)) < LeftAfterSearch(th)
  {
  }

  lemma SuccGetsCloser(heap: Heap, th: Thread)
    requires Safe(heap, th) && (th.pc == I_SUCC_MARKED || th.pc == I_PRED_NEXT) && 0 <= th.level <= th.topLevel < MAX_LEVEL
    requires th.highest == th.level
    ensures F_CHECK < ExecThread(heap, th).pc
    ensures 0 <= LeftAfterSearch(ExecThread(heap, th)) < LeftAfterSearch(th)
  {
  }

  lemma LinkGetsCloser(heap: Heap, th: Thread)
    requires Safe(heap, th) && I_ALLOC <= th.pc <= I_FULL && 0 <= th.highest <= th.topLevel < MAX_LEVEL
    requires th.pc != I_FULL ==> 0 <= th.level <= th.topLevel
    ensures F_CHECK < ExecThread(heap, th).pc
    ensures 0 <= LeftAfterSearch(ExecThread(heap, th)) < LeftAfterSearch(th)
  {
  }

  lemma VictimGetsCloser(heap: Heap, th: Thread)
    requires Safe(heap, th) && R_LOCK <= th.pc <= R_UNMARK && (th.pc == R_MARK ==> 0 <= th.topLevel < MAX_LEVEL)
    requires th.pc == R_GIVE_UP || th.pc == R_UNMARK ==> 0 <= th.highest < MAX_LEVEL
    ensures F_CHECK < ExecThread(heap, th).pc
    ensures 0 <= LeftAfterSearch(ExecThread(heap, th)) < LeftAfterSearch(th)
  {
  }

  lemma ValidationGetsCloser(heap: Heap, th: Thread)
    requires Safe(heap, th) && (th.pc == R_LOCK_PRED || th.pc == R_PRED_MARKED) && 0 <= th.level <= th.topLevel < MAX_LEVEL
    ensures F_CHECK < ExecThread(heap, th).pc
    ensures 0 <= LeftAfterSearch(ExecThread(heap, th)) < LeftAfterSearch(th)
  {
  }

  lemma LevelGetsCloser(heap: Heap, th: Thread)
    requires Safe(heap, th) && th.pc == R_PRED_NEXT && 0 <= th.level <= th.topLevel < MAX_LEVEL
    ensures F_CHECK < ExecThread(heap, th).pc
    ensures 0 <= LeftAfterSearch(ExecThread(heap, th)) < LeftAfterSearch(th)
  {
  }

  lemma UnlinkGetsCloser(heap: Heap, th: Thread)
    requires Safe(heap, th) && R_READ <= th.pc <= UNLOCK && ExecThread(heap, th).pc != F_START
    requires 0 <= th.level <= th.highest < MAX_LEVEL || (R_RELEASE == th.pc && 0 <= th.highest < MAX_LEVEL)
    ensures F_CHECK < ExecThread(heap, th).pc
    ensures 0 <= LeftAfterSearch(ExecThread(heap, th)) < LeftAfterSearch(th)
  {
  }

  /** One more turn of the spinning loop of line 468. */
  ghost predicate Spins(heap: Heap, th: Thread)
    requires Safe(heap, th)
  {
    th.pc == I_FOUND_FULLY && !heap[th.find.succs[th.find.lFound]].fullyLinked
  }

  ghost predicate PredThere(heap: Heap, th: Thread) {
    th.pc == F_NEXT || th.pc == F_CHECK ==> ValidRef(heap, th.pred)
  }

  /** Every step of a call gets it closer to its end, unless it restarts or spins. */
  lemma StepGetsCloser(s: State, t: int)
    requires Inv(s) && Enabled(s, t, Go) && s.threads[t].pc != DONE
    requires !Restarts(s.heap, s.threads[t]) && !Spins(s.heap, s.threads[t])
    ensures var th, th' := s.threads[t], ExecThread(s.heap, s.threads[t]);
      PredThere(s.heap, th) && PredThere(s.heap, th') && 0 <= Left(s.heap, th') < Left(s.heap, th)
  {
    var th := s.threads[t];
    assert ThreadInv(s.heap, th, t, s.log);
    if th.pc <= F_CHECK {
      SearchFacts(s, t);
      SearchGetsCloser(s.heap, th);
    } else if th.pc <= I_FOUND_FULLY {
      FoundFacts(s.heap, th);
      FoundGetsCloser(s.heap, th);
    } else if th.pc <= I_PRED_MARKED {
      LockGetsCloser(s.heap, th);
    } else if th.pc <= I_PRED_NEXT {
      SuccGetsCloser(s.heap, th);
    } else if th.pc <= I_FULL {
      LinkGetsCloser(s.heap, th);
    } else if th.pc <= R_UNMARK {
      VictimFacts(s, t);
      VictimGetsCloser(s.heap, th);
    } else if th.pc <= R_PRED_NEXT {
      VictimFacts(s, t);
      if th.pc == R_PRED_NEXT { LevelGetsCloser(s.heap, th); } else { ValidationGetsCloser(s.heap, th); }
    } else {
      RemoveRestarts(s.heap, th);
      UnlinkGetsCloser(s.heap, th);
    }
  }

  lemma SearchFacts(s: State, t: int)
    requires Inv(s) && Enabled(s, t, Go) && F_START <= s.threads[t].pc <= F_CHECK && !Restarts(s.heap, s.threads[t])
    ensures var heap, th := s.heap, s.threads[t];
      && ExecThread(heap, th).pc != F_START
      && ValidRef(heap, HEAD) && heap[HEAD].key == MIN_KEY && (th.op.Insert? ==> 0 <= th.topLevel < MAX_LEVEL)
      && (F_NEXT <= th.pc ==> ValidLevel(th.level) && ValidRef(heap, th.pred) && heap[th.pred].key < MAX_KEY)
      && (th.pc == F_CHECK ==> heap[th.pred].key < heap[th.curr].key && th.find.key < MAX_KEY)
  {
    var th := s.threads[t];
    assert ThreadInv(s.heap, th, t, s.log);
    if th.pc != F_START {
      FindRestarts(s.heap, th);
    }
  }

  lemma FoundFacts(heap: Heap, th: Thread)
    requires Safe(heap, th) && C_FULLY <= th.pc <= I_FOUND_FULLY && !Restarts(heap, th) && !Spins(heap, th)
    ensures ExecThread(heap, th).pc !in {F_START, th.pc}
  {
  }

  lemma VictimFacts(s: State, t: int)
    requires Inv(s) && 0 <= t < |s.threads| && R_LOCK <= s.threads[t].pc <= R_PRED_NEXT
    ensures var th := s.threads[t];
      && (th.pc == R_MARK || R_LOCK_PRED <= th.pc ==> 0 <= th.topLevel < MAX_LEVEL)
      && (th.pc == R_GIVE_UP || th.pc == R_UNMARK ==> 0 <= th.highest < MAX_LEVEL)
      && (R_LOCK_PRED <= th.pc ==> 0 <= th.level <= th.topLevel)
  {
    var th := s.threads[t];
    assert ThreadInv(s.heap, th, t, s.log);
    assert NodeOk(s.heap[th.victim]);
  }

  // ----- whole runs -----

  /** Step k is one that thread t takes on its way to an answer: not a call, not a return, not one more turn of the
      spinning loop. */
  ghost predicate Advances(run: seq<State>, moves: seq<Move>, k: nat, t: int)
    requires 0 < k < |run| && k < |moves| && 0 <= t < |run[k - 1].threads| && Safe(run[k - 1].heap, run[k - 1].threads[t])
  {
    moves[k] == Move(t, Go) && run[k - 1].threads[t].pc != DONE && !Spins(run[k - 1].heap, run[k - 1].threads[t])
  }

  /** In states a to b thread t is in one call and its search does not start over. */
  ghost predicate Attempt(run: seq<State>, moves: seq<Move>, a: nat, b: nat, t: int) {
    && Trace(run, moves) && a <= b < |run|
    && (forall k :: a <= k <= b ==> 0 <= t < |run[k].threads| && run[k].threads[t].pc != IDLE
                                    && Safe(run[k].heap, run[k].threads[t]))
    && (forall k :: a <= k < b && moves[k + 1].thread == t ==> !Restarts(run[k].heap, run[k].threads[t]))
  }

  /** How many such steps there are from state a to state b. */
  ghost function StepsOf(run: seq<State>, moves: seq<Move>, a: nat, b: nat, t: int): nat
    requires Attempt(run, moves, a, b, t)
    decreases b
  {
    if a == b then 0 else StepsOf(run, moves, a, b - 1, t) + if Advances(run, moves, b, t) then 1 else 0
  }

  /** The keys that the bound mentions do not change. */
  lemma LeftStays(s: State, u: int, a: Action, th: Thread)
    requires Inv(s) && Enabled(s, u, a) && PredThere(s.heap, th)
    ensures PredThere(Apply(s, u, a).heap, th) && Left(Apply(s, u, a).heap, th) == Left(s.heap, th)
  {
    if th.pc == F_NEXT || th.pc == F_CHECK {
      KeyStays(s, u, a, th.pred);
    }
  }

  lemma NextLeft(run: seq<State>, moves: seq<Move>, a: nat, b: nat, t: int)
    requires Attempt(run, moves, a, b, t) && a < b && PredThere(run[b - 1].heap, run[b - 1].threads[t])
    ensures PredThere(run[b].heap, run[b].threads[t])
    ensures var before, after := Left(run[b - 1].heap, run[b - 1].threads[t]), Left(run[b].heap, run[b].threads[t]);
      if Advances(run, moves, b, t) then 0 <= after < before else after == before
  {
    MoveTaken(run, moves, b);
    var s, m := run[b - 1], moves[b];
    if Advances(run, moves, b, t) {
      StepGetsCloser(s, t);
      LeftStays(s, t, Go, ExecThread(s.heap, s.threads[t]));
    } else {
      StaysPut(run, moves, a, b, t);
      LeftStays(s, m.thread, m.action, s.threads[t]);
    }
  }

  lemma StaysPut(run: seq<State>, moves: seq<Move>, a: nat, b: nat, t: int)
    requires Attempt(run, moves, a, b, t) && a < b && !Advances(run, moves, b, t)
    ensures run[b].threads[t] == run[b - 1].threads[t]
  {
    MoveTaken(run, moves, b);
    var s, m := run[b - 1], moves[b];
    if m.thread == t {
      assert m.action.Go?;
      OwnStepStays(s, t);
    }
  }

  lemma OwnStepStays(s: State, t: int)
    requires Inv(s) && Enabled(s, t, Go) && (s.threads[t].pc == DONE || Spins(s.heap, s.threads[t]))
    ensures var th := Apply(s, t, Go).threads[t]; th == s.threads[t] || th.pc == IDLE
  {
  }

  lemma {:induction false} StepsAndLeft(run: seq<State>, moves: seq<Move>, a: nat, b: nat, t: int)
    requires Attempt(run, moves, a, b, t) && PredThere(run[a].heap, run[a].threads[t])
    ensures PredThere(run[b].heap, run[b].threads[t])
    ensures StepsOf(run, moves, a, b, t) + Left(run[b].heap, run[b].threads[t]) <= Left(run[a].heap, run[a].threads[t])
    decreases b
  {
    if a < b {
      StepsAndLeft(run, moves, a, b - 1, t);
      NextLeft(run, moves, a, b, t);
    }
  }

  lemma LeftIsBounded(s: State, t: int)
    requires Inv(s) && 0 <= t < |s.threads| && s.threads[t].pc != IDLE
    ensures PredThere(s.heap, s.threads[t]) && 0 <= Left(s.heap, s.threads[t]) <= MAX_LEFT
  {
    var th := s.threads[t];
    assert ThreadInv(s.heap, th, t, s.log);
    if R_LOCK <= th.pc <= R_PRED_NEXT {
      VictimFacts(s, t);
    }
  }

  /** An attempt ends: between two restarts a call takes only so many steps, apart from turns of the spinning loop,
      whatever the other threads do. */
  lemma AttemptIsBounded(run: seq<State>, moves: seq<Move>, a: nat, b: nat, t: int)
    requires Attempt(run, moves, a, b, t)
    ensures StepsOf(run, moves, a, b, t) <= MAX_LEFT
  {
    TraceIsRun(run, moves);
    InvHolds(run, a);
    InvHolds(run, b);
    LeftIsBounded(run[a], t);
    LeftIsBounded(run[b], t);
    StepsAndLeft(run, moves, a, b, t);
  }
}
