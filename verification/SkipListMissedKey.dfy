/** A run in which contains answers 0 although its key is in the set at every instant of the call: it reads the mark of
    a removal that has not unlinked the node yet, and may still fail and clear the mark (line 791). */
module SkipListMissedKey {
  import opened SkipListMachine
  import I = SkipListInvariant
  import opened SkipListTheorems
  import H = SkipListLifetimes
  import Z = SkipListLinearizability

  const KEY: int := 5

  /** The run has come to this heap and these threads. */
  ghost predicate At(run: seq<State>, heap: Heap, threads: seq<Thread>) {
    Run(run) && run[|run| - 1].heap == heap && run[|run| - 1].threads == threads
  }

  /** The run goes on with states that all have this heap. */
  ghost predicate Continues(run: seq<State>, next: seq<State>, heap: Heap) {
    && |run| <= |next| && next[..|run|] == run
    && forall i :: |run| <= i < |next| ==> next[i].heap == heap
  }

  lemma Take(run: seq<State>, t: int, a: Action) returns (next: seq<State>)
    requires Run(run) && Enabled(run[|run| - 1], t, a)
    ensures var s := Apply(run[|run| - 1], t, a);
      Run(next) && |next| == |run| + 1 && At(next, s.heap, s.threads) && Continues(run, next, s.heap)
  {
    var s := Apply(run[|run| - 1], t, a);
    next := run + [s];
    forall i | 0 < i < |next| ensures StepAt(next, i) {
      if i < |run| {
        assert StepAt(run, i);
      } else {
        assert Step(run[|run| - 1], s);
      }
    }
  }

  /** Thread t takes its next step. */
  lemma Go(run: seq<State>, heap: Heap, threads: seq<Thread>, t: int) returns (next: seq<State>)
    requires At(run, heap, threads) && 0 <= t < |threads|
    requires IDLE < threads[t].pc < DONE && Safe(heap, threads[t]) && !Blocked(heap, threads[t])
    ensures At(next, ExecHeap(heap, threads[t], t), threads[t := ExecThread(heap, threads[t])])
    ensures |next| == |run| + 1 && Continues(run, next, ExecHeap(heap, threads[t], t))
  {
    next := Take(run, t, Action.Go);
  }

  // ----- searches -----

  /** Above level 0 the list is empty. */
  ghost predicate Flat(heap: Heap) {
    && |heap| >= 2 && heap[TAIL].key == MAX_KEY && !heap[TAIL].marked && !heap[HEAD].marked
    && forall l :: 0 < l < MAX_LEVEL ==> heap[HEAD].next[l] == TAIL
  }

  /** A search for KEY that has come down to a level without leaving the head. */
  ghost predicate Searching(th: Thread, level: int) {
    && th.pc == F_NEXT && th.level == level && 0 <= level < MAX_LEVEL && th.pred == HEAD
    && th.find.key == KEY && th.find.lFound == -1
  }

  ghost predicate SameCall(th: Thread, th': Thread) {
    th'.op == th.op && th'.topLevel == th.topLevel && th'.find.start == th.find.start
  }

  lemma OneLevelDown(heap: Heap, th: Thread)
    requires Flat(heap) && Searching(th, th.level) && 0 < th.level
    ensures var read := DoFNext(heap, th);
      && Safe(heap, th) && read.pc == F_CHECK && Safe(heap, read)
      && Searching(DoFCheck(heap, read), th.level - 1) && SameCall(th, DoFCheck(heap, read))
  {
  }

  lemma {:induction false} Descend(run: seq<State>, heap: Heap, threads: seq<Thread>, t: int)
    returns (next: seq<State>, th: Thread)
    requires At(run, heap, threads) && 0 <= t < |threads| && Flat(heap) && Searching(threads[t], threads[t].level)
    ensures At(next, heap, threads[t := th]) && Continues(run, next, heap)
    ensures Searching(th, 0) && SameCall(threads[t], th)
    decreases threads[t].level
  {
    if threads[t].level == 0 {
      next, th := run, threads[t];
      assert threads[t := th] == threads;
    } else {
      OneLevelDown(heap, threads[t]);
      var read := DoFNext(heap, threads[t]);
      var run1 := Go(run, heap, threads, t);
      var run2 := Go(run1, heap, threads[t := read], t);
      var after := threads[t := read][t := DoFCheck(heap, read)];
      next, th := Descend(run2, heap, after, t);
      assert threads[t := th] == after[t := th];
    }
  }

  /** A call and its search, down to level 0. */
  lemma CallAndSearch(run: seq<State>, heap: Heap, threads: seq<Thread>, t: int, op: Op)
    returns (next: seq<State>, th: Thread)
    requires At(run, heap, threads) && 0 <= t < |threads| && Flat(heap) && threads[t].pc == IDLE
    ensures At(next, heap, threads[t := th]) && Continues(run, next, heap)
    ensures Searching(th, 0) && th.op == op && th.topLevel == 0 && th.find.start == |run|
  {
    LogIsHistory(run, |run| - 1);
    var called := DoCall(threads[t], op, KEY, 0, false, |run|);
    var run1 := Take(run, t, Call(op, KEY, 0, false));
    var run2 := Go(run1, heap, threads[t := called], t);
    var started := DoFStart(heap, called);
    next, th := Descend(run2, heap, threads[t := called][t := started], t);
    assert threads[t := called][t := started][t := th] == threads[t := th];
  }

  // ----- the insertion of KEY -----

  /** Node 2 holds KEY and is all there is. */
  ghost predicate Holding(heap: Heap) {
    && Flat(heap) && |heap| == 3 && heap[HEAD].next[0] == 2
    && heap[2].key == KEY && heap[2].fullyLinked && 0 < heap[2].now && heap[2].topLevel == 0
  }

  lemma HoldingHasKey(heap: Heap)
    requires Holding(heap)
    ensures KEY in Abs(heap)
  {
  }

  /** The thread has recorded these two at level 0. */
  ghost predicate Between(th: Thread, pc: PC, pred: Ref, succ: Ref) {
    th.pc == pc && th.level == 0 && th.topLevel == 0 && th.find.preds[0] == pred && th.find.succs[0] == succ
  }

  lemma InsertFinds(run: seq<State>, threads: seq<Thread>, t: int) returns (next: seq<State>, th: Thread)
    requires At(run, INITIAL_HEAP, threads) && 0 <= t < |threads|
    requires Searching(threads[t], 0) && threads[t].op.Insert? && threads[t].topLevel == 0
    ensures At(next, INITIAL_HEAP, threads[t := th])
    ensures Between(th, I_LOCK, HEAD, TAIL) && th.valid && th.find.key == KEY
  {
    var read := DoFNext(INITIAL_HEAP, threads[t]);
    var run1 := Go(run, INITIAL_HEAP, threads, t);
    next := Go(run1, INITIAL_HEAP, threads[t := read], t);
    th := DoFCheck(INITIAL_HEAP, read);
    assert threads[t := read][t := th] == threads[t := th];
  }

  lemma InsertLocks(run: seq<State>, threads: seq<Thread>, t: int) returns (next: seq<State>, th: Thread)
    requires At(run, INITIAL_HEAP, threads) && 0 <= t < |threads|
    requires Between(threads[t], I_LOCK, HEAD, TAIL) && threads[t].valid && threads[t].find.key == KEY
    ensures At(next, SetLock(INITIAL_HEAP, HEAD, t), threads[t := th])
    ensures Between(th, I_ALLOC, HEAD, TAIL) && th.highest == 0 && th.valid && th.find.key == KEY
  {
    var heap := SetLock(INITIAL_HEAP, HEAD, t);
    var th1 := DoLockPred(threads[t], I_PRED_MARKED);
    var run1 := Go(run, INITIAL_HEAP, threads, t);
    var th2 := DoIPredMarked(heap, th1);
    var run2 := Go(run1, heap, threads[t := th1], t);
    var th3 := DoISuccMarked(heap, th2);
    var run3 := Go(run2, heap, threads[t := th1][t := th2], t);
    next := Go(run3, heap, threads[t := th1][t := th2][t := th3], t);
    th := DoIPredNext(heap, th3);
    assert threads[t := th1][t := th2][t := th3][t := th] == threads[t := th];
  }

  lemma InsertLinks(run: seq<State>, threads: seq<Thread>, t: int) returns (next: seq<State>, heap: Heap, th: Thread)
    requires At(run, SetLock(INITIAL_HEAP, HEAD, t), threads) && 0 <= t < |threads|
    requires Between(threads[t], I_ALLOC, HEAD, TAIL) && threads[t].highest == 0 && threads[t].find.key == KEY
    ensures At(next, heap, threads[t := th]) && Holding(heap) && !heap[2].lock && !heap[2].marked
  {
    var heap0 := SetLock(INITIAL_HEAP, HEAD, t);
    var heap1, th1 := heap0 + [Fresh(KEY, 0, t)], DoIAlloc(heap0, threads[t]);
    var run1 := Go(run, heap0, threads, t);
    var heap2, th2 := Fill(heap1, 2, 0, TAIL), DoIFill(th1);
    var run2 := Go(run1, heap1, threads[t := th1], t);
    var heap3, th3 := Link(heap2, HEAD, 2, 0), DoILink(th2);
    var run3 := Go(run2, heap2, threads[t := th1][t := th2], t);
    heap, th := SetFully(heap3, 2), DoIFull(th3);
    next := Go(run3, heap3, threads[t := th1][t := th2][t := th3], t);
    assert threads[t := th1][t := th2][t := th3][t := th] == threads[t := th];
  }

  // ----- the removal up to its mark, and contains in between -----

  lemma FindsNode(heap: Heap, th: Thread)
    requires Holding(heap) && !heap[2].marked && Searching(th, 0) && !th.op.Insert?
    ensures var read := DoFNext(heap, th);
      && Safe(heap, th) && read.pc == F_CHECK && Safe(heap, read)
      && var found := DoFCheck(heap, read);
         && found.find.lFound == 0 && found.find.succs[0] == 2 && SameCall(th, found) && found.find.key == KEY
         && found.pc == (if th.op.Remove? then R_LOCK else C_FULLY) && (th.op.Remove? ==> found.victim == 2)
  {
  }

  lemma FindNode(run: seq<State>, heap: Heap, threads: seq<Thread>, t: int) returns (next: seq<State>, th: Thread)
    requires At(run, heap, threads) && 0 <= t < |threads| && Holding(heap) && !heap[2].marked
    requires Searching(threads[t], 0) && !threads[t].op.Insert?
    ensures At(next, heap, threads[t := th]) && Continues(run, next, heap)
    ensures th.find.lFound == 0 && th.find.succs[0] == 2 && SameCall(threads[t], th) && th.find.key == KEY
    ensures th.pc == (if th.op.Remove? then R_LOCK else C_FULLY) && (th.op.Remove? ==> th.victim == 2)
  {
    FindsNode(heap, threads[t]);
    var read := DoFNext(heap, threads[t]);
    var run1 := Go(run, heap, threads, t);
    next := Go(run1, heap, threads[t := read], t);
    th := DoFCheck(heap, read);
    assert threads[t := read][t := th] == threads[t := th];
  }

  lemma LockVictim(run: seq<State>, heap: Heap, threads: seq<Thread>, t: int) returns (next: seq<State>, heap': Heap, th: Thread)
    requires At(run, heap, threads) && 0 <= t < |threads| && Holding(heap) && !heap[2].marked && !heap[2].lock
    requires threads[t].pc == R_LOCK && threads[t].victim == 2
    ensures At(next, heap', threads[t := th]) && Holding(heap') && !heap'[2].marked
    ensures th.pc == R_MARK && th.victim == 2
  {
    heap' := SetLock(heap, 2, t);
    var locked := DoRLock(heap, threads[t]);
    var run1 := Go(run, heap, threads, t);
    next := Go(run1, heap', threads[t := locked], t);
    th := DoRCheck(heap', locked);
    assert threads[t := locked][t := th] == threads[t := th];
  }

  /** KEY is inserted by thread 0; thread 1 has searched for it and locked its node, and is about to mark it. */
  lemma Prelude() returns (run: seq<State>, heap: Heap, threads: seq<Thread>)
    ensures At(run, heap, threads) && Holding(heap) && !heap[2].marked
    ensures |threads| == 3 && threads[1].pc == R_MARK && threads[1].victim == 2 && threads[2].pc == IDLE
  {
    var threads0 := [RESTING, RESTING, RESTING];
    var run0 := [State(INITIAL_HEAP, threads0, [Abs(INITIAL_HEAP)])];
    var run1, th1 := CallAndSearch(run0, INITIAL_HEAP, threads0, 0, Insert);
    var threads1 := threads0[0 := th1];
    var run2, th2 := InsertFinds(run1, threads1, 0);
    var threads2 := threads1[0 := th2];
    var run3, th3 := InsertLocks(run2, threads2, 0);
    var threads3 := threads2[0 := th3];
    var run4, heap4, th4 := InsertLinks(run3, threads3, 0);
    var threads4 := threads3[0 := th4];
    run, heap, threads := RemoverArrives(run4, heap4, threads4);
  }

  lemma RemoverArrives(run0: seq<State>, heap0: Heap, threads0: seq<Thread>)
    returns (run: seq<State>, heap: Heap, threads: seq<Thread>)
    requires At(run0, heap0, threads0) && Holding(heap0) && !heap0[2].marked && !heap0[2].lock
    requires |threads0| == 3 && threads0[1].pc == IDLE && threads0[2].pc == IDLE
    ensures At(run, heap, threads) && Holding(heap) && !heap[2].marked
    ensures |threads| == 3 && threads[1].pc == R_MARK && threads[1].victim == 2 && threads[2].pc == IDLE
  {
    var run1, th1 := CallAndSearch(run0, heap0, threads0, 1, Remove);
    var threads1 := threads0[1 := th1];
    var run2, th2 := FindNode(run1, heap0, threads1, 1);
    var threads2 := threads1[1 := th2];
    var run3, heap3, th3 := LockVictim(run2, heap0, threads2, 1);
    run, heap, threads := run3, heap3, threads2[1 := th3];
  }

  /** Thread 2 searches and finds the node unmarked; thread 1 marks it; thread 2 reads the mark. */
  lemma MarkInBetween(run0: seq<State>, heap: Heap, threads: seq<Thread>, c: nat) returns (run: seq<State>)
    requires At(run0, heap, threads) && Holding(heap) && c <= |run0| && PresentSince(run0, c)
    requires |threads| == 3 && threads[1].pc == R_MARK && threads[1].victim == 2
    requires threads[2].pc == C_FULLY && threads[2].find.lFound == 0 && threads[2].find.succs[0] == 2
    ensures Run(run) && |run| > |run0| && PresentSince(run, c) && |run[|run| - 1].threads| == 3
    ensures var th := run[|run| - 1].threads[2];
      th.pc == DONE && !th.ret && SameCall(threads[2], th) && th.find.key == threads[2].find.key
  {
    var fully := DoCFully(heap, threads[2]);
    var run1 := Go(run0, heap, threads, 2);
    var marked := SetMark(heap, 2);
    var run2 := Go(run1, heap, threads[2 := fully], 1);
    run := Go(run2, marked, threads[2 := fully][1 := DoRMark(threads[1])], 2);
    HoldingHasKey(heap);
    HoldingHasKey(marked);
    forall i | c <= i < |run| ensures KEY in Abs(run[i].heap) {
      if i < |run0| {
        assert run1[i] == run0[i] && run2[i] == run1[i] && run[i] == run2[i];
      }
    }
  }

  /** From instant c on the key is in the set. */
  ghost predicate PresentSince(run: seq<State>, c: nat) {
    forall i :: c <= i < |run| ==> KEY in Abs(run[i].heap)
  }

  /** The answer 0 of contains can be wrong: a call that began at instant c returns 0 although the key was in the set at
      every instant from c on. */
  lemma ContainsMissesKey() returns (run: seq<State>, c: nat)
    ensures Run(run) && c < |run| && PresentSince(run, c) && |run[|run| - 1].threads| == 3
    ensures var th := run[|run| - 1].threads[2];
      th.pc == DONE && th.op.Contains? && !th.ret && th.find.key == KEY && th.find.start == c
  {
    var run0, heap, threads := Prelude();
    c := |run0|;
    var run1, th1 := CallAndSearch(run0, heap, threads, 2, Contains);
    var threads1 := threads[2 := th1];
    var run2, th2 := FindNode(run1, heap, threads1, 2);
    HoldingHasKey(heap);
    forall i | c <= i < |run2| ensures KEY in Abs(run2[i].heap) {
      if i < |run1| {
        assert run2[i] == run1[i];
      }
    }
    run := MarkInBetween(run2, heap, threads1[2 := th2], c);
  }

  /** At the read of line 382 the answer can be wrong only if the mark is read off a node that is still linked: then it is
      0 while the key is in the set.  In every other case it is right at some instant of the call: at this one if it is
      1, now or earlier if it is 0. */
  lemma WrongOnlyByMarkOfLinkedNode(s: State, t: int)
    requires I.Inv(s) && 0 <= t < |s.threads| && s.threads[t].pc == C_MARKED
    ensures var th := s.threads[t];
      && 0 <= th.find.lFound < MAX_LEVEL && ValidRef(s.heap, th.find.succs[th.find.lFound])
      && var n := s.heap[th.find.succs[th.find.lFound]];
         && var ret := DoCMarked(s.heap, th).ret;
            if n.marked && 0 < n.now then !ret && th.find.key in Abs(s.heap)
            else if ret then th.find.key in Abs(s.heap)
            else I.SawAbsent(s.log, th.find.start, th.find.key)
  {
    var th := s.threads[t];
    assert I.ThreadInv(s.heap, th, t, s.log);
    var v := th.find.succs[th.find.lFound];
    assert I.NodeOk(s.heap[v]);
  }

  /** And exactly then it is wrong, as far as the call has come, if the insertion of that node was complete when the call
      began: otherwise the key was absent at some instant of the call. */
  lemma WrongExactlyIfCompleteAtCall(run: seq<State>, i: nat, t: int)
    requires Run(run) && i < |run| && 0 <= t < |run[i].threads| && run[i].threads[t].pc == C_MARKED
    ensures var th := run[i].threads[t];
      && ValidLevel(th.find.lFound) && 2 <= Z.Found(th) < |run[i].heap| && 0 <= th.find.start <= i
      && var n := run[i].heap[Z.Found(th)];
         n.marked && 0 < n.now ==>
           && !DoCMarked(run[i].heap, th).ret
           && (Z.SomeInstant(run, th.find.start, i, th.find.key, false)
               <==> !H.Completed(run[th.find.start].heap, Z.Found(th)))
  {
    InvHolds(run, i);
    Z.FoundAtRead(run[i], t);
    Z.CallHistory(run, i, t);
    var th := run[i].threads[t];
    var v := Z.Found(th);
    if run[i].heap[v].marked && 0 < run[i].heap[v].now {
      Z.AbsentUnlessThroughout(run, th.find.start, i, i, v);
    }
  }
}
