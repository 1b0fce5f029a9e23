/** The answers of finished calls, justified by instants and effects inside the call, in every run. */
module SkipListLinearizability {
  import opened SkipListMachine
  import opened SkipListInvariant
  import opened SkipListReads
  import opened SkipListLifetimes
  import opened SkipListMarks
  import opened SkipListTheorems

  ghost predicate SameOp(th: Thread, th': Thread) {
    th'.op == th.op && th'.find.key == th.find.key && th'.find.start == th.find.start
  }

  /** Thread t has been in one call from instant c to instant i. */
  ghost predicate InCall(run: seq<State>, t: int, c: int, i: int) {
    && 0 < c <= i < |run|
    && (forall k :: c - 1 <= k <= i ==> 0 <= t < |run[k].threads|)
    && run[c - 1].threads[t].pc == IDLE
    && run[i].threads[t].find.start == c
    && (forall k :: c <= k <= i ==> run[k].threads[t].pc != IDLE && SameOp(run[k].threads[t], run[i].threads[t]))
  }

  /** Step k turns the set of instant k-1 into that of instant k in the way the operation promises. */
  ghost predicate Changes(run: seq<State>, k: int, op: Op, key: int)
    requires 0 < k < |run|
  {
    match op
    case Contains => false
    case Insert => key !in Abs(run[k - 1].heap) && Abs(run[k].heap) == Abs(run[k - 1].heap) + {key}
    case Remove => key in Abs(run[k - 1].heap) && Abs(run[k].heap) == Abs(run[k - 1].heap) - {key}
  }

  ghost predicate TakesEffect(run: seq<State>, t: int, k: int)
    requires 0 < k < |run| && 0 <= t < |run[k].threads|
  {
    Changes(run, k, run[k].threads[t].op, run[k].threads[t].find.key)
  }

  /** Within the call, t counts an effect at step k and at no other step. */
  ghost predicate EffectAt(run: seq<State>, t: int, c: int, i: int, k: int)
    requires InCall(run, t, c, i)
  {
    && c < k <= i && TakesEffect(run, t, k)
    && (forall j :: c <= j < k ==> run[j].threads[t].did == 0)
    && (forall j :: k <= j <= i ==> run[j].threads[t].did == 1)
  }

  ghost predicate NoEffect(run: seq<State>, t: int, c: int, i: int)
    requires InCall(run, t, c, i)
  {
    forall j :: c <= j <= i ==> run[j].threads[t].did == 0
  }

  ghost predicate Effects(run: seq<State>, t: int, c: int, i: int)
    requires InCall(run, t, c, i)
  {
    (run[i].threads[t].did == 0 && NoEffect(run, t, c, i)) || exists k :: EffectAt(run, t, c, i, k)
  }

  // ----- one step -----

  lemma SearchSameOp(heap: Heap, th: Thread)
    requires Safe(heap, th) && IDLE < th.pc <= I_FOUND_FULLY
    ensures SameOp(th, ExecThread(heap, th)) && ExecThread(heap, th).did == th.did && ExecThread(heap, th).pc != IDLE
  {
    if th.pc == F_CHECK { FCheckGoes(heap, th); }
  }

  lemma InsertSameOp(heap: Heap, th: Thread)
    requires Safe(heap, th) && I_LOCK <= th.pc <= I_FULL
    ensures SameOp(th, ExecThread(heap, th)) && ExecThread(heap, th).pc != IDLE
    ensures ExecThread(heap, th).did == if th.pc == I_FULL then th.did + 1 else th.did
  {
  }

  lemma VictimSameOp(heap: Heap, th: Thread)
    requires Safe(heap, th) && R_LOCK <= th.pc <= R_UNMARK
    ensures SameOp(th, ExecThread(heap, th)) && ExecThread(heap, th).pc != IDLE && ExecThread(heap, th).did == th.did
  {
  }

  lemma RemoveSameOp(heap: Heap, th: Thread)
    requires Safe(heap, th) && R_LOCK_PRED <= th.pc <= UNLOCK
    ensures SameOp(th, ExecThread(heap, th)) && ExecThread(heap, th).pc != IDLE
    ensures ExecThread(heap, th).did == if th.pc == R_UNLINK && th.level == 0 then th.did + 1 else th.did
  {
    if R_READ <= th.pc { UnlinkSameOp(heap, th); }
  }

  lemma UnlinkSameOp(heap: Heap, th: Thread)
    requires Safe(heap, th) && R_READ <= th.pc <= UNLOCK
    ensures SameOp(th, ExecThread(heap, th)) && ExecThread(heap, th).pc != IDLE
    ensures ExecThread(heap, th).did == if th.pc == R_UNLINK && th.level == 0 then th.did + 1 else th.did
  {
  }

  /** The step of t that changes the set, as far as its program counter tells. */
  ghost predicate Effective(th: Thread) {
    th.pc == I_FULL || (th.pc == R_UNLINK && th.level == 0)
  }

  lemma GoSameOp(heap: Heap, th: Thread)
    requires Safe(heap, th) && IDLE < th.pc < DONE
    ensures SameOp(th, ExecThread(heap, th)) && ExecThread(heap, th).pc != IDLE
    ensures ExecThread(heap, th).did == if Effective(th) then th.did + 1 else th.did
  {
    if th.pc <= I_FOUND_FULLY { SearchSameOp(heap, th); }
    else if th.pc <= I_FULL { InsertSameOp(heap, th); }
    else if th.pc <= R_UNMARK { VictimSameOp(heap, th); }
    else { RemoveSameOp(heap, th); }
  }

  lemma OpOfEffect(heap: Heap, th: Thread, t: int, log: seq<set<int>>)
    requires ThreadInv(heap, th, t, log) && Effective(th)
    ensures th.op == (if th.pc == I_FULL then Insert else Remove) && th.did == 0
  {
  }

  /** A step of t inside a call: either the set is as before or the call takes its effect. */
  lemma OwnStep(s: State, t: int)
    requires Inv(s) && Enabled(s, t, Go) && s.threads[t].pc != DONE
    ensures var th, s' := s.threads[t], Apply(s, t, Go);
      var th' := s'.threads[t];
      && SameOp(th, th') && th'.pc != IDLE
      && if Effective(th) then
           && th.did == 0 && th'.did == 1
           && th.op == (if th.pc == I_FULL then Insert else Remove)
           && (th.op == Insert ==> th.find.key !in Abs(s.heap) && Abs(s'.heap) == Abs(s.heap) + {th.find.key})
           && (th.op == Remove ==> th.find.key in Abs(s.heap) && Abs(s'.heap) == Abs(s.heap) - {th.find.key})
         else th'.did == th.did
  {
    var th := s.threads[t];
    assert ThreadInv(s.heap, th, t, s.log);
    if Effective(th) { OpOfEffect(s.heap, th, t, s.log); }
    GoSameOp(s.heap, th);
    StepEffect(s, t, Go);
  }

  ghost predicate Starts(th: Thread, th': Thread, k: int) {
    th.pc == IDLE && th'.find.start == k && th'.did == 0
  }

  ghost predicate Continues(th: Thread, th': Thread) {
    th.pc != IDLE && SameOp(th, th') && th'.did == th.did
  }

  /** How thread t gets from instant k-1 to instant k when it is in a call at instant k. */
  lemma CallStep(run: seq<State>, k: nat, t: int)
    requires Run(run) && 0 < k < |run| && 0 <= t < |run[k].threads| && run[k].threads[t].pc != IDLE
    ensures |run[k - 1].threads| == |run[k].threads|
    ensures var th, th' := run[k - 1].threads[t], run[k].threads[t];
      || Starts(th, th', k)
      || Continues(th, th')
      || (th.pc != IDLE && SameOp(th, th') && th.did == 0 && th'.did == 1 && TakesEffect(run, t, k))
  {
    var u, a := InvStep(run, k);
    if u == t {
      if a.Go? {
        if run[k - 1].threads[t].pc != DONE { OwnStep(run[k - 1], t); }
      } else {
        LogIsHistory(run, k - 1);
      }
    }
  }

  // ----- whole calls -----

  lemma {:induction false} CallHistory(run: seq<State>, i: nat, t: int)
    requires Run(run) && i < |run| && 0 <= t < |run[i].threads| && run[i].threads[t].pc != IDLE
    ensures InCall(run, t, run[i].threads[t].find.start, i)
    ensures Effects(run, t, run[i].threads[t].find.start, i)
  {
    NotInitial(run, i, t);
    CallStep(run, i, t);
    var h := i - 1;
    if Starts(run[h].threads[t], run[i].threads[t], i) {
      HistoryStarts(run, i, t);
    } else {
      CallHistory(run, h, t);
      HistoryGoesOn(run, h, i, t);
    }
  }

  lemma HistoryStarts(run: seq<State>, i: nat, t: int)
    requires 0 < i < |run| && 0 <= t < |run[i].threads| && t < |run[i - 1].threads| && run[i].threads[t].pc != IDLE
    requires Starts(run[i - 1].threads[t], run[i].threads[t], i)
    ensures InCall(run, t, i, i) && Effects(run, t, i, i)
  {
    assert NoEffect(run, t, i, i);
  }

  lemma HistoryGoesOn(run: seq<State>, h: nat, i: nat, t: int)
    requires i == h + 1 < |run| && 0 <= t < |run[i].threads| && t < |run[h].threads| && run[i].threads[t].pc != IDLE
    requires InCall(run, t, run[h].threads[t].find.start, h) && Effects(run, t, run[h].threads[t].find.start, h)
    requires
      || Continues(run[h].threads[t], run[i].threads[t])
      || (SameOp(run[h].threads[t], run[i].threads[t]) && run[h].threads[t].did == 0 && run[i].threads[t].did == 1
          && TakesEffect(run, t, i))
    ensures InCall(run, t, run[i].threads[t].find.start, i) && Effects(run, t, run[i].threads[t].find.start, i)
  {
    var c := run[i].threads[t].find.start;
    assert InCall(run, t, c, i);
    if run[h].threads[t].did == 0 {
      NoEffectYet(run, t, c, h);
      if run[i].threads[t].did == 0 { assert NoEffect(run, t, c, i); } else { assert EffectAt(run, t, c, i, i); }
    } else {
      var k :| EffectAt(run, t, c, h, k);
      assert EffectAt(run, t, c, i, k);
    }
  }

  lemma NoEffectYet(run: seq<State>, t: int, c: int, i: int)
    requires InCall(run, t, c, i) && Effects(run, t, c, i) && run[i].threads[t].did == 0
    ensures NoEffect(run, t, c, i)
  {
  }

  /** The key is, or is not, in the set at some instant of the call. */
  ghost predicate SomeInstant(run: seq<State>, c: int, i: int, key: int, present: bool) {
    exists j :: 0 <= c <= j <= i < |run| && (key in Abs(run[j].heap)) == present
  }

  lemma InstantFromLog(run: seq<State>, i: nat, c: int, key: int)
    requires Run(run) && i < |run| && Histories(run, i)
    ensures SawPresent(run[i].log, c, key) ==> SomeInstant(run, c, i, key, true)
    ensures SawAbsent(run[i].log, c, key) ==> SomeInstant(run, c, i, key, false)
  {
    if SawPresent(run[i].log, c, key) {
      var j :| 0 <= c <= j < |run[i].log| && key in run[i].log[j];
      assert (key in Abs(run[j].heap)) == true;
    }
    if SawAbsent(run[i].log, c, key) {
      var j :| 0 <= c <= j < |run[i].log| && key !in run[i].log[j];
      assert (key in Abs(run[j].heap)) == false;
    }
  }

  // ----- the mark of a node that is still linked -----

  /** A node that is present at instant j of a call: its key was absent at some instant of the call exactly if its insertion
      was not complete when the call began or it is not present any more. */
  lemma AbsentUnlessThroughout(run: seq<State>, c: nat, j: nat, i: nat, v: Ref)
    requires Run(run) && c <= j <= i < |run| && Present(run[j].heap, v)
    ensures SomeInstant(run, c, i, run[j].heap[v].key, false) <==> !(Completed(run[c].heap, v) && Present(run[i].heap, v))
  {
    var key := run[j].heap[v].key;
    if !Completed(run[c].heap, v) {
      var k := CompletedMeanwhile(run, c, j, v);
      assert (key in Abs(run[k].heap)) == false;
    } else if !Present(run[i].heap, v) {
      var k := UnlinkedMeanwhile(run, j, i, v);
      assert (key in Abs(run[k].heap)) == false;
    } else {
      StaysCompleted(run, c, j, v);
      forall k | c <= k <= i ensures key in Abs(run[k].heap) {
        PresentThroughout(run, c, k, i, v);
      }
    }
  }

  lemma SearchSeesNoMark(heap: Heap, th: Thread)
    requires Safe(heap, th) && IDLE < th.pc <= I_FOUND_FULLY && th.pc != C_MARKED
    ensures ExecThread(heap, th).viaMark == th.viaMark
  {
    if th.pc == F_CHECK {
      var th1 := th.(find := Record(th.find, th.level, th.pred, th.curr, heap[th.curr].key));
      assert AfterFind(th1).viaMark == th1.viaMark;
    }
  }

  lemma InsertSeesNoMark(heap: Heap, th: Thread)
    requires Safe(heap, th) && I_LOCK <= th.pc <= I_FULL
    ensures ExecThread(heap, th).viaMark == th.viaMark
  {
  }

  lemma RemoveSeesNoMark(heap: Heap, th: Thread)
    requires Safe(heap, th) && R_LOCK <= th.pc <= DONE
    ensures ExecThread(heap, th).viaMark == th.viaMark
  {
  }

  lemma OnlyContainsSeesMark(heap: Heap, th: Thread)
    requires Safe(heap, th) && IDLE < th.pc && th.pc != C_MARKED && th.pc <= DONE
    ensures ExecThread(heap, th).viaMark == th.viaMark
  {
    if th.pc <= I_FOUND_FULLY { SearchSeesNoMark(heap, th); }
    else if th.pc <= I_FULL { InsertSeesNoMark(heap, th); }
    else { RemoveSeesNoMark(heap, th); }
  }

  /** The field is set only when the call has its answer. */
  lemma {:induction false} MarkSeenAtEnd(run: seq<State>, k: nat, t: int)
    requires Run(run) && k < |run| && 0 <= t < |run[k].threads|
    ensures run[k].threads[t].viaMark && run[k].threads[t].pc != IDLE ==> run[k].threads[t].pc == DONE
  {
    if k == 0 {
      assert run[0].threads[t] == RESTING;
    } else {
      var u, a := InvStep(run, k);
      MarkSeenAtEnd(run, k - 1, t);
      if u == t && a.Go? {
        MarkSeenStep(run[k - 1], t);
      }
    }
  }

  lemma MarkSeenStep(s: State, t: int)
    requires Inv(s) && Enabled(s, t, Go)
    requires s.threads[t].viaMark ==> s.threads[t].pc == DONE
    ensures var th, th' := s.threads[t], Apply(s, t, Go).threads[t];
      th'.viaMark && th'.pc != IDLE ==> th.pc == C_MARKED && th'.pc == DONE
  {
    var th := s.threads[t];
    assert ThreadInv(s.heap, th, t, s.log);
    if th.pc != C_MARKED {
      OnlyContainsSeesMark(s.heap, th);
    }
  }

  /** The node whose mark a call of contains has read, or is about to read. */
  function Found(th: Thread): Ref
    requires ValidLevel(th.find.lFound)
  {
    th.find.succs[th.find.lFound]
  }

  lemma FoundAtRead(s: State, t: int)
    requires Inv(s) && 0 <= t < |s.threads| && s.threads[t].pc == C_MARKED
    ensures var th := s.threads[t];
      && ValidLevel(th.find.lFound) && Completed(s.heap, Found(th)) && s.heap[Found(th)].key == th.find.key
      && th.op.Contains?
  {
    assert ThreadInv(s.heap, s.threads[t], t, s.log);
  }

  /** An answer read off the mark of a linked node: the instant of the read. */
  lemma {:induction false} MarkRead(run: seq<State>, i: nat, t: int) returns (j: nat)
    requires Run(run) && i < |run| && 0 <= t < |run[i].threads| && run[i].threads[t].pc != IDLE
    requires run[i].threads[t].viaMark
    ensures j < i && t < |run[j].threads| && run[j].threads[t].pc == C_MARKED
    ensures run[j].threads[t].find == run[i].threads[t].find && ValidLevel(run[i].threads[t].find.lFound)
    ensures Present(run[j].heap, Found(run[i].threads[t]))
    ensures var n := run[j].heap[Found(run[i].threads[t])]; n.key == run[i].threads[t].find.key && n.marked
    ensures !run[i].threads[t].ret
  {
    NotInitial(run, i, t);
    var u, a := InvStep(run, i);
    MarkSeenAtEnd(run, i - 1, t);
    if u == t {
      assert a.Go?;
      MarkSeenStep(run[i - 1], t);
      FoundAtRead(run[i - 1], t);
      j := i - 1;
    } else {
      j := MarkRead(run, i - 1, t);
    }
  }

  /** The one case in which contains answers 0 and is wrong: it has read the mark of a node whose insertion was complete when
      the call began and which is still linked. */
  ghost predicate WrongZero(run: seq<State>, t: int, c: int, i: int)
    requires InCall(run, t, c, i)
  {
    var th := run[i].threads[t];
    th.viaMark && ValidLevel(th.find.lFound) && Completed(run[c].heap, Found(th)) && Present(run[i].heap, Found(th))
  }

  /** What justifies the answer of the call of this operation and this key that t finishes at instant i. */
  ghost predicate Justified(run: seq<State>, t: int, c: int, i: int, op: Op, key: int)
    requires InCall(run, t, c, i)
  {
    var th := run[i].threads[t];
    match op
    case Contains =>
      && NoEffect(run, t, c, i)
      && (th.ret ==> SomeInstant(run, c, i, key, true))
      && (!th.ret ==> (SomeInstant(run, c, i, key, false) <==> !WrongZero(run, t, c, i)))
      && (th.viaMark ==> ValidLevel(th.find.lFound) && MarkedMeanwhile(run, c, i, Found(th)))
    case _ =>
      if th.ret then exists k :: EffectAt(run, t, c, i, k) && Changes(run, k, op, key)
      else NoEffect(run, t, c, i) && SomeInstant(run, c, i, key, op == Insert)
  }

  lemma AnswerOfDone(s: State, t: int)
    requires Inv(s) && 0 <= t < |s.threads| && s.threads[t].pc == DONE
    ensures Answer(s.threads[t], s.log)
    ensures s.threads[t].did == if s.threads[t].op != Contains && s.threads[t].ret then 1 else 0
  {
    assert ThreadInv(s.heap, s.threads[t], t, s.log);
  }

  /** The answer of every finished call is justified by an instant or an effect of its own, inside the call. */
  lemma AnswerIsJustified(run: seq<State>, i: nat, t: int)
    requires Run(run) && i < |run| && 0 <= t < |run[i].threads| && run[i].threads[t].pc == DONE
    ensures var th := run[i].threads[t];
      InCall(run, t, th.find.start, i) && Justified(run, t, th.find.start, i, th.op, th.find.key)
  {
    CallHistory(run, i, t);
    LogIsHistory(run, i);
    InstantFromLog(run, i, run[i].threads[t].find.start, run[i].threads[t].find.key);
    InvHolds(run, i);
    AnswerOfDone(run[i], t);
    if run[i].threads[t].viaMark {
      ZeroFromMark(run, i, t);
      MarkSetInCall(run, i, t);
    }
  }

  lemma ZeroFromMark(run: seq<State>, i: nat, t: int)
    requires Run(run) && i < |run| && 0 <= t < |run[i].threads| && run[i].threads[t].pc == DONE
    requires run[i].threads[t].viaMark && InCall(run, t, run[i].threads[t].find.start, i)
    ensures var th := run[i].threads[t];
      SomeInstant(run, th.find.start, i, th.find.key, false) <==> !WrongZero(run, t, th.find.start, i)
  {
    var th := run[i].threads[t];
    var j := MarkRead(run, i, t);
    CallHistory(run, j, t);
    AbsentUnlessThroughout(run, th.find.start, j, i, Found(th));
  }

  /** The mark off which contains answers 0 was set during the call: its search saw the node unmarked. */
  lemma MarkSetInCall(run: seq<State>, i: nat, t: int)
    requires Run(run) && i < |run| && 0 <= t < |run[i].threads| && run[i].threads[t].pc == DONE
    requires run[i].threads[t].viaMark
    ensures var th := run[i].threads[t]; ValidLevel(th.find.lFound) && MarkedMeanwhile(run, th.find.start, i, Found(th))
  {
    var th := run[i].threads[t];
    var j := MarkRead(run, i, t);
    SearchSawUnmarked(run, j, t);
    assert SawUnmarked(run, th.find.start, j, Found(th));
    var h :| 0 <= th.find.start <= h < j && Unmarked(run[h].heap, Found(th));
    UnmarkedThenMarked(run, h, j, Found(th));
  }

  /** A call during which the node it finds is marked throughout does not answer off that mark. */
  lemma MarkedThroughoutIsNotSeen(run: seq<State>, i: nat, t: int)
    requires Run(run) && i < |run| && 0 <= t < |run[i].threads| && run[i].threads[t].pc == DONE
    requires var th := run[i].threads[t];
      ValidLevel(th.find.lFound) && forall k :: 0 <= th.find.start <= k < i ==> !Unmarked(run[k].heap, Found(th))
    ensures !run[i].threads[t].viaMark
  {
    if run[i].threads[t].viaMark {
      MarkSetInCall(run, i, t);
    }
  }

  /** Every change of the set is the effect of a call: some thread counts it, and its key is the one that changed. */
  lemma ChangesHaveCalls(run: seq<State>, k: nat) returns (t: int)
    requires Run(run) && 0 < k < |run| && Abs(run[k].heap) != Abs(run[k - 1].heap)
    ensures 0 <= t < |run[k].threads| && |run[k].threads| == |run[k - 1].threads|
    ensures run[k - 1].threads[t].did == 0 && run[k].threads[t].did == 1 && TakesEffect(run, t, k)
  {
    var u, a := InvStep(run, k);
    StepEffect(run[k - 1], u, a);
    t := u;
    OwnStep(run[k - 1], t);
  }
}
