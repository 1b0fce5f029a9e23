/** The marks that an operation has read, over whole runs: every predecessor and successor that a search records was
    unmarked at an instant of the call, and so, later, were the nodes that an insertion relies on. */
module SkipListMarks {
  import opened SkipListMachine
  import opened SkipListInvariant
  import opened SkipListPreservation
  import opened SkipListTheorems
  import opened SkipListSearches

  ghost predicate Unmarked(heap: Heap, r: Ref) {
    ValidRef(heap, r) && !heap[r].marked
  }

  /** At some instant from c on, before i, the node was unmarked. */
  ghost predicate SawUnmarked(run: seq<State>, c: int, i: int, r: Ref) {
    exists j :: 0 <= c <= j < i < |run| && Unmarked(run[j].heap, r)
  }

  /** Levels lo and above of both arrays name nodes that were unmarked at some instant. */
  ghost predicate RowsSeen(run: seq<State>, i: int, find: Find, lo: int) {
    forall l :: 0 <= lo <= l < MAX_LEVEL ==>
      SawUnmarked(run, find.start, i, find.preds[l]) && SawUnmarked(run, find.start, i, find.succs[l])
  }

  ghost predicate Seen(run: seq<State>, i: int, th: Thread) {
    if th.pc == F_NEXT || th.pc == F_CHECK then
      SawUnmarked(run, th.find.start, i, th.pred) && RowsSeen(run, i, th.find, th.level + 1)
    else F_CHECK < th.pc ==> RowsSeen(run, i, th.find, 0)
  }

  lemma UnmarkedEarlier(run: seq<State>, c: int, h: int, i: int, r: Ref)
    requires SawUnmarked(run, c, h, r) && h <= i < |run|
    ensures SawUnmarked(run, c, i, r)
  {
  }

  lemma SeenEarlierToo(run: seq<State>, h: int, i: int, th: Thread)
    requires Seen(run, h, th) && h <= i < |run|
    ensures Seen(run, i, th)
  {
    forall c, r | SawUnmarked(run, c, h, r) ensures SawUnmarked(run, c, i, r) {
      UnmarkedEarlier(run, c, h, i, r);
    }
  }

  /** Reading p_curr->marked, and the key: what the search makes of an unmarked node. */
  lemma CheckSees(run: seq<State>, i: nat, th: Thread)
    requires 0 < i < |run| && Seen(run, i, th) && th.pc == F_CHECK && Safe(run[i - 1].heap, th)
    requires 0 <= th.find.start <= i - 1
    ensures Seen(run, i, DoFCheck(run[i - 1].heap, th))
  {
    var heap := run[i - 1].heap;
    if !heap[th.curr].marked {
      assert Unmarked(heap, th.curr);
      assert SawUnmarked(run, th.find.start, i, th.curr);
      if th.find.key <= heap[th.curr].key {
        var th1 := th.(find := Record(th.find, th.level, th.pred, th.curr, heap[th.curr].key));
        assert RowsSeen(run, i, th1.find, th.level);
        if th.level == 0 {
          AfterFindKeeps(th1);
        }
      }
    }
  }

  lemma AfterFindKeeps(th: Thread)
    ensures AfterFind(th).find == th.find && (AfterFind(th).pc > F_CHECK || AfterFind(th) == th)
  {
  }

  /** One step of the thread itself. */
  lemma StepSees(run: seq<State>, i: nat, th: Thread)
    requires 0 < i < |run| && Seen(run, i, th) && IDLE < th.pc < DONE && Safe(run[i - 1].heap, th)
    requires 0 <= th.find.start <= i - 1
    ensures Seen(run, i, ExecThread(run[i - 1].heap, th))
  {
    var heap := run[i - 1].heap;
    if th.pc == F_START {
      if !heap[HEAD].marked {
        assert Unmarked(heap, HEAD);
      }
    } else if th.pc == F_CHECK {
      CheckSees(run, i, th);
    } else if F_CHECK < th.pc {
      FindKept(heap, th);
    }
  }

  lemma OwnStepSees(run: seq<State>, i: nat, t: int, a: Action)
    requires 0 < i < |run| && Inv(run[i - 1]) && Enabled(run[i - 1], t, a) && run[i] == Apply(run[i - 1], t, a)
    requires run[i].threads[t].pc != IDLE && (a.Go? ==> Seen(run, i, run[i - 1].threads[t]))
    requires a.Go? ==> 0 <= run[i - 1].threads[t].find.start <= i - 1
    ensures Seen(run, i, run[i].threads[t])
  {
    if a.Go? {
      StepSees(run, i, run[i - 1].threads[t]);
    }
  }

  /** Whatever a search has recorded was unmarked at an instant of its call: the predecessor it is at, and every level of
      both arrays that it has filled in. */
  lemma {:induction false} SearchSawUnmarked(run: seq<State>, i: nat, t: int)
    requires Run(run) && i < |run| && 0 <= t < |run[i].threads| && run[i].threads[t].pc != IDLE
    ensures Seen(run, i, run[i].threads[t])
  {
    NotInitial(run, i, t);
    var u, a := InvStep(run, i);
    if u != t || a.Go? {
      assert Seen(run, i, run[i - 1].threads[t]) by {
        SearchSawUnmarked(run, i - 1, t);
        SeenEarlierToo(run, i - 1, i, run[i - 1].threads[t]);
      }
      StartedBefore(run, i - 1, t);
    }
    if u == t {
      OwnStepSees(run, i, t, a);
    }
  }

  lemma StartedBefore(run: seq<State>, i: nat, t: int)
    requires Run(run) && i < |run| && 0 <= t < |run[i].threads| && run[i].threads[t].pc != IDLE
    ensures 0 <= run[i].threads[t].find.start <= i
  {
    InvHolds(run, i);
    LogIsHistory(run, i);
    assert ThreadInv(run[i].heap, run[i].threads[t], t, run[i].log);
  }

  // ----- the level at which the key was found -----

  /** lFound is the highest level at which the search met the key; above it the successors lie beyond the key. */
  ghost predicate Topmost(heap: Heap, find: Find, lo: int) {
    && (find.lFound == -1 || 0 <= lo <= find.lFound < MAX_LEVEL)
    && (forall l :: 0 <= lo <= l < MAX_LEVEL ==> ValidRef(heap, find.succs[l]))
    && (forall l :: 0 <= lo <= l < MAX_LEVEL && find.lFound < l ==> find.key < heap[find.succs[l]].key)
    && (find.lFound != -1 ==> heap[find.succs[find.lFound]].key == find.key)
  }

  ghost predicate Ranked(heap: Heap, th: Thread) {
    if th.pc == F_NEXT || th.pc == F_CHECK then 0 <= th.level < MAX_LEVEL && Topmost(heap, th.find, th.level + 1)
    else F_CHECK < th.pc ==> Topmost(heap, th.find, 0)
  }

  lemma CheckRanks(heap: Heap, th: Thread)
    requires Ranked(heap, th) && th.pc == F_CHECK && Safe(heap, th)
    ensures Ranked(heap, DoFCheck(heap, th))
  {
    if !heap[th.curr].marked && th.find.key <= heap[th.curr].key {
      var th1 := th.(find := Record(th.find, th.level, th.pred, th.curr, heap[th.curr].key));
      assert Topmost(heap, th1.find, th.level);
      if th.level == 0 {
        AfterFindKeeps(th1);
      }
    }
  }

  lemma StepRanks(heap: Heap, th: Thread)
    requires Ranked(heap, th) && IDLE < th.pc < DONE && Safe(heap, th)
    ensures Ranked(heap, ExecThread(heap, th))
  {
    if th.pc == F_CHECK {
      CheckRanks(heap, th);
    } else if F_CHECK < th.pc {
      FindKept(heap, th);
      SameRank(heap, th, ExecThread(heap, th));
    }
  }

  lemma SameRank(heap: Heap, th: Thread, th': Thread)
    requires Ranked(heap, th) && F_CHECK < th.pc && th'.find == th.find && th'.pc !in {F_NEXT, F_CHECK}
    ensures Ranked(heap, th')
  {
  }

  lemma RankedStays(s: State, t: int, a: Action, th: Thread)
    requires Inv(s) && Enabled(s, t, a) && Ranked(s.heap, th)
    ensures Ranked(Apply(s, t, a).heap, th)
  {
    forall r | ValidRef(s.heap, r)
      ensures ValidRef(Apply(s, t, a).heap, r) && Apply(s, t, a).heap[r].key == s.heap[r].key
    {
      KeyStays(s, t, a, r);
    }
  }

  /** The level that a search reports is the highest at which it met the key. */
  lemma {:induction false} FoundIsTopmost(run: seq<State>, i: nat, t: int)
    requires Run(run) && i < |run| && 0 <= t < |run[i].threads| && run[i].threads[t].pc != IDLE
    ensures Ranked(run[i].heap, run[i].threads[t])
  {
    NotInitial(run, i, t);
    var u, a := InvStep(run, i);
    if u != t || a.Go? {
      FoundIsTopmost(run, i - 1, t);
    }
    RankedNext(run, i, t, u, a);
  }

  lemma RankedNext(run: seq<State>, i: nat, t: int, u: int, a: Action)
    requires 0 < i < |run| && Inv(run[i - 1]) && Enabled(run[i - 1], u, a) && run[i] == Apply(run[i - 1], u, a)
    requires 0 <= t < |run[i - 1].threads| && run[i].threads[t].pc != IDLE
    requires u != t || a.Go? ==> Ranked(run[i - 1].heap, run[i - 1].threads[t])
    ensures Ranked(run[i].heap, run[i].threads[t])
  {
    if u != t || a.Go? {
      NextRanked(run[i - 1], u, a, t);
    }
  }

  lemma NextRanked(s: State, u: int, a: Action, t: int)
    requires Inv(s) && Enabled(s, u, a) && 0 <= t < |s.threads| && Apply(s, u, a).threads[t].pc != IDLE
    requires (u != t || a.Go?) && Ranked(s.heap, s.threads[t])
    ensures Ranked(Apply(s, u, a).heap, Apply(s, u, a).threads[t])
  {
    var th' := Apply(s, u, a).threads[t];
    if u == t {
      StepRanks(s.heap, s.threads[t]);
    }
    RankedStays(s, u, a, th');
  }

  // ----- what an insertion has read before it links or gives up -----

  /** Up to which level an insertion has tested the marks of the recorded successors. */
  ghost function SuccsTested(th: Thread): int {
    if I_LOCK <= th.pc <= I_SUCC_MARKED then th.level
    else if th.pc == I_PRED_NEXT then th.level + 1
    else if I_ALLOC <= th.pc <= I_FULL then th.topLevel + 1
    else 0
  }

  /** At some instant of the call the thread held the level's predecessor and the successor was unmarked. */
  ghost predicate TestedUnderLock(run: seq<State>, i: int, t: int, find: Find, l: int)
    requires ValidLevel(l)
  {
    exists j :: 0 <= find.start <= j < i < |run| && Held(run[j].heap, find.preds[l], t) && Unmarked(run[j].heap, find.succs[l])
  }

  ghost predicate SuccsSeen(run: seq<State>, i: int, t: int, th: Thread) {
    forall l :: 0 <= l < SuccsTested(th) && l < MAX_LEVEL ==> TestedUnderLock(run, i, t, th.find, l)
  }

  lemma TestedEarlier(run: seq<State>, h: int, i: int, t: int, th: Thread)
    requires SuccsSeen(run, h, t, th) && h <= i < |run|
    ensures SuccsSeen(run, i, t, th)
  {
    forall l | 0 <= l < SuccsTested(th) && l < MAX_LEVEL ensures TestedUnderLock(run, i, t, th.find, l) {
      assert TestedUnderLock(run, h, t, th.find, l);
    }
  }

  lemma TestHoldsPred(s: State, t: int)
    requires Inv(s) && 0 <= t < |s.threads| && s.threads[t].pc == I_SUCC_MARKED
    ensures ValidLevel(s.threads[t].level) && Held(s.heap, s.threads[t].find.preds[s.threads[t].level], t)
  {
    var th := s.threads[t];
    assert ThreadInv(s.heap, th, t, s.log);
    assert Brackets(s.heap, th.find, th.level);
    assert AmongPreds(th.find.preds, 0, th.highest, th.find.preds[th.level]);
  }

  /** How far the tests have come after a step: one level further only where the step has read an unmarked successor. */
  ghost predicate Advances(heap: Heap, th: Thread, th': Thread)
    requires Safe(heap, th)
  {
    0 < SuccsTested(th') ==>
      && th'.find == th.find
      && (SuccsTested(th') <= SuccsTested(th)
          || (th.pc == I_SUCC_MARKED && th'.pc == I_PRED_NEXT && th'.level == th.level
              && !heap[th.find.succs[th.level]].marked))
  }

  lemma SearchAdvances(heap: Heap, th: Thread)
    requires Safe(heap, th) && IDLE < th.pc <= I_FOUND_FULLY
    ensures Advances(heap, th, ExecThread(heap, th))
  {
    if th.pc == F_CHECK {
      var th1 := th.(find := Record(th.find, th.level, th.pred, th.curr, heap[th.curr].key));
      assert SuccsTested(AfterFind(th1)) == 0;
    }
  }

  lemma InsertAdvances(heap: Heap, th: Thread)
    requires Safe(heap, th) && I_LOCK <= th.pc <= I_FULL
    ensures Advances(heap, th, ExecThread(heap, th))
  {
  }

  lemma RemoveAdvances(heap: Heap, th: Thread)
    requires Safe(heap, th) && R_LOCK <= th.pc < DONE
    ensures Advances(heap, th, ExecThread(heap, th))
  {
  }

  lemma TestsNext(run: seq<State>, i: nat, t: int)
    requires 0 < i < |run| && 0 <= t < |run[i - 1].threads| && Inv(run[i - 1]) && Enabled(run[i - 1], t, Go)
    requires SuccsSeen(run, i, t, run[i - 1].threads[t]) && run[i - 1].threads[t].pc != DONE
    requires 0 <= run[i - 1].threads[t].find.start <= i - 1
    ensures SuccsSeen(run, i, t, ExecThread(run[i - 1].heap, run[i - 1].threads[t]))
  {
    var s, th := run[i - 1], run[i - 1].threads[t];
    if th.pc <= I_FOUND_FULLY { SearchAdvances(s.heap, th); }
    else if th.pc <= I_FULL { InsertAdvances(s.heap, th); }
    else { RemoveAdvances(s.heap, th); }
    if th.pc == I_SUCC_MARKED {
      TestHoldsPred(s, t);
    }
    SuccsOneMore(run, i, t, th, ExecThread(s.heap, th));
  }

  lemma SuccsOneMore(run: seq<State>, i: nat, t: int, th: Thread, th': Thread)
    requires 0 < i < |run| && SuccsSeen(run, i, t, th) && Safe(run[i - 1].heap, th) && Advances(run[i - 1].heap, th, th')
    requires 0 <= th.find.start <= i - 1
    requires th.pc == I_SUCC_MARKED ==> ValidLevel(th.level) && Held(run[i - 1].heap, th.find.preds[th.level], t)
    ensures SuccsSeen(run, i, t, th')
  {
    forall l | 0 <= l < SuccsTested(th') && l < MAX_LEVEL ensures TestedUnderLock(run, i, t, th'.find, l) {
      if SuccsTested(th) <= l {
        assert Unmarked(run[i - 1].heap, th.find.succs[l]);
      }
    }
  }

  /** An insertion goes beyond a level only after it has read the successor's mark clear while it held the predecessor's
      lock; so before it links the node it has done so at every level. */
  lemma {:induction false} InsertionTestsSuccs(run: seq<State>, i: nat, t: int)
    requires Run(run) && i < |run| && 0 <= t < |run[i].threads| && run[i].threads[t].pc != IDLE
    ensures SuccsSeen(run, i, t, run[i].threads[t])
  {
    NotInitial(run, i, t);
    var u, a := InvStep(run, i);
    if u != t || a.Go? {
      assert SuccsSeen(run, i, t, run[i - 1].threads[t]) by {
        InsertionTestsSuccs(run, i - 1, t);
        TestedEarlier(run, i - 1, i, t, run[i - 1].threads[t]);
      }
      if u == t {
        StartedBefore(run, i - 1, t);
        TestsNext(run, i, t);
      }
    }
  }

  /** An insertion that will answer NULL, or has its answer. */
  predicate Refusing(th: Thread) {
    th.op.Insert? && (th.pc == I_FOUND_FULLY || (th.pc == DONE && !th.ret))
  }

  /** At some instant of the call, after its search, the node found was unmarked. */
  ghost predicate StoodAfterSearch(run: seq<State>, i: int, t: int, find: Find)
    requires ValidLevel(find.lFound)
  {
    exists j :: 0 <= find.start <= j < i < |run| && UnmarkedAfterSearch(run, j, t, find)
  }

  ghost predicate UnmarkedAfterSearch(run: seq<State>, j: int, t: int, find: Find)
    requires ValidLevel(find.lFound)
  {
    && 0 <= j < |run| && 0 <= t < |run[j].threads| && F_CHECK < run[j].threads[t].pc && run[j].threads[t].find == find
    && Unmarked(run[j].heap, find.succs[find.lFound])
  }

  ghost predicate Refused(run: seq<State>, i: int, t: int, th: Thread)
    requires 0 <= i < |run|
  {
    Refusing(th) ==>
      && ValidLevel(th.find.lFound) && StoodAfterSearch(run, i, t, th.find)
      && (th.pc == DONE ==> Complete(run[i].heap, th.find.succs[th.find.lFound]))
  }

  ghost predicate Complete(heap: Heap, r: Ref) {
    ValidRef(heap, r) && heap[r].fullyLinked
  }

  lemma FindRefusesNot(heap: Heap, th: Thread)
    requires Safe(heap, th) && IDLE < th.pc <= F_CHECK
    ensures !Refusing(ExecThread(heap, th))
  {
    if th.pc == F_CHECK {
      var th1 := th.(find := Record(th.find, th.level, th.pred, th.curr, heap[th.curr].key));
      assert !Refusing(AfterFind(th1));
    }
  }

  lemma ContainsRefusesNot(heap: Heap, th: Thread, log: seq<set<int>>)
    requires Safe(heap, th) && (th.pc == C_FULLY || th.pc == C_MARKED) && FoundPhase(heap, th, log)
    ensures !Refusing(ExecThread(heap, th))
  {
  }

  lemma FoundRefuses(heap: Heap, th: Thread)
    requires Safe(heap, th) && (th.pc == I_FOUND_MARKED || th.pc == I_FOUND_FULLY)
    ensures var th' := ExecThread(heap, th);
      Refusing(th') ==>
        && th'.find == th.find && ValidLevel(th.find.lFound)
        && (th.pc == I_FOUND_MARKED ==> th'.pc == I_FOUND_FULLY && Unmarked(heap, th.find.succs[th.find.lFound]))
        && (th.pc == I_FOUND_FULLY ==> Refusing(th))
        && (th'.pc == DONE ==> Complete(heap, th.find.succs[th.find.lFound]))
  {
  }

  lemma InsertRefusesNot(heap: Heap, th: Thread)
    requires Safe(heap, th) && I_LOCK <= th.pc <= I_FULL
    ensures !Refusing(ExecThread(heap, th))
  {
  }

  lemma RemoveRefusesNot(heap: Heap, th: Thread, t: int, log: seq<set<int>>)
    requires Safe(heap, th) && R_LOCK <= th.pc < DONE && ThreadInv(heap, th, t, log)
    ensures !Refusing(ExecThread(heap, th))
  {
  }

  lemma RefusesNext(run: seq<State>, i: nat, t: int)
    requires 0 < i < |run| && 0 <= t < |run[i - 1].threads| && Inv(run[i - 1]) && Enabled(run[i - 1], t, Go)
    requires run[i] == Apply(run[i - 1], t, Go) && run[i - 1].threads[t].pc != DONE
    requires Refused(run, i - 1, t, run[i - 1].threads[t]) && 0 <= run[i - 1].threads[t].find.start <= i - 1
    ensures Refused(run, i, t, run[i].threads[t])
  {
    var s, th := run[i - 1], run[i - 1].threads[t];
    assert ThreadInv(s.heap, th, t, s.log);
    if th.pc <= F_CHECK {
      FindRefusesNot(s.heap, th);
    } else if th.pc <= C_MARKED {
      ContainsRefusesNot(s.heap, th, s.log);
    } else if th.pc <= I_FOUND_FULLY {
      FoundRefuses(s.heap, th);
      if th.pc == I_FOUND_MARKED && Refusing(run[i].threads[t]) {
        assert UnmarkedAfterSearch(run, i - 1, t, th.find);
      } else if Refusing(th) {
        StoodEarlier(run, i - 1, i, t, th.find);
      }
    } else if th.pc <= I_FULL {
      InsertRefusesNot(s.heap, th);
    } else {
      RemoveRefusesNot(s.heap, th, t, s.log);
    }
    CompleteStays(s, t, Go);
  }

  lemma StoodEarlier(run: seq<State>, h: int, i: int, t: int, find: Find)
    requires ValidLevel(find.lFound) && StoodAfterSearch(run, h, t, find) && h <= i < |run|
    ensures StoodAfterSearch(run, i, t, find)
  {
  }

  lemma CompleteStays(s: State, t: int, a: Action)
    requires Inv(s) && Enabled(s, t, a)
    ensures forall r :: Complete(s.heap, r) ==> Complete(Apply(s, t, a).heap, r)
  {
    ApplyKeepsInv(s, t, a);
    forall r | Complete(s.heap, r) ensures Complete(Apply(s, t, a).heap, r) {
      assert NodeGuarantee(s.heap[r], Apply(s, t, a).heap[r], t);
    }
  }

  /** An insertion that answers NULL has, after its search, found the node with its key unmarked, and then complete. */
  lemma {:induction false} RefusalIsTested(run: seq<State>, i: nat, t: int)
    requires Run(run) && i < |run| && 0 <= t < |run[i].threads| && run[i].threads[t].pc != IDLE
    ensures Refused(run, i, t, run[i].threads[t])
  {
    NotInitial(run, i, t);
    var u, a := InvStep(run, i);
    if u != t || a.Go? {
      RefusalIsTested(run, i - 1, t);
      if u == t {
        StartedBefore(run, i - 1, t);
        RefusesNext(run, i, t);
      } else {
        RefusedStays(run, i, u, a, t);
      }
    }
  }

  lemma RefusedStays(run: seq<State>, i: nat, u: int, a: Action, t: int)
    requires 0 < i < |run| && Inv(run[i - 1]) && Enabled(run[i - 1], u, a) && run[i] == Apply(run[i - 1], u, a)
    requires u != t && 0 <= t < |run[i - 1].threads| && Refused(run, i - 1, t, run[i - 1].threads[t])
    ensures Refused(run, i, t, run[i].threads[t])
  {
    CompleteStays(run[i - 1], u, a);
    var th := run[i].threads[t];
    if Refusing(th) {
      StoodEarlier(run, i - 1, i, t, th.find);
    }
  }

  // ----- when a mark was set -----

  /** Some step after c, up to i, sets the node's mark. */
  ghost predicate MarkedMeanwhile(run: seq<State>, c: int, i: int, r: Ref) {
    exists k :: 0 <= c < k <= i < |run| && MarkedAt(run, k, r)
  }

  ghost predicate MarkedAt(run: seq<State>, k: int, r: Ref) {
    0 < k < |run| && Unmarked(run[k - 1].heap, r) && ValidRef(run[k].heap, r) && run[k].heap[r].marked
  }

  lemma RefsStay(run: seq<State>, k: nat, r: Ref)
    requires Run(run) && 0 < k < |run| && ValidRef(run[k - 1].heap, r)
    ensures ValidRef(run[k].heap, r)
  {
    var t, a := InvStep(run, k);
    KeyStays(run[k - 1], t, a, r);
  }

  lemma {:induction false} UnmarkedThenMarked(run: seq<State>, j: nat, i: nat, r: Ref)
    requires Run(run) && j <= i < |run| && Unmarked(run[j].heap, r)
    ensures ValidRef(run[i].heap, r)
    ensures run[i].heap[r].marked ==> MarkedMeanwhile(run, j, i, r)
    decreases i
  {
    if j < i {
      UnmarkedThenMarked(run, j, i - 1, r);
      RefsStay(run, i, r);
      if run[i].heap[r].marked && !run[i - 1].heap[r].marked {
        assert MarkedAt(run, i, r);
      }
    }
  }
}
