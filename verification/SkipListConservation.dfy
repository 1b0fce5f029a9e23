/** Counting: the level-0 list against the benchmark's books (bench.c), and the final size check. */
module SkipListConservation {
  import opened SkipListMachine
  import opened SkipListInvariant
  import opened SkipListLinks
  import opened SkipListSteps
  import opened SkipListTheorems

  function Level0(heap: Heap): set<Ref> {
    set r | 0 <= r < |heap| && 0 < heap[r].now
  }

  /** What a thread has put into the set since the start, counted or not yet counted. */
  function Credit(th: Thread): int {
    th.filled + th.diff + th.bal
  }

  function TotalCredit(threads: seq<Thread>): int {
    if threads == [] then 0 else Credit(threads[0]) + TotalCredit(threads[1..])
  }

  lemma {:induction false} TotalCreditUpdate(threads: seq<Thread>, t: int, th: Thread)
    requires 0 <= t < |threads|
    ensures TotalCredit(threads[t := th]) == TotalCredit(threads) - Credit(threads[t]) + Credit(th)
  {
    var threads' := threads[t := th];
    if t == 0 {
      assert threads'[1..] == threads[1..];
    } else {
      assert threads'[1..] == threads[1..][t - 1 := th];
      TotalCreditUpdate(threads[1..], t - 1, th);
    }
  }

  /** Linked level-0 nodes, sentinels excluded, are what the threads have put in. */
  ghost predicate Balanced(s: State) {
    |Level0(s.heap)| == 2 + TotalCredit(s.threads)
  }

  // ----- one step -----

  lemma CreditOfSearch(heap: Heap, th: Thread)
    requires Safe(heap, th) && IDLE <= th.pc <= I_FOUND_FULLY && th.pc != F_CHECK
    ensures Credit(ExecThread(heap, th)) == Credit(th)
  {
  }

  lemma CreditOfCheck(heap: Heap, th: Thread)
    requires Safe(heap, th) && th.pc == F_CHECK
    ensures Credit(ExecThread(heap, th)) == Credit(th)
  {
    var th1 := th.(find := Record(th.find, th.level, th.pred, th.curr, heap[th.curr].key));
    assert Credit(th1) == Credit(th);
    assert Credit(AfterFind(th1)) == Credit(th1);
  }

  lemma CreditOfInsert(heap: Heap, th: Thread)
    requires Safe(heap, th) && I_LOCK <= th.pc <= I_FULL
    ensures Credit(ExecThread(heap, th)) == Credit(th) + if th.pc == I_LINK && th.level == 0 then 1 else 0
  {
  }

  lemma CreditOfVictim(heap: Heap, th: Thread)
    requires Safe(heap, th) && R_LOCK <= th.pc <= R_UNMARK
    ensures Credit(ExecThread(heap, th)) == Credit(th)
  {
  }

  lemma CreditOfRemove(heap: Heap, th: Thread)
    requires Safe(heap, th) && R_LOCK_PRED <= th.pc <= UNLOCK
    ensures Credit(ExecThread(heap, th)) == Credit(th) - if th.pc == R_UNLINK && th.level == 0 then 1 else 0
  {
  }

  /** Returning moves the call's balance into diff, or into the count of initial insertions. */
  lemma CreditOfReturn(th: Thread, log: seq<set<int>>)
    requires CallOk(th, log) && th.pc == DONE
    ensures Credit(DoReturn(th)) == Credit(th)
  {
  }

  lemma CreditOfStep(heap: Heap, th: Thread, log: seq<set<int>>)
    requires Safe(heap, th) && CallOk(th, log)
    ensures Credit(ExecThread(heap, th)) == Credit(th) +
      if th.pc == I_LINK && th.level == 0 then 1 else if th.pc == R_UNLINK && th.level == 0 then -1 else 0
  {
    if th.pc == F_CHECK { CreditOfCheck(heap, th); }
    else if th.pc <= I_FOUND_FULLY { CreditOfSearch(heap, th); }
    else if th.pc <= I_FULL { CreditOfInsert(heap, th); }
    else if th.pc <= R_UNMARK { CreditOfVictim(heap, th); }
    else if th.pc <= UNLOCK { CreditOfRemove(heap, th); }
    else { CreditOfReturn(th, log); }
  }

  lemma LinkLevel0(heap: Heap, p: Ref, n: Ref, level: int, t: int)
    requires Sentinels(heap) && Nodes(heap) && LinkPre(heap, p, n, level, t)
    ensures |Level0(Link(heap, p, n, level))| == |Level0(heap)| + if level == 0 then 1 else 0
  {
    var heap' := Link(heap, p, n, level);
    assert Level0(heap') == Level0(heap) + {n};
    assert n in Level0(heap) <==> level > 0;
    if level > 0 { assert Level0(heap) + {n} == Level0(heap); }
  }

  lemma UnlinkLevel0(heap: Heap, p: Ref, v: Ref, level: int, succ: Ref, t: int)
    requires UnlinkPre(heap, p, v, level, t)
    ensures |Level0(Unlinked(heap, p, v, level, succ, t))| == |Level0(heap)| - if level == 0 then 1 else 0
  {
    var heap' := Unlinked(heap, p, v, level, succ, t);
    assert Level0(heap') == if level == 0 then Level0(heap) - {v} else Level0(heap);
  }

  lemma Level0OfStep(heap: Heap, th: Thread, t: int, log: seq<set<int>>)
    requires HeapInv(heap) && ThreadInv(heap, th, t, log) && t >= 0 && th.pc != IDLE && !Blocked(heap, th)
    ensures Safe(heap, th) && (HasTaken(th) && th.pc == DONE ==> ValidRef(heap, th.victim))
    ensures |Level0(ExecHeap(heap, th, t))| == |Level0(heap)| +
      if th.pc == I_LINK && th.level == 0 then 1 else if th.pc == R_UNLINK && th.level == 0 then -1 else 0
  {
    SafeWhenInvariant(heap, th, t, log);
    if th.pc == I_LINK {
      ILinkPre(heap, th, t, log);
      LinkLevel0(heap, th.find.preds[th.level], th.newNode, th.level, t);
    } else if th.pc == R_UNLINK {
      RUnlinkPre(heap, th, t, log);
      UnlinkLevel0(heap, th.find.preds[th.level], th.victim, th.level, th.tmp, t);
    } else {
      SameLevel0(heap, th, t);
    }
  }

  lemma SameLevel0(heap: Heap, th: Thread, t: int)
    requires Safe(heap, th) && (HasTaken(th) && th.pc == DONE ==> ValidRef(heap, th.victim))
    requires th.pc != R_UNLINK && th.pc != I_LINK
    ensures Level0(ExecHeap(heap, th, t)) == Level0(heap)
  {
    var heap' := ExecHeap(heap, th, t);
    assert forall r :: 0 <= r < |heap| ==> heap'[r].now == heap[r].now;
    assert forall r :: |heap| <= r < |heap'| ==> heap'[r].now == 0;
  }

  lemma BalanceKept(s: State, t: int, a: Action)
    requires Inv(s) && Enabled(s, t, a) && Balanced(s)
    ensures Balanced(Apply(s, t, a))
  {
    var th := s.threads[t];
    assert ThreadInv(s.heap, th, t, s.log);
    TotalCreditUpdate(s.threads, t, Apply(s, t, a).threads[t]);
    if a.Go? {
      Level0OfStep(s.heap, th, t, s.log);
      CreditOfStep(s.heap, th, s.log);
    }
  }

  lemma {:induction false} NoCreditAtRest(threads: seq<Thread>)
    requires forall t :: 0 <= t < |threads| ==> threads[t] == RESTING
    ensures TotalCredit(threads) == 0
  {
    if threads != [] {
      assert threads[0] == RESTING;
      NoCreditAtRest(threads[1..]);
    }
  }

  /** Conservation: at every instant of every run the level-0 list, sentinels excluded, has as many nodes as the
      threads have inserted less those they have removed, whether counted in diff already or still in flight. */
  lemma {:induction false} Conservation(run: seq<State>, i: nat)
    requires Run(run) && i < |run|
    ensures |Level0(run[i].heap)| == 2 + TotalCredit(run[i].threads)
  {
    if i == 0 {
      NoCreditAtRest(run[0].threads);
      assert Level0(INITIAL_HEAP) == {HEAD, TAIL};
    } else {
      Conservation(run, i - 1);
      ConservationNext(run, i);
    }
  }

  lemma ConservationNext(run: seq<State>, i: nat)
    requires Run(run) && 0 < i < |run| && Balanced(run[i - 1])
    ensures Balanced(run[i])
  {
    var t, a := InvStep(run, i);
    BalanceKept(run[i - 1], t, a);
  }

  // ----- the final size check -----

  /** No call is under way. */
  ghost predicate Quiescent(s: State) {
    forall t :: 0 <= t < |s.threads| ==> s.threads[t].pc == IDLE
  }

  function TotalFilled(threads: seq<Thread>): int {
    if threads == [] then 0 else threads[0].filled + TotalFilled(threads[1..])
  }

  function TotalDiff(threads: seq<Thread>): int {
    if threads == [] then 0 else threads[0].diff + TotalDiff(threads[1..])
  }

  lemma {:induction false} CreditAtQuiescence(threads: seq<Thread>)
    requires forall t :: 0 <= t < |threads| ==> threads[t].bal == 0
    ensures TotalCredit(threads) == TotalFilled(threads) + TotalDiff(threads)
  {
    if threads != [] { CreditAtQuiescence(threads[1..]); }
  }

  lemma {:induction false} ChainSize(heap: Heap, c: seq<Ref>)
    requires Increasing(heap, c) && forall r :: r in c <==> Linked(heap, r, 0)
    ensures |Level0(heap)| == |c|
  {
    assert Level0(heap) == set r | r in c by {
      forall r ensures r in Level0(heap) <==> r in c {
        assert r in c <==> Linked(heap, r, 0);
      }
    }
    DistinctSize(heap, c);
  }

  lemma {:induction false} DistinctSize(heap: Heap, c: seq<Ref>)
    requires Increasing(heap, c)
    ensures |set r | r in c| == |c|
  {
    if c != [] {
      var rest := c[..|c| - 1];
      var last := c[|c| - 1];
      DistinctSize(heap, rest);
      assert last !in rest by {
        forall i | 0 <= i < |rest| ensures rest[i] != last { assert heap[c[i]].key < heap[last].key; }
      }
      assert (set r | r in c) == (set r | r in rest) + {last};
    }
  }

  lemma ChainEnds(heap: Heap, c: seq<Ref>, l: int, n: nat)
    requires Sentinels(heap) && IsChain(heap, c, l) && n < |c|
    ensures heap[c[n]].next[l] == NULL <==> n == |c| - 1
  {
    if n + 1 < |c| { ChainStepValid(heap, c, l, n); }
  }

  /** skiplist_size: it counts the level-0 nodes between the sentinels. */
  method SkiplistSize(s: State) returns (n: int)
    requires Inv(s)
    ensures n == |Level0(s.heap)| - 2
  {
    ghost var c := LevelIsSortedList(s, 0);
    ChainSize(s.heap, c);
    n := 0;
    var node := HEAD;
    ChainEnds(s.heap, c, 0, 0);
    while s.heap[node].next[0] != NULL
      invariant 0 <= n < |c| && node == c[n]
      invariant s.heap[node].next[0] == NULL <==> n == |c| - 1
      decreases |c| - n
    {
      n := n + 1;
      node := s.heap[node].next[0];
      ChainEnds(s.heap, c, 0, n);
    }
    n := n - 1;
  }

  /** At quiescence every effect has been counted. */
  lemma AtRest(s: State, run: seq<State>)
    requires Run(run) && s == run[|run| - 1] && Quiescent(s)
    ensures Inv(s) && |Level0(s.heap)| == 2 + TotalFilled(s.threads) + TotalDiff(s.threads)
  {
    InvHolds(run, |run| - 1);
    Conservation(run, |run| - 1);
    forall t | 0 <= t < |s.threads| ensures s.threads[t].bal == 0 {
      assert ThreadInv(s.heap, s.threads[t], t, s.log);
    }
    CreditAtQuiescence(s.threads);
  }

  /** The last lines of main, when a run has come to rest: add up the threads' diffs and compare with the size of the
      list. */
  method FinalCheck(s: State, initial: int, ghost run: seq<State>) returns (curSize: int, size: int)
    requires Run(run) && s == run[|run| - 1] && Quiescent(s)
    ensures size == initial + TotalDiff(s.threads)
    ensures curSize == TotalFilled(s.threads) + TotalDiff(s.threads)
    ensures curSize == size <==> initial == TotalFilled(s.threads)
  {
    AtRest(s, run);
    size := initial;
    var i := 0;
    while i < |s.threads|
      invariant 0 <= i <= |s.threads|
      invariant size + TotalDiff(s.threads[i..]) == initial + TotalDiff(s.threads)
    {
      size := size + s.threads[i].diff;
      i := i + 1;
    }
    curSize := SkiplistSize(s);
  }
}
