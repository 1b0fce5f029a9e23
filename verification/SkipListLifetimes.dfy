/** The life of one node over a run: its insertion is completed once, its key is in the set as long as it is complete and
    linked, and not at the instants at which it becomes so and ceases to be so. */
module SkipListLifetimes {
  import opened SkipListMachine
  import opened SkipListInvariant
  import opened SkipListPreservation
  import opened SkipListTheorems

  ghost predicate Completed(heap: Heap, v: Ref) {
    2 <= v < |heap| && heap[v].fullyLinked
  }

  /** Complete and still in the level-0 list. */
  ghost predicate Present(heap: Heap, v: Ref) {
    Completed(heap, v) && 0 < heap[v].now
  }

  lemma PresentIsMember(heap: Heap, v: Ref)
    requires Present(heap, v)
    ensures heap[v].key in Abs(heap)
  {
  }

  lemma StepKeepsCompleted(s: State, t: int, a: Action, v: Ref)
    requires Inv(s) && Enabled(s, t, a) && Completed(s.heap, v)
    ensures Completed(Apply(s, t, a).heap, v) && Apply(s, t, a).heap[v].key == s.heap[v].key
  {
    ApplyKeepsInv(s, t, a);
    assert NodeGuarantee(s.heap[v], Apply(s, t, a).heap[v], t);
  }

  /** Completion and key are kept for the rest of the run. */
  lemma {:induction false} StaysCompleted(run: seq<State>, i: nat, j: nat, v: Ref)
    requires Run(run) && i <= j < |run| && Completed(run[i].heap, v)
    ensures Completed(run[j].heap, v) && run[j].heap[v].key == run[i].heap[v].key
    decreases j
  {
    if i < j {
      StaysCompleted(run, i, j - 1, v);
      var t, a := InvStep(run, j);
      StepKeepsCompleted(run[j - 1], t, a, v);
    }
  }

  // ----- completion -----

  lemma EarlyCompletesNone(heap: Heap, th: Thread, t: int, v: Ref)
    requires Safe(heap, th) && th.pc <= I_LINK && Completed(ExecHeap(heap, th, t), v)
    ensures Completed(heap, v)
  {
  }

  lemma LateCompletesNone(heap: Heap, th: Thread, t: int, v: Ref)
    requires Safe(heap, th) && (HasTaken(th) && th.pc == DONE ==> ValidRef(heap, th.victim))
    requires I_FULL < th.pc && Completed(ExecHeap(heap, th, t), v)
    ensures Completed(heap, v)
  {
  }

  /** A node becomes complete at line 502 only, and just before that its key is not in the set. */
  lemma CompletionIsNew(s: State, t: int, a: Action, v: Ref)
    requires Inv(s) && Enabled(s, t, a) && !Completed(s.heap, v) && Completed(Apply(s, t, a).heap, v)
    ensures Apply(s, t, a).heap[v].key !in Abs(s.heap)
  {
    var th := s.threads[t];
    if a.Go? {
      if th.pc <= I_LINK { EarlyCompletesNone(s.heap, th, t, v); }
      else if I_FULL < th.pc { LateCompletesNone(s.heap, th, t, v); }
      StepEffect(s, t, a);
      assert ThreadInv(s.heap, th, t, s.log);
    }
  }

  /** A node that is complete at j and was not at c was completed in between, and then its key was not in the set. */
  lemma {:induction false} CompletedMeanwhile(run: seq<State>, c: nat, j: nat, v: Ref) returns (k: nat)
    requires Run(run) && c <= j < |run| && !Completed(run[c].heap, v) && Completed(run[j].heap, v)
    ensures c <= k < j && run[j].heap[v].key !in Abs(run[k].heap)
    decreases j
  {
    assert c < j;
    var t, a := InvStep(run, j);
    if Completed(run[j - 1].heap, v) {
      k := CompletedMeanwhile(run, c, j - 1, v);
      StepKeepsCompleted(run[j - 1], t, a, v);
    } else {
      k := j - 1;
      CompletionIsNew(run[j - 1], t, a, v);
    }
  }

  // ----- unlinking -----

  lemma UnlinkingTakesKey(s: State, t: int, a: Action, v: Ref)
    requires Inv(s) && Enabled(s, t, a) && Present(s.heap, v) && !Present(Apply(s, t, a).heap, v)
    ensures s.heap[v].key !in Abs(Apply(s, t, a).heap)
  {
    ApplyKeepsInv(s, t, a);
    StepKeepsCompleted(s, t, a, v);
    NeverBelowZero(Apply(s, t, a), v);
  }

  lemma NeverBelowZero(s: State, v: Ref)
    requires Inv(s) && 2 <= v < |s.heap|
    ensures 0 <= s.heap[v].now && (s.heap[v].fullyLinked ==> 0 < s.heap[v].ever)
  {
    assert NodeOk(s.heap[v]);
  }

  /** A node that is present at j and not at i was unlinked in between, and then its key was not in the set. */
  lemma {:induction false} UnlinkedMeanwhile(run: seq<State>, j: nat, i: nat, v: Ref) returns (k: nat)
    requires Run(run) && j <= i < |run| && Present(run[j].heap, v) && !Present(run[i].heap, v)
    ensures j < k <= i && run[j].heap[v].key !in Abs(run[k].heap)
    decreases i
  {
    assert j < i;
    var t, a := InvStep(run, i);
    if Present(run[i - 1].heap, v) {
      k := i;
      UnlinkingTakesKey(run[i - 1], t, a, v);
      StaysCompleted(run, j, i - 1, v);
    } else {
      k := UnlinkedMeanwhile(run, j, i - 1, v);
    }
  }

  /** A complete node that is still linked at i has had its key in the set ever since it was complete. */
  lemma PresentThroughout(run: seq<State>, c: nat, k: nat, i: nat, v: Ref)
    requires Run(run) && c <= k <= i < |run| && Completed(run[c].heap, v) && Present(run[i].heap, v)
    ensures run[c].heap[v].key in Abs(run[k].heap)
  {
    StaysCompleted(run, c, k, v);
    InvHolds(run, k);
    NeverBelowZero(run[k], v);
    if run[k].heap[v].now == 0 {
      UnlinkedForever(run, k, i, v, 0);
    }
    PresentIsMember(run[k].heap, v);
  }
}
