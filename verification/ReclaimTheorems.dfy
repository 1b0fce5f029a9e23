/** What the reclamation protocol guarantees over whole runs. */
module ReclaimTheorems {
  import opened ReclaimMachine
  import opened ReclaimSafety

  lemma StepTaken(run: seq<State>, k: nat) returns (t: int, a: Action)
    requires Run(run) && 0 < k < |run|
    ensures Enabled(run[k - 1], t, a) && run[k] == Apply(run[k - 1], t, a)
  {
    assert StepAt(run, k);
    t, a :| Enabled(run[k - 1], t, a) && run[k] == Apply(run[k - 1], t, a);
  }

  lemma {:induction false} InvHolds(run: seq<State>, k: nat)
    requires Run(run) && k < |run|
    ensures Inv(run[k]) && |run[k].workers| == |run[0].workers|
  {
    if k == 0 {
      InitHolds(run[0]);
    } else {
      InvHolds(run, k - 1);
      var t, a := StepTaken(run, k);
      StepKeepsInv(run[k - 1], t, a);
    }
  }

  lemma InvStep(run: seq<State>, k: nat) returns (t: int, a: Action)
    requires Run(run) && 0 < k < |run|
    ensures Inv(run[k - 1]) && Enabled(run[k - 1], t, a) && run[k] == Apply(run[k - 1], t, a)
  {
    InvHolds(run, k - 1);
    t, a := StepTaken(run, k);
  }

  /** The node that step number k of the run frees. */
  ghost predicate FreedAt(run: seq<State>, k: nat, p: Ptr) {
    0 < k < |run| && p in run[k - 1].mem && p !in run[k].mem
  }

  ghost predicate HeldByNone(workers: seq<Worker>, p: Ptr) {
    forall h :: 0 <= h < |workers| ==> !Holds(workers[h], p)
  }

  /** Nothing that any thread holds is freed: not behind a hazard-pointer record, not as a live root of a
      transactional operation.  And no link slot anywhere names the freed node or is part of it. */
  lemma FreedIsFree(run: seq<State>, k: nat, p: Ptr)
    requires Run(run) && FreedAt(run, k, p)
    ensures HeldByNone(run[k - 1].workers, p)
    ensures !Named(run[k - 1].slots, p) && !Named(run[k].slots, p)
    ensures forall x :: x in run[k].slots ==> x.node != p
  {
    var t, a := InvStep(run, k);
    var s, w := run[k - 1], run[k - 1].workers[t];
    assert a == ScanStep && Frees(w) && w.list[w.scan.i].ptr == p;
    forall h | 0 <= h < |s.workers| ensures !Holds(s.workers[h], p) {
      FreedIsHeldByNone(s, t, h);
    }
    assert OnList(w.list, p) && Retired(s, p);
    assert forall x :: x in s.slots ==> Storable(s, s.slots[x]);
  }

  /** What is freed waited on exactly one free list, once, and is on none afterwards: there is no double free. */
  lemma FreedOnce(run: seq<State>, k: nat, p: Ptr)
    requires Run(run) && FreedAt(run, k, p)
    ensures Retired(run[k - 1], p) && !Retired(run[k], p)
  {
    var t, a := InvStep(run, k);
    var w := run[k - 1].workers[t];
    assert a == ScanStep && Frees(w) && w.list[w.scan.i].ptr == p;
    assert OnList(w.list, p);
    if Retired(run[k], p) {
      RetiredAfter(run[k - 1], t, a, p);
    }
  }

  /** Memory safety: whatever a thread holds is allocated, in every reachable state. */
  lemma HeldIsAllocated(run: seq<State>, k: nat, h: int, p: Ptr)
    requires Run(run) && k < |run| && 0 <= h < |run[k].workers| && Holds(run[k].workers[h], p) && p != NULL
    ensures p in run[k].mem
  {
    InvHolds(run, k);
    assert HeldInMem(run[k].workers[h], run[k].mem);
  }

  /** Every link slot leads to an allocated node that nobody has retired. */
  lemma NamedIsNotRetired(run: seq<State>, k: nat, p: Ptr)
    requires Run(run) && k < |run| && Named(run[k].slots, p) && p != NULL
    ensures p in run[k].mem && !Retired(run[k], p)
  {
    InvHolds(run, k);
    assert forall x :: x in run[k].slots ==> Storable(run[k], run[k].slots[x]);
  }

  // ----- hazard pointers -----

  /** Thread h's record rec is in force throughout states i to j. */
  ghost predicate InForce(run: seq<State>, i: nat, j: nat, h: int, rec: nat) {
    i <= j < |run| && forall k :: i <= k <= j ==> 0 <= h < |run[k].workers| && rec in run[k].workers[h].sure
  }

  /** ST_HP_init returns exactly when its record holds what the source word holds at that instant. */
  lemma HpInitReturns(s: State, t: int, a: Action)
    requires Enabled(s, t, a) && WorkerOk(s.workers[t]) && a.HpCheck?
    ensures var w, v := s.workers[t], Moved(s, t, a);
      && v.hp == w.hp
      && (v.init == Idle <==> w.hp[w.init.rec] == s.slots[w.init.slot])
      && (v.init == Idle ==> w.init.rec in v.sure)
      && (v.init != Idle ==> v.sure == w.sure && v.init == Reading(w.init.rec, w.init.slot))
  {
  }

  lemma StepKeepsRecord(s: State, t: int, a: Action, rec: nat)
    requires Enabled(s, t, a) && rec in s.workers[t].sure && rec in Moved(s, t, a).sure && rec < |s.workers[t].hp|
    ensures rec < |Moved(s, t, a).hp| && Moved(s, t, a).hp[rec] == s.workers[t].hp[rec]
  {
  }

  lemma RecordInRange(run: seq<State>, k: nat, h: int, rec: nat)
    requires Run(run) && k < |run| && 0 <= h < |run[k].workers| && rec in run[k].workers[h].sure
    ensures rec < |run[k].workers[h].hp|
  {
    InvHolds(run, k);
    assert WorkerOk(run[k].workers[h]);
  }

  lemma NextRecord(run: seq<State>, k: nat, h: int, rec: nat)
    requires Run(run) && 0 < k < |run| && 0 <= h < |run[k].workers| && h < |run[k - 1].workers|
    requires rec in run[k].workers[h].sure && rec in run[k - 1].workers[h].sure
    requires rec < |run[k - 1].workers[h].hp| && rec < |run[k].workers[h].hp|
    ensures run[k].workers[h].hp[rec] == run[k - 1].workers[h].hp[rec]
  {
    var t, a := StepTaken(run, k);
    if t == h {
      StepKeepsRecord(run[k - 1], t, a, rec);
    }
  }

  /** A record in force is not rewritten. */
  lemma {:induction false} RecordStays(run: seq<State>, i: nat, j: nat, h: int, rec: nat)
    requires Run(run) && InForce(run, i, j, h, rec)
    ensures rec < |run[i].workers[h].hp| && rec < |run[j].workers[h].hp|
    ensures run[j].workers[h].hp[rec] == run[i].workers[h].hp[rec]
    decreases j
  {
    RecordInRange(run, j, h, rec);
    if i < j {
      RecordStays(run, i, j - 1, h, rec);
      NextRecord(run, j, h, rec);
    }
  }

  /** Hazard-pointer safety: from the return of ST_HP_init until the record is reset or reused, the node in the record
      stays allocated, so no scan by any thread frees it and malloc does not hand it out again. */
  lemma HazardPointerProtects(run: seq<State>, i: nat, k: nat, j: nat, h: int, rec: nat)
    requires Run(run) && InForce(run, i, j, h, rec) && i <= k <= j
    ensures rec < |run[i].workers[h].hp|
    ensures run[i].workers[h].hp[rec] != NULL ==> run[i].workers[h].hp[rec] in run[k].mem
  {
    assert InForce(run, i, k, h, rec);
    RecordStays(run, i, k, h, rec);
    var p := run[k].workers[h].hp[rec];
    if p != NULL {
      assert InRecord(run[k].workers[h].hp, run[k].workers[h].sure, p);
      HeldIsAllocated(run, k, h, p);
    }
  }

  /** The steps with which a thread lets go of a record: the reset, the reuse, and the end of the operation. */
  predicate LetsGo(w: Worker, a: Action, rec: nat) {
    || a.HpReset?
    || (a.HpPublish? && w.init.Loaded? && w.init.rec == rec)
    || (a.Stage? && w.stage == INSIDE)
  }

  /** No other step takes a record out of force. */
  lemma StaysInForce(s: State, t: int, a: Action, rec: nat)
    requires Enabled(s, t, a) && rec in s.workers[t].sure && !LetsGo(s.workers[t], a, rec)
    ensures rec in Moved(s, t, a).sure
  {
  }

  ghost predicate KeepingStep(s: State, s': State, t: int, a: Action, h: int, rec: nat) {
    Enabled(s, t, a) && s' == Apply(s, t, a) && (t == h ==> !LetsGo(s.workers[t], a, rec))
  }

  ghost predicate Keeping(s: State, s': State, h: int, rec: nat) {
    exists t, a :: KeepingStep(s, s', t, a, h, rec)
  }

  /** Step k is not one with which thread h lets go of the record. */
  ghost predicate KeptAt(run: seq<State>, k: nat, h: int, rec: nat)
    requires 0 < k < |run|
  {
    Keeping(run[k - 1], run[k], h, rec)
  }

  lemma NextInForce(run: seq<State>, k: nat, h: int, rec: nat)
    requires 0 < k < |run| && KeptAt(run, k, h, rec)
    requires 0 <= h < |run[k - 1].workers| && rec in run[k - 1].workers[h].sure
    ensures h < |run[k].workers| && rec in run[k].workers[h].sure
  {
    var t, a :| KeepingStep(run[k - 1], run[k], t, a, h, rec);
    if t == h {
      StaysInForce(run[k - 1], t, a, rec);
    }
  }

  lemma {:induction false} KeptIsInForce(run: seq<State>, i: nat, j: nat, h: int, rec: nat)
    requires i <= j < |run| && 0 <= h < |run[i].workers| && rec in run[i].workers[h].sure
    requires forall k :: i < k <= j ==> KeptAt(run, k, h, rec)
    ensures InForce(run, i, j, h, rec)
    decreases j
  {
    if i < j {
      KeptIsInForce(run, i, j - 1, h, rec);
      NextInForce(run, j, h, rec);
    }
  }

  /** Step i is the one with which thread h's ST_HP_init returns: line 293 has found the record and the source equal. */
  ghost predicate ReturnsAt(run: seq<State>, i: nat, h: int)
    requires 0 < i < |run|
  {
    && Enabled(run[i - 1], h, HpCheck) && run[i] == Apply(run[i - 1], h, HpCheck)
    && run[i].workers[h].init == Idle
  }

  ghost predicate StaysAllocated(run: seq<State>, i: nat, j: nat, p: Ptr) {
    forall k :: i <= k <= j && k < |run| ==> p in run[k].mem
  }

  /** Hazard-pointer safety of a whole call: what the source word held when ST_HP_init returned is in the record and
      stays allocated, and no step by any thread frees it, until thread h itself resets its records, uses the record
      again or finishes its operation. */
  lemma InitProtects(run: seq<State>, i: nat, j: nat, h: int, rec: nat)
    requires Run(run) && 0 < i <= j < |run| && ReturnsAt(run, i, h) && rec == run[i - 1].workers[h].init.rec
    requires forall k :: i < k <= j ==> KeptAt(run, k, h, rec)
    ensures var p := run[i - 1].slots[run[i - 1].workers[h].init.slot];
      && h < |run[j].workers| && rec < |run[j].workers[h].hp| && run[j].workers[h].hp[rec] == p
      && (p != NULL ==> StaysAllocated(run, i, j, p) && forall k :: i <= k <= j ==> !FreedAt(run, k, p))
  {
    var p := run[i - 1].slots[run[i - 1].workers[h].init.slot];
    ReturnsWithRecord(run, i, h);
    KeptIsInForce(run, i, j, h, rec);
    RecordStays(run, i, j, h, rec);
    if p != NULL {
      forall k | i <= k <= j ensures p in run[k].mem && !FreedAt(run, k, p) {
        HazardPointerProtects(run, i, k, j, h, rec);
      }
    }
  }

  lemma ReturnsWithRecord(run: seq<State>, i: nat, h: int)
    requires Run(run) && 0 < i < |run| && ReturnsAt(run, i, h)
    ensures var w, v := run[i - 1].workers[h], run[i].workers[h];
      && w.init.rec in v.sure && w.init.rec < |v.hp| && v.hp[w.init.rec] == run[i - 1].slots[w.init.slot]
  {
    InvHolds(run, i - 1);
    HpInitReturns(run[i - 1], h, HpCheck);
  }

  // ----- the scanner -----

  /** The scanner never gets stuck: while a scan is under way its next step is enabled, and every thread, counter,
      entry, record and word it is about to use is in range. */
  lemma ScanCanStep(run: seq<State>, k: nat, t: int)
    requires Run(run) && k < |run| && 0 <= t < |run[k].workers| && run[k].workers[t].scan.pc != NOT_SCANNING
    ensures Enabled(run[k], t, ScanStep)
  {
    InvHolds(run, k);
    ScanIsSafe(run[k], t);
  }

  /** Line 407: equal reads of split_counter around the scan of a thread mean one consistent view of it, so a pointer
      that was not found is not held. */
  lemma EqualSplitCounters(run: seq<State>, k: nat, t: int)
    requires Run(run) && k < |run| && 0 <= t < |run[k].workers| && run[k].workers[t].scan.pc == RECHECK
    ensures var sc := run[k].workers[t].scan;
      && sc.th < |run[k].workers| && sc.i < |run[k].workers[t].list|
      && (sc.split == run[k].workers[sc.th].splitCounter ==>
            !Holds(run[k].workers[sc.th], run[k].workers[t].list[sc.i].ptr))
  {
    InvHolds(run, k);
    var w := run[k].workers[t];
    assert ScanShape(w, |run[k].workers|);
    assert Knows(w.list, w.scan, w.scan.th, run[k].workers[w.scan.th]);
  }

  /** Line 396: a changed stack_counter means that the thread has finished an operation since the scan began, so it
      holds none of the nodes on the list and the `break` is sound. */
  lemma ChangedStackCounter(run: seq<State>, k: nat, t: int, h: int)
    requires Run(run) && k < |run| && 0 <= t < |run[k].workers| && 0 <= h < |run[k].workers[t].scan.counters|
    requires h < |run[k].workers| && run[k].workers[t].scan.counters[h] != run[k].workers[h].stackCounter
    ensures HoldsNone(run[k].workers[t].list, run[k].workers[h])
  {
    InvHolds(run, k);
    var w := run[k].workers[t];
    assert Knows(w.list, w.scan, h, run[k].workers[h]);
  }

  /** When the loops are over, every entry that no thread was found to hold is held by no thread. */
  lemma ScanIsConclusive(run: seq<State>, k: nat, t: int, h: int, e: nat)
    requires Run(run) && k < |run| && 0 <= t < |run[k].workers| && run[k].workers[t].scan.pc == FREEING
    requires 0 <= h < |run[k].workers| && e < |run[k].workers[t].list|
    ensures run[k].workers[t].list[e].found || !Holds(run[k].workers[h], run[k].workers[t].list[e].ptr)
  {
    InvHolds(run, k);
    var w := run[k].workers[t];
    assert Knows(w.list, w.scan, h, run[k].workers[h]);
  }
}
