/** What holds of one thread survives every step of another. */
module SkipListStability {
  import opened SkipListMachine
  import opened SkipListInvariant

  /** One step of thread t. */
  ghost predicate StepOf(heap: Heap, heap': Heap, t: int, log: seq<set<int>>, log': seq<set<int>>) {
    && Nodes(heap) && Sentinels(heap) && Nodes(heap') && Sentinels(heap')
    && Guarantee(heap, heap', t)
    && log' == log + [Abs(heap')]
  }

  /** One step of thread t, seen from another thread u. */
  ghost predicate Interference(heap: Heap, heap': Heap, t: int, u: int, log: seq<set<int>>, log': seq<set<int>>) {
    t != u && u >= 0 && StepOf(heap, heap', t, log, log')
  }

  lemma SawAbsentKept(log: seq<set<int>>, log': seq<set<int>>, start: int, key: int)
    requires log <= log'
    ensures SawAbsent(log, start, key) ==> SawAbsent(log', start, key)
    ensures SawPresent(log, start, key) ==> SawPresent(log', start, key)
  {
    if SawAbsent(log, start, key) {
      var i :| 0 <= start <= i < |log| && key !in log[i];
      assert key !in log'[i];
    }
    if SawPresent(log, start, key) {
      var i :| 0 <= start <= i < |log| && key in log[i];
      assert key in log'[i];
    }
  }

  lemma SeeAbsent(log: seq<set<int>>, start: int, key: int)
    requires 0 <= start < |log| && key !in log[|log| - 1]
    ensures SawAbsent(log, start, key)
  {
  }

  lemma SeePresent(log: seq<set<int>>, start: int, key: int)
    requires 0 <= start < |log| && key in log[|log| - 1]
    ensures SawPresent(log, start, key)
  {
  }

  lemma HeldKept(heap: Heap, heap': Heap, t: int, u: int, r: Ref)
    requires Guarantee(heap, heap', t) && t != u && ValidRef(heap', r)
    ensures Held(heap', r, u) <==> Held(heap, r, u)
  {
    if r < |heap| {
      assert NodeGuarantee(heap[r], heap'[r], t);
    }
  }

  lemma RowKept(heap: Heap, heap': Heap, t: int, find: Find, lo: int)
    requires Guarantee(heap, heap', t) && RowOk(heap, find, lo)
    ensures RowOk(heap', find, lo)
  {
    forall l | 0 <= lo <= l < MAX_LEVEL ensures Brackets(heap', find, l) {
      assert Brackets(heap, find, l);
      assert NodeGuarantee(heap[find.preds[l]], heap'[find.preds[l]], t);
      assert NodeGuarantee(heap[find.succs[l]], heap'[find.succs[l]], t);
    }
    forall i, j | 0 <= lo <= i < j < MAX_LEVEL
      ensures find.preds[i] == find.preds[j] || KeyBelow(heap', find.preds[j], find.preds[i])
    {
      assert Brackets(heap, find, i) && Brackets(heap, find, j);
    }
  }

  lemma SawNodeKept(heap: Heap, heap': Heap, t: int, find: Find, log: seq<set<int>>, log': seq<set<int>>, r: Ref)
    requires StepOf(heap, heap', t, log, log') && 0 <= find.start < |log|
    requires SawNode(heap, find, log, r)
    ensures SawNode(heap', find, log', r)
  {
    assert NodeGuarantee(heap[r], heap'[r], t) && NodeOk(heap'[r]);
    SawAbsentKept(log, log', find.start, find.key);
    if heap'[r].now == 0 && 0 < heap[r].now {
      SeeAbsent(log', find.start, find.key);
    }
  }

  lemma SearchedKept(heap: Heap, heap': Heap, t: int, find: Find, log: seq<set<int>>, log': seq<set<int>>)
    requires StepOf(heap, heap', t, log, log') && 0 <= find.start < |log|
    requires Searched(heap, find, log)
    ensures Searched(heap', find, log')
  {
    RowKept(heap, heap', t, find, 0);
    SawAbsentKept(log, log', find.start, find.key);
    if find.lFound != -1 { SawNodeKept(heap, heap', t, find, log, log', find.succs[find.lFound]); }
  }

  lemma SearchingKept(heap: Heap, heap': Heap, t: int, u: int, th: Thread, log: seq<set<int>>, log': seq<set<int>>)
    requires Interference(heap, heap', t, u, log, log') && 0 <= th.find.start < |log|
    requires Searching(heap, th, log)
    ensures Searching(heap', th, log')
  {
    RowKept(heap, heap', t, th.find, th.level + 1);
    assert NodeGuarantee(heap[th.pred], heap'[th.pred], t);
    if th.find.lFound != -1 { SawNodeKept(heap, heap', t, th.find, log, log', th.find.succs[th.find.lFound]); }
    forall j | th.level < j < MAX_LEVEL ensures th.find.preds[j] == th.pred || KeyBelow(heap', th.find.preds[j], th.pred) {
      assert Brackets(heap, th.find, j);
      assert NodeGuarantee(heap[th.find.preds[j]], heap'[th.find.preds[j]], t);
    }
  }

  lemma AtNodeKept(heap: Heap, heap': Heap, t: int, u: int, th: Thread, log: seq<set<int>>, log': seq<set<int>>)
    requires Interference(heap, heap', t, u, log, log') && 0 <= th.find.start < |log|
    requires ValidRef(heap, th.pred) && AtNode(heap, th, log)
    ensures AtNode(heap', th, log')
  {
    assert NodeGuarantee(heap[th.pred], heap'[th.pred], t) && NodeGuarantee(heap[th.curr], heap'[th.curr], t);
    if heap[th.curr].key == th.find.key { SawNodeKept(heap, heap', t, th.find, log, log', th.curr); }
    SawAbsentKept(log, log', th.find.start, th.find.key);
  }

  /** A predecessor that u holds keeps its mark and its links. */
  lemma PredKept(heap: Heap, heap': Heap, t: int, u: int, r: Ref, j: int)
    requires Guarantee(heap, heap', t) && t != u && Held(heap, r, u) && ValidLevel(j) && j < heap[r].ever
    ensures heap'[r].marked == heap[r].marked && heap'[r].next[j] == heap[r].next[j]
  {
    assert NodeGuarantee(heap[r], heap'[r], t);
  }

  ghost predicate HoldsUpTo(heap: Heap, find: Find, u: int, n: int) {
    forall j :: 0 <= j < n && j < MAX_LEVEL ==> Held(heap, find.preds[j], u)
  }

  lemma HoldsPredecessors(heap: Heap, th: Thread, u: int)
    requires RowOk(heap, th.find, 0) && Locks(heap, th, u) && HoldsPreds(th.pc)
    ensures HoldsUpTo(heap, th.find, u, th.highest + 1)
  {
    forall j | 0 <= j < th.highest + 1 && j < MAX_LEVEL ensures Held(heap, th.find.preds[j], u) {
      assert Brackets(heap, th.find, j);
      assert AmongPreds(th.find.preds, 0, th.highest, th.find.preds[j]);
    }
  }

  lemma ValidatedKept(heap: Heap, heap': Heap, t: int, u: int, find: Find, n: int)
    requires Guarantee(heap, heap', t) && t != u && RowOk(heap, find, 0)
    requires HoldsUpTo(heap, find, u, n) && Validated(heap, find, n)
    ensures Validated(heap', find, n)
  {
    forall j | 0 <= j < n && j < MAX_LEVEL
      ensures ValidRef(heap', find.preds[j]) && !heap'[find.preds[j]].marked && heap'[find.preds[j]].next[j] == find.succs[j]
    {
      assert Brackets(heap, find, j);
      PredKept(heap, heap', t, u, find.preds[j], j);
    }
  }

  lemma RValidatedKept(heap: Heap, heap': Heap, t: int, u: int, find: Find, victim: Ref, n: int)
    requires Guarantee(heap, heap', t) && t != u && RowOk(heap, find, 0)
    requires HoldsUpTo(heap, find, u, n) && RValidated(heap, find, victim, n)
    ensures RValidated(heap', find, victim, n)
  {
    forall j | 0 <= j < n && j < MAX_LEVEL
      ensures ValidRef(heap', find.preds[j]) && !heap'[find.preds[j]].marked && heap'[find.preds[j]].next[j] == victim
    {
      assert Brackets(heap, find, j);
      PredKept(heap, heap', t, u, find.preds[j], j);
    }
    if 0 < n { assert NodeGuarantee(heap[victim], heap'[victim], t); }
  }

  lemma LinkingKept(heap: Heap, heap': Heap, t: int, u: int, th: Thread, n: int)
    requires Guarantee(heap, heap', t) && t != u && RowOk(heap, th.find, 0) && th.topLevel < MAX_LEVEL
    requires HoldsUpTo(heap, th.find, u, th.highest + 1) && Linking(heap, th, u, n)
    ensures Linking(heap', th, u, n)
    ensures forall j :: n <= j < MAX_LEVEL ==> heap'[th.newNode].next[j] == heap[th.newNode].next[j]
  {
    assert NodeGuarantee(heap[th.newNode], heap'[th.newNode], t);
    forall j | 0 <= j <= th.topLevel
      ensures j < MAX_LEVEL && ValidRef(heap', th.find.preds[j]) && !heap'[th.find.preds[j]].marked
      ensures heap'[th.find.preds[j]].next[j] == if j < n then th.newNode else th.find.succs[j]
    {
      assert Brackets(heap, th.find, j);
      PredKept(heap, heap', t, u, th.find.preds[j], j);
    }
  }

  lemma VictimKept(heap: Heap, heap': Heap, t: int, u: int, th: Thread, log: seq<set<int>>, log': seq<set<int>>)
    requires Interference(heap, heap', t, u, log, log') && 0 <= th.find.start < |log|
    requires Victim(heap, th, log)
    ensures Victim(heap', th, log')
    ensures Held(heap, th.victim, u) ==> NodeGuarantee(heap[th.victim], heap'[th.victim], t) && NodeOk(heap'[th.victim]) && NodeOk(heap[th.victim])
    ensures heap'[th.victim].topLevel == heap[th.victim].topLevel
  {
    SearchedKept(heap, heap', t, th.find, log, log');
    SawNodeKept(heap, heap', t, th.find, log, log', th.victim);
    assert NodeGuarantee(heap[th.victim], heap'[th.victim], t);
  }

  lemma OwnedKept(heap: Heap, heap': Heap, t: int, u: int, v: Ref)
    requires Guarantee(heap, heap', t) && t != u && u >= 0 && Owned(heap, v, u)
    ensures Owned(heap', v, u)
  {
    assert NodeGuarantee(heap[v], heap'[v], t);
  }

  lemma SearchPhaseKept(heap: Heap, heap': Heap, t: int, u: int, th: Thread, log: seq<set<int>>, log': seq<set<int>>)
    requires Interference(heap, heap', t, u, log, log') && 0 <= th.find.start < |log|
    requires SearchPhase(heap, th, log)
    ensures SearchPhase(heap', th, log')
  {
    SearchingKept(heap, heap', t, u, th, log, log');
    if th.pc == F_CHECK { AtNodeKept(heap, heap', t, u, th, log, log'); }
  }

  lemma FoundPhaseKept(heap: Heap, heap': Heap, t: int, u: int, th: Thread, log: seq<set<int>>, log': seq<set<int>>)
    requires Interference(heap, heap', t, u, log, log') && 0 <= th.find.start < |log|
    requires FoundPhase(heap, th, log)
    ensures FoundPhase(heap', th, log')
  {
    SearchedKept(heap, heap', t, th.find, log, log');
    SawAbsentKept(log, log', th.find.start, th.find.key);
    var v := th.find.succs[th.find.lFound];
    assert NodeGuarantee(heap[v], heap'[v], t);
    if !heap[v].fullyLinked && heap'[v].fullyLinked { SeePresent(log', th.find.start, th.find.key); }
  }

  lemma PredUnmarkedKept(heap: Heap, heap': Heap, t: int, u: int, find: Find, level: int)
    requires Guarantee(heap, heap', t) && t != u && RowOk(heap, find, 0)
    requires HoldsUpTo(heap, find, u, level + 1) && PredUnmarked(heap, find, level)
    ensures PredUnmarked(heap', find, level)
  {
    assert Brackets(heap, find, level);
    PredKept(heap, heap', t, u, find.preds[level], level);
  }

  lemma LockPhaseKept(heap: Heap, heap': Heap, t: int, u: int, th: Thread, log: seq<set<int>>, log': seq<set<int>>)
    requires Interference(heap, heap', t, u, log, log') && 0 <= th.find.start < |log|
    requires LockPC(th.pc) && LockPhase(heap, th, log) && Locks(heap, th, u)
    ensures LockPhase(heap', th, log')
  {
    SearchedKept(heap, heap', t, th.find, log, log');
    HoldsPredecessors(heap, th, u);
    ValidatedKept(heap, heap', t, u, th.find, if th.pc == I_ALLOC then th.topLevel + 1 else th.level);
    if th.pc == I_SUCC_MARKED || th.pc == I_PRED_NEXT { PredUnmarkedKept(heap, heap', t, u, th.find, th.level); }
  }

  lemma LinkPhaseKept(heap: Heap, heap': Heap, t: int, u: int, th: Thread, log: seq<set<int>>, log': seq<set<int>>)
    requires Interference(heap, heap', t, u, log, log') && 0 <= th.find.start < |log|
    requires LinkPC(th.pc) && LinkPhase(heap, th, u, log) && Locks(heap, th, u)
    ensures LinkPhase(heap', th, u, log')
  {
    SearchedKept(heap, heap', t, th.find, log, log');
    HoldsPredecessors(heap, th, u);
    LinkingKept(heap, heap', t, u, th, LinkedSoFar(th));
  }

  lemma VictimPhaseKept(heap: Heap, heap': Heap, t: int, u: int, th: Thread, log: seq<set<int>>, log': seq<set<int>>)
    requires Interference(heap, heap', t, u, log, log') && 0 <= th.find.start < |log|
    requires VictimPC(th.pc) && VictimPhase(heap, th, log) && Locks(heap, th, u)
    ensures VictimPhase(heap', th, log')
  {
    VictimKept(heap, heap', t, u, th, log, log');
    if th.pc != R_LOCK { assert Held(heap, th.victim, u); }
  }

  lemma CheckPhaseKept(heap: Heap, heap': Heap, t: int, u: int, th: Thread, log: seq<set<int>>, log': seq<set<int>>)
    requires Interference(heap, heap', t, u, log, log') && 0 <= th.find.start < |log|
    requires CheckPC(th.pc) && CheckPhase(heap, th, log) && Locks(heap, th, u)
    ensures CheckPhase(heap', th, log')
  {
    VictimKept(heap, heap', t, u, th, log, log');
    assert Held(heap, th.victim, u);
    HoldsPredecessors(heap, th, u);
    RValidatedKept(heap, heap', t, u, th.find, th.victim, th.level);
    if th.pc == R_PRED_NEXT { PredUnmarkedKept(heap, heap', t, u, th.find, th.level); }
  }

  lemma UnlinkPhaseKept(heap: Heap, heap': Heap, t: int, u: int, th: Thread, log: seq<set<int>>, log': seq<set<int>>)
    requires Interference(heap, heap', t, u, log, log') && 0 <= th.find.start < |log|
    requires UnlinkPC(th.pc) && UnlinkPhase(heap, th, u, log) && Locks(heap, th, u)
    ensures UnlinkPhase(heap', th, u, log')
  {
    VictimKept(heap, heap', t, u, th, log, log');
    assert Held(heap, th.victim, u);
    HoldsPredecessors(heap, th, u);
    RValidatedKept(heap, heap', t, u, th.find, th.victim, LinkedStill(th));
    if HasTaken(th) { OwnedKept(heap, heap', t, u, th.victim); }
  }

  lemma FinishPhaseKept(heap: Heap, heap': Heap, t: int, u: int, th: Thread, log: seq<set<int>>, log': seq<set<int>>)
    requires Interference(heap, heap', t, u, log, log') && 0 <= th.find.start < |log|
    requires FinishPhase(heap, th, u, log)
    ensures FinishPhase(heap', th, u, log')
  {
    SawAbsentKept(log, log', th.find.start, th.find.key);
    if th.pc == UNLOCK { RowKept(heap, heap', t, th.find, 0); }
    if HasTaken(th) { OwnedKept(heap, heap', t, u, th.victim); }
  }

  lemma PhaseKept(heap: Heap, heap': Heap, t: int, u: int, th: Thread, log: seq<set<int>>, log': seq<set<int>>)
    requires Interference(heap, heap', t, u, log, log') && (th.pc != IDLE ==> 0 <= th.find.start < |log|)
    requires Phase(heap, th, u, log) && Locks(heap, th, u)
    ensures Phase(heap', th, u, log')
  {
    if th.pc < F_NEXT {
    } else if th.pc <= F_CHECK {
      SearchPhaseKept(heap, heap', t, u, th, log, log');
    } else if FoundPC(th.pc) {
      FoundPhaseKept(heap, heap', t, u, th, log, log');
    } else if LockPC(th.pc) {
      LockPhaseKept(heap, heap', t, u, th, log, log');
    } else if LinkPC(th.pc) {
      LinkPhaseKept(heap, heap', t, u, th, log, log');
    } else if VictimPC(th.pc) {
      VictimPhaseKept(heap, heap', t, u, th, log, log');
    } else if CheckPC(th.pc) {
      CheckPhaseKept(heap, heap', t, u, th, log, log');
    } else if UnlinkPC(th.pc) {
      UnlinkPhaseKept(heap, heap', t, u, th, log, log');
    } else {
      FinishPhaseKept(heap, heap', t, u, th, log, log');
    }
  }

  lemma HeldRefsValid(heap: Heap, th: Thread, u: int, log: seq<set<int>>, r: Ref)
    requires Phase(heap, th, u, log) && Holds(th, r)
    ensures ValidRef(heap, r)
  {
    if HoldsVictim(th.pc) && r == th.victim {
    } else {
      var j :| 0 <= j <= th.highest && j < MAX_LEVEL && th.find.preds[j] == r;
      assert RowOk(heap, th.find, 0);
      assert Brackets(heap, th.find, j);
    }
  }

  lemma LocksKept(heap: Heap, heap': Heap, t: int, u: int, th: Thread, log: seq<set<int>>)
    requires Guarantee(heap, heap', t) && t != u && Phase(heap, th, u, log) && Locks(heap, th, u)
    ensures Locks(heap', th, u)
  {
    forall r | ValidRef(heap', r) ensures Held(heap', r, u) <==> Holds(th, r) {
      HeldKept(heap, heap', t, u, r);
      if Holds(th, r) { HeldRefsValid(heap, th, u, log, r); }
    }
  }

  lemma WorkingKept(heap: Heap, heap': Heap, t: int, u: int, th: Thread, log: seq<set<int>>, log': seq<set<int>>)
    requires Interference(heap, heap', t, u, log, log') && Working(heap, th, u)
    ensures Working(heap', th, u)
  {
    forall r | ValidRef(heap', r) && heap'[r].removing && heap'[r].owner == u
      ensures InRemoval(th.pc) && r == th.victim
    {
      assert NodeOk(heap'[r]) || r < 2;
      HeldKept(heap, heap', t, u, r);
      assert NodeGuarantee(heap[r], heap'[r], t);
    }
    forall r | ValidRef(heap', r) && heap'[r].creator == u && !heap'[r].fullyLinked
      ensures LinkPC(th.pc) && r == th.newNode
    {
      assert r < |heap|;
      assert NodeGuarantee(heap[r], heap'[r], t);
    }
  }

  lemma RetirementKept(heap: Heap, heap': Heap, t: int, u: int, th: Thread)
    requires Guarantee(heap, heap', t) && t != u && u >= 0 && Retirement(heap, th, u)
    ensures Retirement(heap', th, u)
  {
    forall i | 0 <= i < |th.retired|
      ensures ValidRef(heap', th.retired[i]) && heap'[th.retired[i]].taker == u && heap'[th.retired[i]].retired
    {
      assert NodeGuarantee(heap[th.retired[i]], heap'[th.retired[i]], t);
    }
    forall r | ValidRef(heap', r) && heap'[r].taker == u
      ensures if heap'[r].retired then r in th.retired else HasTaken(th) && r == th.victim
    {
      assert r < |heap|;
      assert NodeGuarantee(heap[r], heap'[r], t);
    }
  }

  /** The invariant of thread u survives a step of thread t. */
  lemma ThreadKept(heap: Heap, heap': Heap, t: int, u: int, th: Thread, log: seq<set<int>>, log': seq<set<int>>)
    requires Interference(heap, heap', t, u, log, log') && ThreadInv(heap, th, u, log)
    ensures ThreadInv(heap', th, u, log')
  {
    PhaseKept(heap, heap', t, u, th, log, log');
    LocksKept(heap, heap', t, u, th, log);
    WorkingKept(heap, heap', t, u, th, log, log');
    RetirementKept(heap, heap', t, u, th);
  }
}
