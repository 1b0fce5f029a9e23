/** Steps that write shared memory keep the heap invariant and the invariant of the thread that takes them. */
module SkipListSteps {
  import opened SkipListMachine
  import opened SkipListInvariant
  import opened SkipListStability
  import opened SkipListWrites
  import opened SkipListLinks

  /** The locks change only as told: `took` is locked, `dropped` unlocked, NULL standing for none. */
  ghost predicate LocksChange(heap: Heap, heap': Heap, t: int, took: Ref, dropped: Ref) {
    && |heap| <= |heap'|
    && (forall r :: 0 <= r < |heap| ==> (Held(heap', r, t) <==> (Held(heap, r, t) || r == took) && r != dropped))
    && (forall r :: |heap| <= r < |heap'| ==> !heap'[r].lock)
  }

  lemma LocksFollow(heap: Heap, heap': Heap, th: Thread, th': Thread, t: int, took: Ref, dropped: Ref)
    requires Locks(heap, th, t) && LocksChange(heap, heap', t, took, dropped)
    requires forall r :: 0 <= r < |heap| ==> (Holds(th', r) <==> (Holds(th, r) || r == took) && r != dropped)
    requires forall r :: |heap| <= r < |heap'| ==> !Holds(th', r)
    ensures Locks(heap', th', t)
  {
    forall r | ValidRef(heap', r) ensures Held(heap', r, t) <==> Holds(th', r) {
    }
  }

  /** Nothing has changed in what t inserts, removes or has retired. */
  ghost predicate SameWork(heap: Heap, heap': Heap, t: int) {
    && |heap| == |heap'|
    && (forall r :: 0 <= r < |heap| ==>
          && (heap'[r].removing && heap'[r].owner == t ==> heap[r].removing && heap[r].owner == t)
          && heap'[r].creator == heap[r].creator && heap'[r].fullyLinked == heap[r].fullyLinked
          && heap'[r].taker == heap[r].taker && heap'[r].retired == heap[r].retired)
  }

  lemma WorkFollows(heap: Heap, heap': Heap, th: Thread, th': Thread, t: int)
    requires Working(heap, th, t) && Retirement(heap, th, t) && SameWork(heap, heap', t)
    requires InRemoval(th.pc) ==> InRemoval(th'.pc) && th'.victim == th.victim
    requires LinkPC(th.pc) ==> LinkPC(th'.pc) && th'.newNode == th.newNode
    requires th'.retired == th.retired && (HasTaken(th) ==> HasTaken(th') && th'.victim == th.victim)
    ensures Working(heap', th', t) && Retirement(heap', th', t)
  {
  }

  // ----- locking a predecessor: lines 481-485 and 770-773 -----

  lemma AmongGrows(preds: Row, level: int, r: Ref)
    requires ValidLevel(level)
    ensures AmongPreds(preds, 0, level, r) <==> AmongPreds(preds, 0, level - 1, r) || r == preds[level]
  {
  }

  lemma LockPredHolds(th: Thread, th': Thread, r: Ref)
    requires th.pc == I_LOCK || th.pc == R_LOCK_PRED
    requires th'.pc == if th.pc == I_LOCK then I_PRED_MARKED else R_PRED_MARKED
    requires ValidLevel(th.level) && th.highest == th.level - 1 && th'.highest == th.level
    requires th'.find == th.find && th'.victim == th.victim
    ensures Holds(th', r) <==> Holds(th, r) || r == th.find.preds[th.level]
    ensures !FirstAt(th, th.level) ==> Holds(th, th.find.preds[th.level])
  {
    AmongGrows(th.find.preds, th.level, r);
    AmongGrows(th.find.preds, th.level, th.find.preds[th.level]);
  }

  lemma LockPredLocks(heap: Heap, th: Thread, th': Thread, t: int)
    requires th.pc == I_LOCK || th.pc == R_LOCK_PRED
    requires th' == DoLockPred(th, if th.pc == I_LOCK then I_PRED_MARKED else R_PRED_MARKED)
    requires ValidLevel(th.level) && th.highest == th.level - 1 && ValidRef(heap, th.find.preds[th.level])
    requires Locks(heap, th, t) && !Blocked(heap, th)
    ensures FirstAt(th, th.level) ==> !heap[th.find.preds[th.level]].lock
    ensures Locks(ExecHeap(heap, th, t), th', t)
  {
    var p := th.find.preds[th.level];
    var heap' := ExecHeap(heap, th, t);
    forall r ensures Holds(th', r) <==> Holds(th, r) || r == p {
      LockPredHolds(th, th', r);
    }
    LockPredHolds(th, th', p);
    LocksFollow(heap, heap', th, th', t, p, NULL);
  }

  /** Only lock words differ. */
  ghost predicate SameButLocks(heap: Heap, heap': Heap) {
    && |heap| == |heap'|
    && (forall r :: 0 <= r < |heap| ==>
          heap'[r] == heap[r].(lock := heap'[r].lock, owner := heap'[r].owner, removing := heap'[r].removing))
  }

  lemma SearchedSame(heap: Heap, heap': Heap, find: Find, log: seq<set<int>>, log': seq<set<int>>)
    requires SameButLocks(heap, heap') && log <= log' && Searched(heap, find, log)
    ensures Searched(heap', find, log')
  {
    SawAbsentKept(log, log', find.start, find.key);
    forall l | 0 <= 0 <= l < MAX_LEVEL ensures Brackets(heap', find, l) {
      assert Brackets(heap, find, l);
    }
    forall i, j | 0 <= 0 <= i < j < MAX_LEVEL
      ensures find.preds[i] == find.preds[j] || KeyBelow(heap', find.preds[j], find.preds[i])
    {
      assert find.preds[i] == find.preds[j] || KeyBelow(heap, find.preds[j], find.preds[i]);
    }
  }

  lemma VictimSame(heap: Heap, heap': Heap, th: Thread, log: seq<set<int>>, log': seq<set<int>>)
    requires SameButLocks(heap, heap') && log <= log' && Victim(heap, th, log)
    ensures Victim(heap', th, log')
  {
    SearchedSame(heap, heap', th.find, log, log');
    SawAbsentKept(log, log', th.find.start, th.find.key);
  }

  lemma ILockPhase(heap: Heap, heap': Heap, th: Thread, t: int, log: seq<set<int>>, log': seq<set<int>>)
    requires SameButLocks(heap, heap') && log <= log'
    requires th.pc == I_LOCK && Phase(heap, th, t, log)
    ensures Safe(heap, th) && Phase(heap', DoLockPred(th, I_PRED_MARKED), t, log')
  {
    SearchedSame(heap, heap', th.find, log, log');
    assert Brackets(heap, th.find, th.level);
  }

  lemma RLockPredPhase(heap: Heap, heap': Heap, th: Thread, t: int, log: seq<set<int>>, log': seq<set<int>>)
    requires SameButLocks(heap, heap') && log <= log'
    requires th.pc == R_LOCK_PRED && Phase(heap, th, t, log)
    requires ValidRef(heap, th.victim) && heap'[th.victim].removing == heap[th.victim].removing
    ensures Safe(heap, th) && Phase(heap', DoLockPred(th, R_PRED_MARKED), t, log')
  {
    VictimSame(heap, heap', th, log, log');
    assert Brackets(heap, th.find, th.level);
  }

  // ----- locking the victim: lines 751-752 -----

  lemma RLockPhase(heap: Heap, heap': Heap, th: Thread, t: int, log: seq<set<int>>, log': seq<set<int>>)
    requires SameButLocks(heap, heap') && log <= log'
    requires th.pc == R_LOCK && Phase(heap, th, t, log)
    ensures Safe(heap, th) && Phase(heap', DoRLock(heap, th), t, log')
  {
    VictimSame(heap, heap', th, log, log');
  }

  lemma RLockLocks(heap: Heap, th: Thread, t: int)
    requires th.pc == R_LOCK && Locks(heap, th, t) && ValidRef(heap, th.victim) && !heap[th.victim].lock
    ensures Locks(SetLock(heap, th.victim, t), DoRLock(heap, th), t)
  {
    LocksFollow(heap, SetLock(heap, th.victim, t), th, DoRLock(heap, th), t, th.victim, NULL);
  }

  // ----- releasing the victim: lines 754, 787 and 793 -----

  /** The victim's key lies above those of the predecessors. */
  lemma VictimNotPred(heap: Heap, th: Thread, log: seq<set<int>>)
    requires Victim(heap, th, log)
    ensures !AmongPreds(th.find.preds, 0, th.highest, th.victim)
  {
    forall j | 0 <= j <= th.highest && j < MAX_LEVEL ensures th.find.preds[j] != th.victim {
      assert Brackets(heap, th.find, j);
    }
  }

  lemma ReleaseLocks(heap: Heap, th: Thread, th': Thread, t: int, log: seq<set<int>>)
    requires Victim(heap, th, log) && Locks(heap, th, t)
    requires
      || (th.pc == R_ABANDON && th' == DoRAbandon(th))
      || ((th.pc == R_RELEASE || th.pc == R_GIVE_UP) && th' == StartUnlock(th))
    ensures Held(heap, th.victim, t) && Locks(ClearLock(heap, th.victim), th', t)
  {
    assert Holds(th, th.victim);
    VictimNotPred(heap, th, log);
    LocksFollow(heap, ClearLock(heap, th.victim), th, th', t, NULL, th.victim);
  }

  lemma RAbandonPhase(heap: Heap, heap': Heap, th: Thread, t: int, log: seq<set<int>>, log': seq<set<int>>)
    requires SameButLocks(heap, heap') && log <= log'
    requires th.pc == R_ABANDON && Phase(heap, th, t, log)
    ensures Safe(heap, th) && Phase(heap', DoRAbandon(th), t, log')
  {
    SawAbsentKept(log, log', th.find.start, th.find.key);
  }

  lemma RReleasePhase(heap: Heap, heap': Heap, th: Thread, t: int, log: seq<set<int>>, log': seq<set<int>>)
    requires SameButLocks(heap, heap') && log <= log'
    requires th.pc == R_RELEASE && Phase(heap, th, t, log)
    ensures Safe(heap, th) && Phase(heap', StartUnlock(th), t, log')
  {
    SearchedSame(heap, heap', th.find, log, log');
  }

  lemma RGiveUpPhase(heap: Heap, heap': Heap, th: Thread, t: int, log: seq<set<int>>, log': seq<set<int>>)
    requires SameButLocks(heap, heap') && log <= log'
    requires th.pc == R_GIVE_UP && Phase(heap, th, t, log)
    ensures Safe(heap, th) && Phase(heap', StartUnlock(th), t, log')
  {
    SearchedSame(heap, heap', th.find, log, log');
  }

  // ----- unlocking the predecessors: lines 507-512 and 798-802 -----

  /** Equal predecessors sit at consecutive levels, so comparing neighbours is enough to find duplicates. */
  lemma EqualPredsTogether(heap: Heap, find: Find, i: int, j: int, k: int)
    requires RowOk(heap, find, 0) && 0 <= i < j < k < MAX_LEVEL && find.preds[i] == find.preds[k]
    ensures find.preds[j] == find.preds[i]
  {
  }

  /** Unlocking moves up one level: what is left is what was held, less the predecessor of this level. */
  lemma UnlockHolds(heap: Heap, th: Thread, r: Ref)
    requires th.pc == UNLOCK && RowOk(heap, th.find, 0) && 0 <= th.level <= th.highest < MAX_LEVEL
    ensures Holds(DoUnlock(th), r) <==> Holds(th, r) && r != th.find.preds[th.level]
    ensures Holds(th, th.find.preds[th.level]) <==> FirstAt(th, th.level)
  {
    var preds := th.find.preds;
    assert AmongPreds(preds, th.level, th.highest, preds[th.level]);
    assert AmongPreds(preds, th.level, th.highest, r) <==> AmongPreds(preds, th.level + 1, th.highest, r) || r == preds[th.level];
    if th.level > 0 && AmongPreds(preds, th.level + 1, th.highest, r) && r == preds[th.level - 1] {
      var j :| th.level + 1 <= j <= th.highest && preds[j] == r;
      EqualPredsTogether(heap, th.find, th.level - 1, th.level, j);
    }
  }

  lemma UnlockLocks(heap: Heap, th: Thread, t: int)
    requires th.pc == UNLOCK && RowOk(heap, th.find, 0) && 0 <= th.level <= th.highest < MAX_LEVEL
    requires Locks(heap, th, t)
    ensures Safe(heap, th)
    ensures FirstAt(th, th.level) ==> Held(heap, th.find.preds[th.level], t)
    ensures Locks(ExecHeap(heap, th, t), DoUnlock(th), t)
  {
    assert Brackets(heap, th.find, th.level);
    var p := th.find.preds[th.level];
    UnlockHolds(heap, th, p);
    forall r ensures Holds(DoUnlock(th), r) <==> Holds(th, r) && r != p {
      UnlockHolds(heap, th, r);
    }
    LocksFollow(heap, ExecHeap(heap, th, t), th, DoUnlock(th), t, NULL, if FirstAt(th, th.level) then p else NULL);
  }

  lemma UnlockPhase(heap: Heap, heap': Heap, th: Thread, t: int, log: seq<set<int>>, log': seq<set<int>>)
    requires SameButLocks(heap, heap') && log <= log'
    requires th.pc == UNLOCK && Phase(heap, th, t, log)
    ensures Phase(heap', DoUnlock(th), t, log')
  {
    assert RowOk(heap', th.find, 0) by {
      forall l | 0 <= 0 <= l < MAX_LEVEL ensures Brackets(heap', th.find, l) {
        assert Brackets(heap, th.find, l);
      }
      forall i, j | 0 <= 0 <= i < j < MAX_LEVEL
        ensures th.find.preds[i] == th.find.preds[j] || KeyBelow(heap', th.find.preds[j], th.find.preds[i])
      {
        assert th.find.preds[i] == th.find.preds[j] || KeyBelow(heap, th.find.preds[j], th.find.preds[i]);
      }
    }
  }

  // ----- marking and unmarking the victim: lines 759 and 791 -----

  ghost predicate SameRows(heap: Heap, heap': Heap) {
    && |heap| <= |heap'|
    && (forall r :: 0 <= r < |heap| ==> heap'[r].key == heap[r].key && heap[r].ever <= heap'[r].ever && heap'[r].topLevel == heap[r].topLevel)
  }

  lemma RowSame(heap: Heap, heap': Heap, find: Find)
    requires SameRows(heap, heap') && RowOk(heap, find, 0)
    ensures RowOk(heap', find, 0)
  {
    forall l | 0 <= 0 <= l < MAX_LEVEL ensures Brackets(heap', find, l) {
      assert Brackets(heap, find, l);
    }
    forall i, j | 0 <= 0 <= i < j < MAX_LEVEL
      ensures find.preds[i] == find.preds[j] || KeyBelow(heap', find.preds[j], find.preds[i])
    {
      assert find.preds[i] == find.preds[j] || KeyBelow(heap, find.preds[j], find.preds[i]);
    }
  }

  /** Every write keeps a finished search, provided a node that disappears from level 0 is seen to disappear. */
  lemma SearchedAfter(heap: Heap, heap': Heap, find: Find, log: seq<set<int>>, log': seq<set<int>>)
    requires SameRows(heap, heap') && Searched(heap, find, log) && log <= log'
    requires forall r :: 0 <= r < |heap| && 0 < heap[r].now && heap'[r].now <= 0 && heap[r].key == find.key ==> SawAbsent(log', find.start, find.key)
    ensures Searched(heap', find, log')
  {
    RowSame(heap, heap', find);
    SawAbsentKept(log, log', find.start, find.key);
    if find.lFound != -1 { assert SawNode(heap, find, log, find.succs[find.lFound]); }
  }

  lemma RMarkPhase(heap: Heap, th: Thread, t: int, log: seq<set<int>>, log': seq<set<int>>)
    requires Nodes(heap) && log <= log' && th.pc == R_MARK && Phase(heap, th, t, log)
    ensures Safe(heap, th) && Phase(SetMark(heap, th.victim), DoRMark(th), t, log')
  {
    SearchedAfter(heap, SetMark(heap, th.victim), th.find, log, log');
    SawAbsentKept(log, log', th.find.start, th.find.key);
    assert NodeOk(heap[th.victim]);
  }

  lemma RUnmarkPhase(heap: Heap, th: Thread, t: int, log: seq<set<int>>, log': seq<set<int>>)
    requires log <= log' && th.pc == R_UNMARK && Phase(heap, th, t, log)
    ensures Safe(heap, th) && Phase(ClearMark(heap, th.victim), DoRUnmark(th), t, log')
  {
    SearchedAfter(heap, ClearMark(heap, th.victim), th.find, log, log');
    SawAbsentKept(log, log', th.find.start, th.find.key);
  }

  lemma MarkStanding(heap: Heap, th: Thread, t: int)
    requires Locks(heap, th, t) && Working(heap, th, t) && Retirement(heap, th, t)
    requires th.pc == R_MARK && ValidRef(heap, th.victim)
    ensures var heap', th' := SetMark(heap, th.victim), DoRMark(th);
      Locks(heap', th', t) && Working(heap', th', t) && Retirement(heap', th', t)
  {
    var heap', th' := SetMark(heap, th.victim), DoRMark(th);
    LocksFollow(heap, heap', th, th', t, NULL, NULL);
  }

  lemma UnmarkStanding(heap: Heap, th: Thread, t: int)
    requires Locks(heap, th, t) && Working(heap, th, t) && Retirement(heap, th, t)
    requires th.pc == R_UNMARK && ValidRef(heap, th.victim)
    ensures var heap', th' := ClearMark(heap, th.victim), DoRUnmark(th);
      Locks(heap', th', t) && Working(heap', th', t) && Retirement(heap', th', t)
  {
    var heap', th' := ClearMark(heap, th.victim), DoRUnmark(th);
    LocksFollow(heap, heap', th, th', t, NULL, NULL);
  }

  // ----- allocating, linking and completing the new node: lines 494-502 -----

  lemma IAllocPhase(heap: Heap, th: Thread, t: int, log: seq<set<int>>, log': seq<set<int>>)
    requires log <= log' && th.pc == I_ALLOC && Phase(heap, th, t, log) && Sentinels(heap)
    ensures Phase(heap + [Fresh(th.find.key, th.topLevel, t)], DoIAlloc(heap, th), t, log')
  {
    SearchedAfter(heap, heap + [Fresh(th.find.key, th.topLevel, t)], th.find, log, log');
  }

  lemma IAllocStanding(heap: Heap, th: Thread, t: int, log: seq<set<int>>)
    requires Locks(heap, th, t) && Working(heap, th, t) && Retirement(heap, th, t) && t >= 0
    requires th.pc == I_ALLOC && Phase(heap, th, t, log)
    ensures var heap', th' := heap + [Fresh(th.find.key, th.topLevel, t)], DoIAlloc(heap, th);
      Locks(heap', th', t) && Working(heap', th', t) && Retirement(heap', th', t)
  {
    var heap', th' := heap + [Fresh(th.find.key, th.topLevel, t)], DoIAlloc(heap, th);
    forall r | |heap| <= r < |heap'| ensures !Holds(th', r) {
      forall j | 0 <= j <= th.highest && j < MAX_LEVEL ensures th.find.preds[j] != r {
        assert Brackets(heap, th.find, j);
      }
    }
    LocksFollow(heap, heap', th, th', t, NULL, NULL);
  }

  lemma IFillPhase(heap: Heap, th: Thread, t: int, log: seq<set<int>>, log': seq<set<int>>)
    requires log <= log' && th.pc == I_FILL && Phase(heap, th, t, log)
    ensures Safe(heap, th)
    ensures Phase(Fill(heap, th.newNode, th.level, th.find.succs[th.level]), DoIFill(th), t, log')
  {
    var heap' := Fill(heap, th.newNode, th.level, th.find.succs[th.level]);
    SearchedAfter(heap, heap', th.find, log, log');
    assert Spliced(heap', th.find, th.topLevel, th.newNode, th.level) by {
      forall j | 0 <= j <= th.topLevel ensures th.find.preds[j] != th.newNode {
        assert Brackets(heap, th.find, j);
      }
    }
  }

  lemma ILinkPre(heap: Heap, th: Thread, t: int, log: seq<set<int>>)
    requires Nodes(heap) && Sentinels(heap) && Locks(heap, th, t) && Working(heap, th, t)
    requires th.pc == I_LINK && Phase(heap, th, t, log)
    ensures Safe(heap, th) && LinkPre(heap, th.find.preds[th.level], th.newNode, th.level, t)
  {
    assert Brackets(heap, th.find, th.level);
    HoldsPredecessors(heap, th, t);
    var p := th.find.preds[th.level];
    assert p < 2 || NodeOk(heap[p]);
  }

  lemma ILinkSplices(heap: Heap, th: Thread, t: int)
    requires 0 <= th.level <= th.topLevel < MAX_LEVEL && RowOk(heap, th.find, 0)
    requires Linking(heap, th, t, th.level) && Untouched(heap, th.newNode, th.level + 1) && th.find.key == heap[th.newNode].key
    requires ValidRef(heap, th.find.preds[th.level])
    ensures var heap' := Link(heap, th.find.preds[th.level], th.newNode, th.level);
      && Spliced(heap', th.find, th.topLevel, th.newNode, th.level + 1)
      && Untouched(heap', th.newNode, th.level + 1)
      && heap'[th.newNode] == heap[th.newNode].(now := th.level + 1, ever := th.level + 1)
  {
    var heap' := Link(heap, th.find.preds[th.level], th.newNode, th.level);
    forall j | 0 <= j <= th.topLevel ensures th.find.preds[j] != th.newNode {
      assert Brackets(heap, th.find, j);
    }
  }

  /** One more level of the new node is linked. */
  lemma ILinkAdvances(heap': Heap, th: Thread, t: int, log': seq<set<int>>)
    requires th.pc == I_LINK && th.op == Insert && th.find.lFound == -1 && th.valid && 0 <= th.level <= th.topLevel < MAX_LEVEL
    requires Searched(heap', th.find, log') && Linking(heap', th, t, th.level + 1) && Untouched(heap', th.newNode, th.level + 1)
    ensures Phase(heap', DoILink(th), t, log')
  {
    assert LinkPhase(heap', DoILink(th), t, log');
  }

  lemma ILinkPhase(heap: Heap, th: Thread, t: int, log: seq<set<int>>, log': seq<set<int>>)
    requires log <= log' && th.pc == I_LINK && Safe(heap, th) && LinkPhase(heap, th, t, log)
    ensures Phase(Link(heap, th.find.preds[th.level], th.newNode, th.level), DoILink(th), t, log')
  {
    ILinkSplices(heap, th, t);
    var heap' := Link(heap, th.find.preds[th.level], th.newNode, th.level);
    SearchedAfter(heap, heap', th.find, log, log');
    ILinkAdvances(heap', th, t, log');
  }

  lemma IFullPhase(heap: Heap, th: Thread, t: int, log: seq<set<int>>, log': seq<set<int>>)
    requires log <= log' && th.pc == I_FULL && Phase(heap, th, t, log)
    ensures Safe(heap, th) && Phase(SetFully(heap, th.newNode), DoIFull(th), t, log')
  {
    SearchedAfter(heap, SetFully(heap, th.newNode), th.find, log, log');
  }

  /** Writes to links and flags leave the locks alone. */
  lemma LinkStanding(heap: Heap, heap': Heap, th: Thread, th': Thread, t: int)
    requires Locks(heap, th, t) && Working(heap, th, t) && Retirement(heap, th, t)
    requires |heap'| == |heap|
    requires forall r :: 0 <= r < |heap| ==>
      && heap'[r].lock == heap[r].lock && heap'[r].owner == heap[r].owner && heap'[r].removing == heap[r].removing
      && heap'[r].creator == heap[r].creator && (heap[r].fullyLinked ==> heap'[r].fullyLinked)
      && heap'[r].taker == heap[r].taker && heap'[r].retired == heap[r].retired
    requires I_FILL <= th.pc <= I_FULL && th'.find == th.find && th'.highest == th.highest && th'.retired == th.retired
    requires
      || (I_FILL <= th'.pc <= I_FULL && th'.newNode == th.newNode)
      || (th'.pc == UNLOCK && th'.level == 0 && ValidRef(heap', th.newNode) && heap'[th.newNode].fullyLinked)
    ensures Locks(heap', th', t) && Working(heap', th', t) && Retirement(heap', th', t)
  {
    forall r ensures Holds(th', r) <==> Holds(th, r) {
    }
    LocksFollow(heap, heap', th, th', t, NULL, NULL);
  }

  // ----- unlinking the victim: lines 784 and 785 -----

  lemma RUnlinkPre(heap: Heap, th: Thread, t: int, log: seq<set<int>>)
    requires Nodes(heap) && Sentinels(heap) && Locks(heap, th, t) && Working(heap, th, t) && t >= 0
    requires th.pc == R_UNLINK && Phase(heap, th, t, log)
    ensures Safe(heap, th) && UnlinkPre(heap, th.find.preds[th.level], th.victim, th.level, t)
    ensures th.tmp == heap[th.victim].next[th.level]
  {
    assert Brackets(heap, th.find, th.level);
    HoldsPredecessors(heap, th, t);
    assert Holds(th, th.victim);
    var p := th.find.preds[th.level];
    assert p < 2 || NodeOk(heap[p]);
    assert NodeOk(heap[th.victim]);
  }

  lemma RUnlinkStays(heap: Heap, th: Thread, p: Ref, n: int)
    requires RowOk(heap, th.find, 0) && RValidated(heap, th.find, th.victim, n + 1)
    requires ValidLevel(n) && p == th.find.preds[n] && ValidRef(heap, p) && ValidRef(heap, th.victim) && p != th.victim
    requires th.find.key == heap[th.victim].key
    ensures forall t :: RValidated(Unlinked(heap, p, th.victim, n, th.tmp, t), th.find, th.victim, n)
  {
    forall j | 0 <= j < n ensures th.find.preds[j] != th.victim {
      assert Brackets(heap, th.find, j);
    }
  }

  lemma RUnlinkVictim(heap: Heap, heap': Heap, th: Thread, log: seq<set<int>>, log': seq<set<int>>)
    requires SameRows(heap, heap') && Victim(heap, th, log) && log <= log'
    requires forall r :: 0 <= r < |heap| && 0 < heap[r].now && heap'[r].now <= 0 && heap[r].key == th.find.key ==>
      SawAbsent(log', th.find.start, th.find.key)
    ensures Victim(heap', th, log')
  {
    SearchedAfter(heap, heap', th.find, log, log');
    SawAbsentKept(log, log', th.find.start, th.find.key);
  }

  /** After line 784 the thread is about to clear the victim's link at the same level. */
  lemma RUnlinkAdvances(heap': Heap, th: Thread, t: int, log': seq<set<int>>)
    requires th.pc == R_UNLINK && Unlinking(heap', th, log', th.level)
    requires th.level == 0 ==> Owned(heap', th.victim, t)
    ensures Phase(heap', DoRUnlink(th), t, log')
  {
    assert UnlinkPhase(heap', DoRUnlink(th), t, log');
  }

  lemma RUnlinkPhase(heap: Heap, th: Thread, t: int, log: seq<set<int>>, log': seq<set<int>>)
    requires th.pc == R_UNLINK && UnlinkPhase(heap, th, t, log) && log <= log' && NodeOk(heap[th.victim])
    requires ValidLevel(th.level) && ValidRef(heap, th.find.preds[th.level])
    requires th.level == 0 ==> SawAbsent(log', th.find.start, th.find.key)
    ensures Phase(Unlinked(heap, th.find.preds[th.level], th.victim, th.level, th.tmp, t), DoRUnlink(th), t, log')
  {
    var p := th.find.preds[th.level];
    assert p != th.victim by { assert Brackets(heap, th.find, th.level); }
    var heap' := Unlinked(heap, p, th.victim, th.level, th.tmp, t);
    RUnlinkStays(heap, th, p, th.level);
    RUnlinkVictim(heap, heap', th, log, log');
    RUnlinkAdvances(heap', th, t, log');
  }

  lemma RUnlinkLocks(heap: Heap, th: Thread, t: int)
    requires Locks(heap, th, t) && th.pc == R_UNLINK && Safe(heap, th)
    ensures Locks(Unlinked(heap, th.find.preds[th.level], th.victim, th.level, th.tmp, t), DoRUnlink(th), t)
  {
    var heap', th' := Unlinked(heap, th.find.preds[th.level], th.victim, th.level, th.tmp, t), DoRUnlink(th);
    forall r ensures Holds(th', r) <==> Holds(th, r) {
    }
    LocksFollow(heap, heap', th, th', t, NULL, NULL);
  }

  lemma RUnlinkWork(heap: Heap, heap': Heap, th: Thread, t: int)
    requires Working(heap, th, t) && Retirement(heap, th, t)
    requires th.pc == R_UNLINK && Safe(heap, th) && th.find.preds[th.level] != th.victim
    requires heap' == Unlinked(heap, th.find.preds[th.level], th.victim, th.level, th.tmp, t)
    requires th.level == 0 ==> heap[th.victim].taker < 0 && t >= 0 && !heap[th.victim].retired
    ensures Working(heap', DoRUnlink(th), t) && Retirement(heap', DoRUnlink(th), t)
  {
    forall r | 0 <= r < |heap|
      ensures heap'[r].removing == heap[r].removing && heap'[r].owner == heap[r].owner && heap'[r].creator == heap[r].creator
      ensures heap'[r].fullyLinked == heap[r].fullyLinked && heap'[r].retired == heap[r].retired
      ensures heap'[r].taker == if r == th.victim && th.level == 0 then t else heap[r].taker
    {
    }
  }

  lemma RNullAdvances(heap': Heap, th: Thread, t: int, log': seq<set<int>>)
    requires th.pc == R_NULL && Unlinking(heap', th, log', th.level) && heap'[th.victim].next[th.level] == NULL
    requires th.level == 0 ==> Owned(heap', th.victim, t)
    ensures Phase(heap', DoRNull(th), t, log')
  {
    assert UnlinkPhase(heap', DoRNull(th), t, log');
  }

  lemma RNullPhase(heap: Heap, th: Thread, t: int, log: seq<set<int>>, log': seq<set<int>>)
    requires th.pc == R_NULL && UnlinkPhase(heap, th, t, log) && log <= log'
    ensures Safe(heap, th) && Phase(Nulled(heap, th.victim, th.level), DoRNull(th), t, log')
  {
    var heap' := Nulled(heap, th.victim, th.level);
    SearchedAfter(heap, heap', th.find, log, log');
    SawAbsentKept(log, log', th.find.start, th.find.key);
    assert RValidated(heap', th.find, th.victim, th.level) by {
      forall j | 0 <= j < th.level ensures th.find.preds[j] != th.victim {
        assert Brackets(heap, th.find, j);
      }
    }
    RNullAdvances(heap', th, t, log');
  }

  lemma RNullStanding(heap: Heap, th: Thread, t: int)
    requires Locks(heap, th, t) && Working(heap, th, t) && Retirement(heap, th, t)
    requires th.pc == R_NULL && Safe(heap, th)
    ensures var heap', th' := Nulled(heap, th.victim, th.level), DoRNull(th);
      Locks(heap', th', t) && Working(heap', th', t) && Retirement(heap', th', t)
  {
    var heap', th' := Nulled(heap, th.victim, th.level), DoRNull(th);
    assert Locks(heap', th', t) by {
      forall r ensures Holds(th', r) <==> Holds(th, r) {
      }
      LocksFollow(heap, heap', th, th', t, NULL, NULL);
    }
    WorkFollows(heap, heap', th, th', t);
  }

  // ----- calls and returns -----

  lemma ReturnRetires(heap: Heap, th: Thread, t: int, log: seq<set<int>>)
    requires Retirement(heap, th, t) && th.pc == DONE && FinishPhase(heap, th, t, log)
    ensures HasTaken(th) ==> ValidRef(heap, th.victim) && heap[th.victim].taker == t
    ensures Retirement(ExecHeap(heap, th, t), DoReturn(th), t)
  {
    var heap', th' := ExecHeap(heap, th, t), DoReturn(th);
    if th.op == Remove && th.ret {
      forall r | ValidRef(heap', r) && heap'[r].taker == t
        ensures if heap'[r].retired then r in th'.retired else HasTaken(th') && r == th'.victim
      {
        assert th'.retired[|th.retired|] == th.victim;
        if heap[r].retired { assert r in th.retired; }
      }
    }
  }

  lemma ReturnStanding(heap: Heap, th: Thread, t: int)
    requires Locks(heap, th, t) && Working(heap, th, t) && th.pc == DONE && (HasTaken(th) ==> ValidRef(heap, th.victim))
    ensures Locks(ExecHeap(heap, th, t), DoReturn(th), t) && Working(ExecHeap(heap, th, t), DoReturn(th), t)
  {
    LocksFollow(heap, ExecHeap(heap, th, t), th, DoReturn(th), t, NULL, NULL);
  }
}
