/** Every step of every thread keeps the invariant. */
module SkipListPreservation {
  import opened SkipListMachine
  import opened SkipListInvariant
  import opened SkipListStability
  import opened SkipListWrites
  import opened SkipListLinks
  import opened SkipListGuarantee
  import opened SkipListReads
  import opened SkipListSteps

  ghost predicate Ready(heap: Heap, th: Thread, t: int, log: seq<set<int>>) {
    HeapInv(heap) && ThreadInv(heap, th, t, log) && t >= 0
  }

  /** The step to heap' and th' is one that thread t may take. */
  ghost predicate Good(heap: Heap, heap': Heap, th': Thread, t: int, log: seq<set<int>>) {
    HeapInv(heap') && Guarantee(heap, heap', t) && ThreadInv(heap', th', t, log + [Abs(heap')])
  }

  lemma ReadGood(heap: Heap, th: Thread, th': Thread, t: int, log: seq<set<int>>)
    requires HeapInv(heap) && Locks(heap, th, t) && Working(heap, th, t) && Retirement(heap, th, t)
    requires Phase(heap, th', t, log + [Abs(heap)]) && Rest(th, th', log + [Abs(heap)])
    ensures Good(heap, heap, th', t, log)
  {
    LocalKept(heap, th, th', t);
  }

  lemma StepFStart(heap: Heap, th: Thread, t: int, log: seq<set<int>>)
    requires Ready(heap, th, t, log) && th.pc == F_START
    ensures Safe(heap, th) && Good(heap, heap, DoFStart(heap, th), t, log)
  {
    var log' := log + [Abs(heap)];
    FStartPhase(heap, th, t, log);
    FStartRest(heap, th, log, log');
    ReadGood(heap, th, DoFStart(heap, th), t, log);
  }

  lemma StepFNext(heap: Heap, th: Thread, t: int, log: seq<set<int>>)
    requires Ready(heap, th, t, log) && th.pc == F_NEXT
    ensures Safe(heap, th) && Good(heap, heap, DoFNext(heap, th), t, log)
  {
    var log' := log + [Abs(heap)];
    FNextPhase(heap, th, t, log);
    FNextRest(heap, th, log, log');
    ReadGood(heap, th, DoFNext(heap, th), t, log);
  }

  lemma StepFCheck(heap: Heap, th: Thread, t: int, log: seq<set<int>>)
    requires Ready(heap, th, t, log) && th.pc == F_CHECK
    ensures Safe(heap, th) && Good(heap, heap, DoFCheck(heap, th), t, log)
  {
    var log' := log + [Abs(heap)];
    FCheckPhase(heap, th, t, log);
    FCheckRest(heap, th, log, log');
    ReadGood(heap, th, DoFCheck(heap, th), t, log);
  }

  lemma StepCFully(heap: Heap, th: Thread, t: int, log: seq<set<int>>)
    requires Ready(heap, th, t, log) && th.pc == C_FULLY
    ensures Safe(heap, th) && Good(heap, heap, DoCFully(heap, th), t, log)
  {
    var log' := log + [Abs(heap)];
    CFullyPhase(heap, th, t, log);
    FoundRest(th, DoCFully(heap, th), log, log');
    ReadGood(heap, th, DoCFully(heap, th), t, log);
  }

  lemma StepCMarked(heap: Heap, th: Thread, t: int, log: seq<set<int>>)
    requires Ready(heap, th, t, log) && th.pc == C_MARKED
    ensures Safe(heap, th) && Good(heap, heap, DoCMarked(heap, th), t, log)
  {
    var log' := log + [Abs(heap)];
    CMarkedPhase(heap, th, t, log);
    FoundRest(th, DoCMarked(heap, th), log, log');
    ReadGood(heap, th, DoCMarked(heap, th), t, log);
  }

  lemma StepIFoundMarked(heap: Heap, th: Thread, t: int, log: seq<set<int>>)
    requires Ready(heap, th, t, log) && th.pc == I_FOUND_MARKED
    ensures Safe(heap, th) && Good(heap, heap, DoIFoundMarked(heap, th), t, log)
  {
    var log' := log + [Abs(heap)];
    IFoundMarkedPhase(heap, th, t, log);
    FoundRest(th, DoIFoundMarked(heap, th), log, log');
    ReadGood(heap, th, DoIFoundMarked(heap, th), t, log);
  }

  lemma StepIFoundFully(heap: Heap, th: Thread, t: int, log: seq<set<int>>)
    requires Ready(heap, th, t, log) && th.pc == I_FOUND_FULLY
    ensures Safe(heap, th) && Good(heap, heap, DoIFoundFully(heap, th), t, log)
  {
    var log' := log + [Abs(heap)];
    IFoundFullyPhase(heap, th, t, log);
    FoundRest(th, DoIFoundFully(heap, th), log, log');
    ReadGood(heap, th, DoIFoundFully(heap, th), t, log);
  }

  lemma StepIPredMarked(heap: Heap, th: Thread, t: int, log: seq<set<int>>)
    requires Ready(heap, th, t, log) && th.pc == I_PRED_MARKED
    ensures Safe(heap, th) && Good(heap, heap, DoIPredMarked(heap, th), t, log)
  {
    var log' := log + [Abs(heap)];
    IPredMarkedPhase(heap, th, t, log);
    CheckRest(th, DoIPredMarked(heap, th), log, log');
    ReadGood(heap, th, DoIPredMarked(heap, th), t, log);
  }

  lemma StepISuccMarked(heap: Heap, th: Thread, t: int, log: seq<set<int>>)
    requires Ready(heap, th, t, log) && th.pc == I_SUCC_MARKED
    ensures Safe(heap, th) && Good(heap, heap, DoISuccMarked(heap, th), t, log)
  {
    var log' := log + [Abs(heap)];
    ISuccMarkedPhase(heap, th, t, log);
    CheckRest(th, DoISuccMarked(heap, th), log, log');
    ReadGood(heap, th, DoISuccMarked(heap, th), t, log);
  }

  lemma StepIPredNext(heap: Heap, th: Thread, t: int, log: seq<set<int>>)
    requires Ready(heap, th, t, log) && th.pc == I_PRED_NEXT
    ensures Safe(heap, th) && Good(heap, heap, DoIPredNext(heap, th), t, log)
  {
    var log' := log + [Abs(heap)];
    PredNextSafe(heap, th, t, log);
    IPredNextPhase(heap, th, t, log);
    CheckRest(th, DoIPredNext(heap, th), log, log');
    ReadGood(heap, th, DoIPredNext(heap, th), t, log);
  }

  lemma StepRPredMarked(heap: Heap, th: Thread, t: int, log: seq<set<int>>)
    requires Ready(heap, th, t, log) && th.pc == R_PRED_MARKED
    ensures Safe(heap, th) && Good(heap, heap, DoRPredMarked(heap, th), t, log)
  {
    var log' := log + [Abs(heap)];
    RPredMarkedPhase(heap, th, t, log);
    CheckRest(th, DoRPredMarked(heap, th), log, log');
    ReadGood(heap, th, DoRPredMarked(heap, th), t, log);
  }

  lemma StepRPredNext(heap: Heap, th: Thread, t: int, log: seq<set<int>>)
    requires Ready(heap, th, t, log) && th.pc == R_PRED_NEXT
    ensures Safe(heap, th) && Good(heap, heap, DoRPredNext(heap, th), t, log)
  {
    var log' := log + [Abs(heap)];
    PredNextSafe(heap, th, t, log);
    if heap[th.find.preds[th.level]].next[th.level] == th.victim {
      RPredNextValid(heap, th, t, log);
    }
    RPredNextPhase(heap, th, t, log);
    CheckRest(th, DoRPredNext(heap, th), log, log');
    ReadGood(heap, th, DoRPredNext(heap, th), t, log);
  }

  lemma StepRCheck(heap: Heap, th: Thread, t: int, log: seq<set<int>>)
    requires Ready(heap, th, t, log) && th.pc == R_CHECK
    ensures Safe(heap, th) && Good(heap, heap, DoRCheck(heap, th), t, log)
  {
    var log' := log + [Abs(heap)];
    RCheckPhase(heap, th, t, log);
    RCheckRest(heap, th, log, log');
    ReadGood(heap, th, DoRCheck(heap, th), t, log);
  }

  lemma StepRRead(heap: Heap, th: Thread, t: int, log: seq<set<int>>)
    requires Ready(heap, th, t, log) && th.pc == R_READ
    ensures Safe(heap, th) && Good(heap, heap, DoRRead(heap, th), t, log)
  {
    var log' := log + [Abs(heap)];
    RReadPhase(heap, th, t, log);
    CheckRest(th, DoRRead(heap, th), log, log');
    ReadGood(heap, th, DoRRead(heap, th), t, log);
  }

  // ----- steps that write -----

  /** The counters of a call whose effect on the set does not change. */
  ghost predicate SameEffect(th: Thread, th': Thread) {
    SameCall(th, th') && DidSoFar(th') == DidSoFar(th) && BalanceSoFar(th') == BalanceSoFar(th) && th.pc != IDLE
  }

  lemma LockPredWork(heap: Heap, th: Thread, t: int)
    requires th.pc == I_LOCK || th.pc == R_LOCK_PRED
    requires Safe(heap, th) && Working(heap, th, t) && Retirement(heap, th, t)
    requires FirstAt(th, th.level) ==> !heap[th.find.preds[th.level]].removing
    ensures var th' := DoLockPred(th, if th.pc == I_LOCK then I_PRED_MARKED else R_PRED_MARKED);
      SameEffect(th, th') && Working(ExecHeap(heap, th, t), th', t) && Retirement(ExecHeap(heap, th, t), th', t)
  {
    WorkFollows(heap, ExecHeap(heap, th, t), th, DoLockPred(th, if th.pc == I_LOCK then I_PRED_MARKED else R_PRED_MARKED), t);
  }

  lemma UnlockedNotRemoving(heap: Heap, r: Ref)
    requires Nodes(heap) && Sentinels(heap) && ValidRef(heap, r) && !heap[r].lock
    ensures !heap[r].removing
  {
    assert r < 2 || NodeOk(heap[r]);
  }

  lemma LockPredHeap(heap: Heap, th: Thread, t: int)
    requires th.pc == I_LOCK || th.pc == R_LOCK_PRED
    requires HeapInv(heap) && Safe(heap, th)
    requires FirstAt(th, th.level) ==> !heap[th.find.preds[th.level]].lock
    ensures HeapInv(ExecHeap(heap, th, t)) && Guarantee(heap, ExecHeap(heap, th, t), t) && SameButLocks(heap, ExecHeap(heap, th, t))
    ensures FirstAt(th, th.level) ==> !heap[th.find.preds[th.level]].removing
  {
    if FirstAt(th, th.level) {
      UnlockedNotRemoving(heap, th.find.preds[th.level]);
      LockKeeps(heap, th.find.preds[th.level], t);
      LockGuarantee(heap, th.find.preds[th.level], t);
    }
  }

  lemma StepILock(heap: Heap, th: Thread, t: int, log: seq<set<int>>)
    requires Ready(heap, th, t, log) && th.pc == I_LOCK && !Blocked(heap, th)
    ensures Safe(heap, th) && Good(heap, ExecHeap(heap, th, t), DoLockPred(th, I_PRED_MARKED), t, log)
  {
    ILockPhase(heap, heap, th, t, log, log);
    LockPredLocks(heap, th, DoLockPred(th, I_PRED_MARKED), t);
    LockPredHeap(heap, th, t);
    var heap' := ExecHeap(heap, th, t);
    LockPredWork(heap, th, t);
    ILockPhase(heap, heap', th, t, log, log + [Abs(heap')]);
    CallGoesOn(th, DoLockPred(th, I_PRED_MARKED), log, log + [Abs(heap')]);
  }

  lemma StepRLockPred(heap: Heap, th: Thread, t: int, log: seq<set<int>>)
    requires Ready(heap, th, t, log) && th.pc == R_LOCK_PRED && !Blocked(heap, th)
    ensures Safe(heap, th) && Good(heap, ExecHeap(heap, th, t), DoLockPred(th, R_PRED_MARKED), t, log)
  {
    RLockPredPhase(heap, heap, th, t, log, log);
    LockPredLocks(heap, th, DoLockPred(th, R_PRED_MARKED), t);
    LockPredHeap(heap, th, t);
    var heap' := ExecHeap(heap, th, t);
    LockPredWork(heap, th, t);
    RLockPredPhase(heap, heap', th, t, log, log + [Abs(heap')]);
    CallGoesOn(th, DoLockPred(th, R_PRED_MARKED), log, log + [Abs(heap')]);
  }

  /** The steps of a removal that leave its effect on the set as it is. */
  lemma RemoveCall(th: Thread, th': Thread, log: seq<set<int>>, log': seq<set<int>>)
    requires CallOk(th, log) && log <= log' && th.op == Remove
    requires
      || (th.pc == R_LOCK && th' == th.(pc := R_CHECK, topLevel := th'.topLevel))
      || (th.pc == R_GIVE_UP && th' == StartUnlock(th) && !th.valid)
      || (th.pc == R_NULL && th' == DoRNull(th) && th.level >= 0)
      || (th.pc == R_UNMARK && th' == DoRUnmark(th))
      || (th.pc == R_RELEASE && th' == StartUnlock(th) && th.valid)
      || (th.pc == R_ABANDON && th' == DoRAbandon(th))
    ensures CallOk(th', log')
  {
  }

  lemma StepRLock(heap: Heap, th: Thread, t: int, log: seq<set<int>>)
    requires Ready(heap, th, t, log) && th.pc == R_LOCK && !Blocked(heap, th)
    ensures Safe(heap, th) && Good(heap, SetLock(heap, th.victim, t), DoRLock(heap, th), t, log)
  {
    var heap', th' := SetLock(heap, th.victim, t), DoRLock(heap, th);
    UnlockedNotRemoving(heap, th.victim);
    LockKeeps(heap, th.victim, t);
    LockGuarantee(heap, th.victim, t);
    RLockLocks(heap, th, t);
    WorkFollows(heap, heap', th, th', t);
    RLockPhase(heap, heap', th, t, log, log + [Abs(heap')]);
    RemoveCall(th, th', log, log + [Abs(heap')]);
  }

  lemma QuietWhenWorking(heap: Heap, th: Thread, t: int)
    requires Working(heap, th, t) && !LinkPC(th.pc) && t >= 0
    ensures Quiet(heap, t, th.victim)
    ensures !InRemoval(th.pc) ==> forall r :: Quiet(heap, t, r)
    ensures !InRemoval(th.pc) ==> forall r :: ValidRef(heap, r) && heap[r].owner == t ==> !heap[r].removing
  {
  }

  lemma StepRAbandon(heap: Heap, th: Thread, t: int, log: seq<set<int>>)
    requires Ready(heap, th, t, log) && th.pc == R_ABANDON
    ensures Safe(heap, th) && Good(heap, ClearLock(heap, th.victim), DoRAbandon(th), t, log)
  {
    var heap', th' := ClearLock(heap, th.victim), DoRAbandon(th);
    ReleaseLocks(heap, th, th', t, log);
    QuietWhenWorking(heap, th, t);
    UnlockKeeps(heap, th.victim, t);
    UnlockGuarantee(heap, th.victim, t);
    WorkFollows(heap, heap', th, th', t);
    RAbandonPhase(heap, heap', th, t, log, log + [Abs(heap')]);
    RemoveCall(th, th', log, log + [Abs(heap')]);
  }

  lemma StepRGiveUp(heap: Heap, th: Thread, t: int, log: seq<set<int>>)
    requires Ready(heap, th, t, log) && th.pc == R_GIVE_UP
    ensures Safe(heap, th) && Good(heap, ClearLock(heap, th.victim), StartUnlock(th), t, log)
  {
    var heap', th' := ClearLock(heap, th.victim), StartUnlock(th);
    ReleaseLocks(heap, th, th', t, log);
    QuietWhenWorking(heap, th, t);
    UnlockKeeps(heap, th.victim, t);
    UnlockGuarantee(heap, th.victim, t);
    WorkFollows(heap, heap', th, th', t);
    RGiveUpPhase(heap, heap', th, t, log, log + [Abs(heap')]);
    RemoveCall(th, th', log, log + [Abs(heap')]);
  }

  /** Releasing the unlinked victim ends the removal. */
  lemma ReleaseWork(heap: Heap, th: Thread, t: int)
    requires Working(heap, th, t) && Retirement(heap, th, t)
    requires th.pc == R_RELEASE && th.op == Remove && th.valid && ValidRef(heap, th.victim)
    ensures Working(ClearLock(heap, th.victim), StartUnlock(th), t) && Retirement(ClearLock(heap, th.victim), StartUnlock(th), t)
  {
  }

  lemma StepRRelease(heap: Heap, th: Thread, t: int, log: seq<set<int>>)
    requires Ready(heap, th, t, log) && th.pc == R_RELEASE
    ensures Safe(heap, th) && Good(heap, ClearLock(heap, th.victim), StartUnlock(th), t, log)
  {
    var heap', th' := ClearLock(heap, th.victim), StartUnlock(th);
    ReleaseLocks(heap, th, th', t, log);
    QuietWhenWorking(heap, th, t);
    UnlockKeeps(heap, th.victim, t);
    UnlockGuarantee(heap, th.victim, t);
    ReleaseWork(heap, th, t);
    RReleasePhase(heap, heap', th, t, log, log + [Abs(heap')]);
    RemoveCall(th, th', log, log + [Abs(heap')]);
  }

  lemma StepRMark(heap: Heap, th: Thread, t: int, log: seq<set<int>>)
    requires Ready(heap, th, t, log) && th.pc == R_MARK
    ensures Safe(heap, th) && Good(heap, SetMark(heap, th.victim), DoRMark(th), t, log)
  {
    assert Holds(th, th.victim);
    MarkKeeps(heap, th.victim, t);
    MarkGuarantee(heap, th.victim, t);
    MarkStanding(heap, th, t);
    RMarkPhase(heap, th, t, log, log + [Abs(SetMark(heap, th.victim))]);
  }

  lemma StepRUnmark(heap: Heap, th: Thread, t: int, log: seq<set<int>>)
    requires Ready(heap, th, t, log) && th.pc == R_UNMARK
    ensures Safe(heap, th) && Good(heap, ClearMark(heap, th.victim), DoRUnmark(th), t, log)
  {
    assert Holds(th, th.victim);
    UnmarkKeeps(heap, th.victim, t);
    UnmarkGuarantee(heap, th.victim, t);
    UnmarkStanding(heap, th, t);
    RUnmarkPhase(heap, th, t, log, log + [Abs(ClearMark(heap, th.victim))]);
    RemoveCall(th, DoRUnmark(th), log, log + [Abs(ClearMark(heap, th.victim))]);
  }

  lemma StepIAlloc(heap: Heap, th: Thread, t: int, log: seq<set<int>>)
    requires Ready(heap, th, t, log) && th.pc == I_ALLOC
    ensures Good(heap, heap + [Fresh(th.find.key, th.topLevel, t)], DoIAlloc(heap, th), t, log)
  {
    var heap' := heap + [Fresh(th.find.key, th.topLevel, t)];
    AllocKeeps(heap, th.find.key, th.topLevel, t);
    AllocGuarantee(heap, th.find.key, th.topLevel, t);
    IAllocStanding(heap, th, t, log);
    IAllocPhase(heap, th, t, log, log + [Abs(heap')]);
  }

  lemma StepIFill(heap: Heap, th: Thread, t: int, log: seq<set<int>>)
    requires Ready(heap, th, t, log) && th.pc == I_FILL
    ensures Safe(heap, th)
    ensures Good(heap, Fill(heap, th.newNode, th.level, th.find.succs[th.level]), DoIFill(th), t, log)
  {
    var heap' := Fill(heap, th.newNode, th.level, th.find.succs[th.level]);
    FillKeeps(heap, th.newNode, th.level, th.find.succs[th.level], t);
    FillGuarantee(heap, th.newNode, th.level, th.find.succs[th.level], t);
    LinkStanding(heap, heap', th, DoIFill(th), t);
    LinkCall(th, log, log + [Abs(heap')]);
    IFillPhase(heap, th, t, log, log + [Abs(heap')]);
  }

  lemma LinkCall(th: Thread, log: seq<set<int>>, log': seq<set<int>>)
    requires CallOk(th, log) && (th.pc == I_FILL || th.pc == I_LINK) && log <= log' && 0 <= th.level <= th.topLevel
    ensures CallOk(if th.pc == I_FILL then DoIFill(th) else DoILink(th), log')
  {
  }

  lemma ILinkHeap(heap: Heap, th: Thread, t: int, log: seq<set<int>>)
    requires HeapInv(heap) && Locks(heap, th, t) && Working(heap, th, t)
    requires th.pc == I_LINK && Phase(heap, th, t, log)
    ensures Safe(heap, th)
    ensures HeapInv(Link(heap, th.find.preds[th.level], th.newNode, th.level))
    ensures Guarantee(heap, Link(heap, th.find.preds[th.level], th.newNode, th.level), t)
  {
    ILinkPre(heap, th, t, log);
    LinkKeeps(heap, th.find.preds[th.level], th.newNode, th.level, t);
    LinkGuarantee(heap, th.find.preds[th.level], th.newNode, th.level, t);
  }

  lemma ILinkThread(heap: Heap, th: Thread, t: int, log: seq<set<int>>)
    requires ThreadInv(heap, th, t, log) && th.pc == I_LINK && Safe(heap, th)
    ensures ThreadInv(Link(heap, th.find.preds[th.level], th.newNode, th.level), DoILink(th), t,
                      log + [Abs(Link(heap, th.find.preds[th.level], th.newNode, th.level))])
  {
    var heap' := Link(heap, th.find.preds[th.level], th.newNode, th.level);
    LinkStanding(heap, heap', th, DoILink(th), t);
    LinkCall(th, log, log + [Abs(heap')]);
    ILinkPhase(heap, th, t, log, log + [Abs(heap')]);
  }

  lemma StepILink(heap: Heap, th: Thread, t: int, log: seq<set<int>>)
    requires Ready(heap, th, t, log) && th.pc == I_LINK
    ensures Safe(heap, th)
    ensures Good(heap, Link(heap, th.find.preds[th.level], th.newNode, th.level), DoILink(th), t, log)
  {
    ILinkHeap(heap, th, t, log);
    ILinkThread(heap, th, t, log);
  }

  lemma StepIFull(heap: Heap, th: Thread, t: int, log: seq<set<int>>)
    requires Ready(heap, th, t, log) && th.pc == I_FULL
    ensures Safe(heap, th) && Good(heap, SetFully(heap, th.newNode), DoIFull(th), t, log)
  {
    var heap' := SetFully(heap, th.newNode);
    FullyKeeps(heap, th.newNode, t);
    FullyGuarantee(heap, th.newNode, t);
    LinkStanding(heap, heap', th, DoIFull(th), t);
    IFullPhase(heap, th, t, log, log + [Abs(heap')]);
  }

  lemma RUnlinkCall(th: Thread, log: seq<set<int>>, log': seq<set<int>>)
    requires CallOk(th, log) && th.pc == R_UNLINK && log <= log' && th.op == Remove
    ensures CallOk(DoRUnlink(th), log')
  {
  }

  lemma RUnlinkHeap(heap: Heap, th: Thread, t: int, log: seq<set<int>>)
    requires HeapInv(heap) && Locks(heap, th, t) && Working(heap, th, t) && t >= 0
    requires th.pc == R_UNLINK && Phase(heap, th, t, log)
    ensures Safe(heap, th) && UnlinkPre(heap, th.find.preds[th.level], th.victim, th.level, t)
    ensures th.find.preds[th.level] != th.victim
    ensures var heap' := Unlinked(heap, th.find.preds[th.level], th.victim, th.level, th.tmp, t);
      HeapInv(heap') && Guarantee(heap, heap', t) && (th.level == 0 ==> th.find.key !in Abs(heap'))
  {
    RUnlinkPre(heap, th, t, log);
    var p := th.find.preds[th.level];
    UnlinkKeeps(heap, p, th.victim, th.level, t);
    UnlinkGuarantee(heap, p, th.victim, th.level, t);
    UnlinkAbs(heap, p, th.victim, th.level, t);
    assert LinkOk(heap, p, th.level);
  }

  lemma RUnlinkThread(heap: Heap, heap': Heap, th: Thread, t: int, log: seq<set<int>>)
    requires ThreadInv(heap, th, t, log) && th.pc == R_UNLINK && t >= 0
    requires Safe(heap, th) && th.find.preds[th.level] != th.victim
    requires heap' == Unlinked(heap, th.find.preds[th.level], th.victim, th.level, th.tmp, t)
    requires NodeOk(heap[th.victim]) && heap[th.victim].taker < 0
    requires th.level == 0 ==> th.find.key !in Abs(heap')
    ensures ThreadInv(heap', DoRUnlink(th), t, log + [Abs(heap')])
  {
    RUnlinkLocks(heap, th, t);
    RUnlinkWork(heap, heap', th, t);
    RUnlinkCall(th, log, log + [Abs(heap')]);
    if th.level == 0 { SeeAbsent(log + [Abs(heap')], th.find.start, th.find.key); }
    RUnlinkPhase(heap, th, t, log, log + [Abs(heap')]);
  }

  lemma StepRUnlink(heap: Heap, th: Thread, t: int, log: seq<set<int>>)
    requires Ready(heap, th, t, log) && th.pc == R_UNLINK
    ensures Safe(heap, th)
    ensures Good(heap, Unlinked(heap, th.find.preds[th.level], th.victim, th.level, th.tmp, t), DoRUnlink(th), t, log)
  {
    RUnlinkHeap(heap, th, t, log);
    assert NodeOk(heap[th.victim]);
    RUnlinkThread(heap, Unlinked(heap, th.find.preds[th.level], th.victim, th.level, th.tmp, t), th, t, log);
  }

  lemma StepRNull(heap: Heap, th: Thread, t: int, log: seq<set<int>>)
    requires Ready(heap, th, t, log) && th.pc == R_NULL
    ensures Safe(heap, th) && Good(heap, Nulled(heap, th.victim, th.level), DoRNull(th), t, log)
  {
    assert Holds(th, th.victim);
    var heap' := Nulled(heap, th.victim, th.level);
    NullKeeps(heap, th.victim, th.level, t);
    NullGuarantee(heap, th.victim, th.level, t);
    RNullStanding(heap, th, t);
    RNullPhase(heap, th, t, log, log + [Abs(heap')]);
    RemoveCall(th, DoRNull(th), log, log + [Abs(heap')]);
  }

  lemma UnlockHeap(heap: Heap, th: Thread, t: int)
    requires HeapInv(heap) && Safe(heap, th) && th.pc == UNLOCK && Working(heap, th, t) && t >= 0
    requires FirstAt(th, th.level) ==> Held(heap, th.find.preds[th.level], t)
    ensures HeapInv(ExecHeap(heap, th, t)) && Guarantee(heap, ExecHeap(heap, th, t), t)
    ensures SameButLocks(heap, ExecHeap(heap, th, t)) && SameWork(heap, ExecHeap(heap, th, t), t)
  {
    if FirstAt(th, th.level) {
      QuietWhenWorking(heap, th, t);
      UnlockKeeps(heap, th.find.preds[th.level], t);
      UnlockGuarantee(heap, th.find.preds[th.level], t);
    }
  }

  lemma UnlockEffect(th: Thread)
    requires th.pc == UNLOCK && th.op != Contains
    ensures SameEffect(th, DoUnlock(th))
  {
  }

  lemma UnlockThread(heap: Heap, th: Thread, t: int, log: seq<set<int>>)
    requires ThreadInv(heap, th, t, log) && th.pc == UNLOCK
    requires Safe(heap, th) && SameButLocks(heap, ExecHeap(heap, th, t))
    requires Locks(ExecHeap(heap, th, t), DoUnlock(th), t) && SameWork(heap, ExecHeap(heap, th, t), t)
    ensures ThreadInv(ExecHeap(heap, th, t), DoUnlock(th), t, log + [Abs(ExecHeap(heap, th, t))])
  {
    var heap' := ExecHeap(heap, th, t);
    UnlockEffect(th);
    WorkFollows(heap, heap', th, DoUnlock(th), t);
    UnlockPhase(heap, heap', th, t, log, log + [Abs(heap')]);
    CallGoesOn(th, DoUnlock(th), log, log + [Abs(heap')]);
  }

  lemma StepUnlock(heap: Heap, th: Thread, t: int, log: seq<set<int>>)
    requires Ready(heap, th, t, log) && th.pc == UNLOCK
    ensures Safe(heap, th) && Good(heap, ExecHeap(heap, th, t), DoUnlock(th), t, log)
  {
    UnlockLocks(heap, th, t);
    UnlockHeap(heap, th, t);
    UnlockThread(heap, th, t, log);
  }

  lemma StepDone(heap: Heap, th: Thread, t: int, log: seq<set<int>>)
    requires Ready(heap, th, t, log) && th.pc == DONE
    ensures HasTaken(th) ==> ValidRef(heap, th.victim)
    ensures Good(heap, ExecHeap(heap, th, t), DoReturn(th), t, log)
  {
    ReturnRetires(heap, th, t, log);
    ReturnStanding(heap, th, t);
    if HasTaken(th) {
      assert ExecHeap(heap, th, t) == Handed(heap, th.victim);
      HandKeeps(heap, th.victim, t);
      HandGuarantee(heap, th.victim, t);
    } else {
      assert ExecHeap(heap, th, t) == heap;
    }
  }

  lemma StepCall(heap: Heap, th: Thread, t: int, log: seq<set<int>>, op: Op, key: int, height: int, filling: bool)
    requires Ready(heap, th, t, log) && th.pc == IDLE
    requires MIN_KEY < key < MAX_KEY && 0 <= height < MAX_LEVEL
    ensures Good(heap, heap, DoCall(th, op, key, height, filling, |log|), t, log)
  {
  }

  // ----- all steps together -----

  lemma StepSearch(heap: Heap, th: Thread, t: int, log: seq<set<int>>)
    requires Ready(heap, th, t, log) && F_START <= th.pc <= I_FOUND_FULLY
    ensures Safe(heap, th) && Good(heap, ExecHeap(heap, th, t), ExecThread(heap, th), t, log)
  {
    if th.pc == F_START { StepFStart(heap, th, t, log); }
    else if th.pc == F_NEXT { StepFNext(heap, th, t, log); }
    else if th.pc == F_CHECK { StepFCheck(heap, th, t, log); }
    else if th.pc == C_FULLY { StepCFully(heap, th, t, log); }
    else if th.pc == C_MARKED { StepCMarked(heap, th, t, log); }
    else if th.pc == I_FOUND_MARKED { StepIFoundMarked(heap, th, t, log); }
    else { StepIFoundFully(heap, th, t, log); }
  }

  lemma StepInsert(heap: Heap, th: Thread, t: int, log: seq<set<int>>)
    requires Ready(heap, th, t, log) && I_LOCK <= th.pc <= I_FULL && !Blocked(heap, th)
    ensures Safe(heap, th) && Good(heap, ExecHeap(heap, th, t), ExecThread(heap, th), t, log)
  {
    if th.pc == I_LOCK { StepILock(heap, th, t, log); }
    else if th.pc == I_PRED_MARKED { StepIPredMarked(heap, th, t, log); }
    else if th.pc == I_SUCC_MARKED { StepISuccMarked(heap, th, t, log); }
    else if th.pc == I_PRED_NEXT { StepIPredNext(heap, th, t, log); }
    else if th.pc == I_ALLOC { StepIAlloc(heap, th, t, log); }
    else if th.pc == I_FILL { StepIFill(heap, th, t, log); }
    else if th.pc == I_LINK { StepILink(heap, th, t, log); }
    else { StepIFull(heap, th, t, log); }
  }

  lemma StepVictim(heap: Heap, th: Thread, t: int, log: seq<set<int>>)
    requires Ready(heap, th, t, log) && R_LOCK <= th.pc <= R_UNMARK && !Blocked(heap, th)
    ensures Safe(heap, th) && Good(heap, ExecHeap(heap, th, t), ExecThread(heap, th), t, log)
  {
    if th.pc == R_LOCK { StepRLock(heap, th, t, log); }
    else if th.pc == R_CHECK { StepRCheck(heap, th, t, log); }
    else if th.pc == R_ABANDON { StepRAbandon(heap, th, t, log); }
    else if th.pc == R_MARK { StepRMark(heap, th, t, log); }
    else if th.pc == R_GIVE_UP { StepRGiveUp(heap, th, t, log); }
    else { StepRUnmark(heap, th, t, log); }
  }

  lemma StepRemove(heap: Heap, th: Thread, t: int, log: seq<set<int>>)
    requires Ready(heap, th, t, log) && R_LOCK_PRED <= th.pc <= R_RELEASE && !Blocked(heap, th)
    ensures Safe(heap, th) && Good(heap, ExecHeap(heap, th, t), ExecThread(heap, th), t, log)
  {
    if th.pc == R_LOCK_PRED { StepRLockPred(heap, th, t, log); }
    else if th.pc == R_PRED_MARKED { StepRPredMarked(heap, th, t, log); }
    else if th.pc == R_PRED_NEXT { StepRPredNext(heap, th, t, log); }
    else if th.pc == R_READ { StepRRead(heap, th, t, log); }
    else if th.pc == R_UNLINK { StepRUnlink(heap, th, t, log); }
    else if th.pc == R_NULL { StepRNull(heap, th, t, log); }
    else { StepRRelease(heap, th, t, log); }
  }

  lemma StepThread(heap: Heap, th: Thread, t: int, log: seq<set<int>>)
    requires Ready(heap, th, t, log) && th.pc != IDLE && !Blocked(heap, th)
    ensures Safe(heap, th) && (HasTaken(th) && th.pc == DONE ==> ValidRef(heap, th.victim))
    ensures Good(heap, ExecHeap(heap, th, t), ExecThread(heap, th), t, log)
  {
    if th.pc <= I_FOUND_FULLY { StepSearch(heap, th, t, log); }
    else if th.pc <= I_FULL { StepInsert(heap, th, t, log); }
    else if th.pc <= R_UNMARK { StepVictim(heap, th, t, log); }
    else if th.pc <= R_RELEASE { StepRemove(heap, th, t, log); }
    else if th.pc == UNLOCK { StepUnlock(heap, th, t, log); }
    else { StepDone(heap, th, t, log); }
  }

  // ----- the whole state -----

  lemma OwnersKept(heap: Heap, heap': Heap, t: int, n: int)
    requires Owners(heap, n) && Guarantee(heap, heap', t) && 0 <= t < n && |heap| >= 2
    ensures Owners(heap', n)
  {
    forall r | ValidRef(heap', r)
      ensures heap'[r].lock ==> 0 <= heap'[r].owner < n
      ensures 2 <= r ==> 0 <= heap'[r].creator < n
      ensures heap'[r].taker < n
    {
      if r < |heap| { assert NodeGuarantee(heap[r], heap'[r], t); }
    }
  }

  lemma InvKept(s: State, t: int, heap': Heap, th': Thread)
    requires Inv(s) && 0 <= t < |s.threads| && Good(s.heap, heap', th', t, s.log)
    ensures Inv(State(heap', s.threads[t := th'], s.log + [Abs(heap')]))
  {
    var s' := State(heap', s.threads[t := th'], s.log + [Abs(heap')]);
    OwnersKept(s.heap, heap', t, |s.threads|);
    forall u | 0 <= u < |s'.threads| ensures ThreadInv(heap', s'.threads[u], u, s'.log) {
      if u != t {
        ThreadKept(s.heap, heap', t, u, s.threads[u], s.log, s'.log);
      }
    }
  }

  lemma ApplyKeepsInv(s: State, t: int, a: Action)
    requires Inv(s) && Enabled(s, t, a)
    ensures Inv(Apply(s, t, a))
    ensures Guarantee(s.heap, Apply(s, t, a).heap, t)
  {
    var th := s.threads[t];
    assert ThreadInv(s.heap, th, t, s.log);
    match a
    case Call(op, key, height, filling) =>
      var th' := DoCall(th, op, key, height, filling, |s.log|);
      StepCall(s.heap, th, t, s.log, op, key, height, filling);
      InvKept(s, t, s.heap, th');
    case Go =>
      StepThread(s.heap, th, t, s.log);
      InvKept(s, t, ExecHeap(s.heap, th, t), ExecThread(s.heap, th));
  }

  lemma InitialHeap()
    ensures HeapInv(INITIAL_HEAP) && Abs(INITIAL_HEAP) == {}
  {
    var heap := INITIAL_HEAP;
    forall r, j | ValidRef(heap, r) && ValidLevel(j) && j < heap[r].ever ensures LinkOk(heap, r, j) {
      assert r == HEAD || r == TAIL;
    }
  }

  lemma InitHolds(s: State)
    requires Init(s)
    ensures Inv(s)
  {
    InitialHeap();
    forall t | 0 <= t < |s.threads| ensures ThreadInv(s.heap, s.threads[t], t, s.log) {
      assert s.threads[t] == RESTING;
    }
  }
}
