/** Steps that only read shared memory keep the invariant of the thread that takes them. */
module SkipListReads {
  import opened SkipListMachine
  import opened SkipListInvariant
  import opened SkipListStability

  /** th' holds the same locks and works on the same nodes as th. */
  ghost predicate SameHolds(th: Thread, th': Thread) {
    && (forall r :: Holds(th', r) <==> Holds(th, r))
    && (InRemoval(th.pc) ==> InRemoval(th'.pc) && th'.victim == th.victim)
    && (LinkPC(th.pc) ==> LinkPC(th'.pc) && th'.newNode == th.newNode)
    && th'.retired == th.retired
    && (HasTaken(th) ==> HasTaken(th') && th'.victim == th.victim)
  }

  lemma LocalKept(heap: Heap, th: Thread, th': Thread, t: int)
    requires Locks(heap, th, t) && Working(heap, th, t) && Retirement(heap, th, t) && SameHolds(th, th')
    ensures Locks(heap, th', t) && Working(heap, th', t) && Retirement(heap, th', t)
  {
  }

  /** A thread that has taken no lock in its current attempt. */
  ghost predicate Free(pc: PC) {
    F_START <= pc <= I_FOUND_FULLY || pc == R_LOCK || pc == DONE
  }

  lemma FreeHolds(th: Thread, th': Thread)
    requires Free(th.pc) && !HasTaken(th) && th'.retired == th.retired
    requires Free(th'.pc) || (th'.pc == I_LOCK && th'.highest < 0)
    ensures SameHolds(th, th')
  {
    forall r ensures !Holds(th, r) && !Holds(th', r) {
    }
  }

  /** What a step must show of the call's counters and of the locks when it only reads. */
  ghost predicate Rest(th: Thread, th': Thread, log: seq<set<int>>) {
    CallOk(th', log) && SameHolds(th, th')
  }

  /** The step belongs to the same call. */
  ghost predicate SameCall(th: Thread, th': Thread) {
    && th'.op == th.op && th'.topLevel == th.topLevel && th'.did == th.did && th'.bal == th.bal
    && th'.find.key == th.find.key && th'.find.start == th.find.start && th'.retired == th.retired
  }

  lemma CallGoesOn(th: Thread, th': Thread, log: seq<set<int>>, log': seq<set<int>>)
    requires CallOk(th, log) && SameCall(th, th') && log <= log' && th.pc != IDLE
    requires DidSoFar(th') == DidSoFar(th) && BalanceSoFar(th') == BalanceSoFar(th)
    ensures CallOk(th', log')
  {
  }

  lemma SearchedOn(heap: Heap, find: Find, log: seq<set<int>>, log': seq<set<int>>)
    requires Searched(heap, find, log) && log <= log'
    ensures Searched(heap, find, log')
  {
    SawAbsentKept(log, log', find.start, find.key);
  }

  lemma SearchingOn(heap: Heap, th: Thread, log: seq<set<int>>, log': seq<set<int>>)
    requires Searching(heap, th, log) && log <= log'
    ensures Searching(heap, th, log')
  {
    SawAbsentKept(log, log', th.find.start, th.find.key);
  }

  // ----- sl_find_pure -----

  lemma FStartRest(heap: Heap, th: Thread, log: seq<set<int>>, log': seq<set<int>>)
    requires ValidRef(heap, HEAD) && CallOk(th, log) && th.pc == F_START && log <= log'
    ensures Rest(th, DoFStart(heap, th), log')
  {
    FreeHolds(th, DoFStart(heap, th));
  }

  lemma FStartPhase(heap: Heap, th: Thread, t: int, log: seq<set<int>>)
    requires Sentinels(heap) && CallOk(th, log) && th.pc == F_START
    ensures Safe(heap, th) && Phase(heap, DoFStart(heap, th), t, log + [Abs(heap)])
  {
  }

  /** No level-0-linked node has a key strictly inside a gap. */
  lemma AbsentInGap(heap: Heap, a: int, b: int, key: int)
    requires Gap(heap, a, b, 0) && a < key < b
    ensures forall r :: Linked(heap, r, 0) ==> heap[r].key != key
    ensures key !in Abs(heap)
  {
    forall r | 2 <= r < |heap| && 0 < heap[r].now && heap[r].fullyLinked ensures heap[r].key != key {
      assert Linked(heap, r, 0);
    }
  }

  /** Reading the level-0 link of any node that was ever linked, even one unlinked meanwhile, and finding a
      greater key: at that instant no level-0-linked node has the key. */
  lemma SearchReadsAbsent(heap: Heap, pred: Ref, key: int)
    requires Links(heap) && ValidRef(heap, pred) && 0 < heap[pred].ever && heap[pred].key < key
    requires ValidRef(heap, heap[pred].next[0]) && key < heap[heap[pred].next[0]].key
    ensures forall r :: Linked(heap, r, 0) ==> heap[r].key != key
    ensures key !in Abs(heap)
  {
    assert LinkOk(heap, pred, 0);
    AbsentInGap(heap, heap[pred].key, heap[heap[pred].next[0]].key, key);
  }

  lemma ReadsNode(heap: Heap, pred: Ref, level: int)
    requires Links(heap) && Nodes(heap) && Sentinels(heap)
    requires ValidRef(heap, pred) && ValidLevel(level) && level < heap[pred].ever
    ensures heap[pred].next[level] != UNSET
    ensures heap[pred].next[level] != NULL ==>
      Linked(heap, heap[pred].next[level], level) && KeyBelow(heap, pred, heap[pred].next[level])
      && level < heap[heap[pred].next[level]].ever
  {
    assert LinkOk(heap, pred, level);
    assert pred < 2 || NodeOk(heap[pred]);
    var c := heap[pred].next[level];
    assert 2 <= c < |heap| ==> NodeOk(heap[c]);
  }

  lemma FNextArrives(heap: Heap, th: Thread, th': Thread, log: seq<set<int>>)
    requires HeapInv(heap) && Searching(heap, th, log) && 0 <= th.find.start < |log|
    requires heap[th.pred].next[th.level] != NULL && MIN_KEY < th.find.key < MAX_KEY
    requires th' == th.(pc := F_CHECK, curr := heap[th.pred].next[th.level])
    ensures AtNode(heap, th', log + [Abs(heap)])
  {
    ReadsNode(heap, th.pred, th.level);
    if th.level == 0 && th.find.key < heap[th'.curr].key {
      SearchReadsAbsent(heap, th.pred, th.find.key);
      SeeAbsent(log + [Abs(heap)], th.find.start, th.find.key);
    }
  }

  lemma FNextSearches(heap: Heap, th: Thread, log: seq<set<int>>)
    requires HeapInv(heap) && CallOk(th, log) && th.pc == F_NEXT && SearchPhase(heap, th, log)
    ensures Safe(heap, th)
    ensures DoFNext(heap, th).pc == F_CHECK ==> SearchPhase(heap, DoFNext(heap, th), log + [Abs(heap)])
  {
    ReadsNode(heap, th.pred, th.level);
    if DoFNext(heap, th).pc == F_CHECK {
      SearchingOn(heap, th, log, log + [Abs(heap)]);
      FNextArrives(heap, th, DoFNext(heap, th), log);
    }
  }

  lemma FNextPhase(heap: Heap, th: Thread, t: int, log: seq<set<int>>)
    requires HeapInv(heap) && CallOk(th, log) && th.pc == F_NEXT && Phase(heap, th, t, log)
    ensures Safe(heap, th) && Phase(heap, DoFNext(heap, th), t, log + [Abs(heap)])
  {
    FNextSearches(heap, th, log);
  }

  lemma FNextRest(heap: Heap, th: Thread, log: seq<set<int>>, log': seq<set<int>>)
    requires Safe(heap, th) && CallOk(th, log) && th.pc == F_NEXT && log <= log'
    ensures Rest(th, DoFNext(heap, th), log')
  {
    FreeHolds(th, DoFNext(heap, th));
  }

  lemma Recorded(heap: Heap, th: Thread, log: seq<set<int>>)
    requires Searching(heap, th, log) && AtNode(heap, th, log) && th.find.key <= heap[th.curr].key
    ensures var find := Record(th.find, th.level, th.pred, th.curr, heap[th.curr].key);
      RowOk(heap, find, th.level) && FoundOk(heap, find, log, th.level) && Above(heap, find.preds, th.level - 1, th.pred)
    ensures var find := Record(th.find, th.level, th.pred, th.curr, heap[th.curr].key);
      th.level == 0 ==> Searched(heap, find, log)
  {
    var find := Record(th.find, th.level, th.pred, th.curr, heap[th.curr].key);
    forall l | 0 <= th.level <= l < MAX_LEVEL ensures Brackets(heap, find, l) {
      if l > th.level { assert Brackets(heap, th.find, l); }
    }
  }

  lemma FCheckMoves(heap: Heap, th: Thread, log: seq<set<int>>)
    requires Searching(heap, th, log) && AtNode(heap, th, log) && th.find.key > heap[th.curr].key
    ensures Searching(heap, th.(pc := F_NEXT, pred := th.curr), log)
  {
    forall j | 0 <= th.level < j < MAX_LEVEL ensures th.find.preds[j] == th.curr || KeyBelow(heap, th.find.preds[j], th.curr) {
      assert Brackets(heap, th.find, j);
    }
  }

  /** What the operations make of a finished search. */
  lemma AfterFindOk(heap: Heap, th: Thread, t: int, log: seq<set<int>>)
    requires Searched(heap, th.find, log) && CallOk(th, log) && th.pc == F_CHECK
    ensures Phase(heap, AfterFind(th), t, log)
  {
  }

  lemma FCheckPhase(heap: Heap, th: Thread, t: int, log: seq<set<int>>)
    requires CallOk(th, log) && th.pc == F_CHECK && Phase(heap, th, t, log)
    ensures Safe(heap, th) && Phase(heap, DoFCheck(heap, th), t, log + [Abs(heap)])
  {
    var log' := log + [Abs(heap)];
    SearchingOn(heap, th, log, log');
    SawAbsentKept(log, log', th.find.start, th.find.key);
    assert AtNode(heap, th, log');
    if heap[th.curr].marked {
    } else if th.find.key > heap[th.curr].key {
      FCheckMoves(heap, th, log');
    } else {
      Recorded(heap, th, log');
      if th.level == 0 {
        AfterFindOk(heap, th.(find := Record(th.find, th.level, th.pred, th.curr, heap[th.curr].key)), t, log');
      }
    }
  }

  ghost predicate Goes(th: Thread, th': Thread) {
    && SameCall(th, th')
    && (F_START <= th'.pc <= I_FOUND_FULLY || (th'.pc == I_LOCK && th'.highest == -1) || th'.pc == R_LOCK
        || (th'.pc == DONE && !th'.ret && th.op != Insert))
  }

  lemma AfterFindGoes(th: Thread)
    ensures Goes(th, AfterFind(th))
  {
    match th.op
    case Contains =>
    case Insert =>
    case Remove =>
  }

  lemma FCheckGoes(heap: Heap, th: Thread)
    requires Safe(heap, th) && th.pc == F_CHECK
    ensures Goes(th, DoFCheck(heap, th))
  {
    var th1 := th.(find := Record(th.find, th.level, th.pred, th.curr, heap[th.curr].key));
    assert SameCall(th, th1);
    AfterFindGoes(th1);
  }

  lemma FCheckRest(heap: Heap, th: Thread, log: seq<set<int>>, log': seq<set<int>>)
    requires Safe(heap, th) && CallOk(th, log) && th.pc == F_CHECK && log <= log'
    ensures Rest(th, DoFCheck(heap, th), log')
  {
    var th' := DoFCheck(heap, th);
    FCheckGoes(heap, th);
    CallGoesOn(th, th', log, log');
    FreeHolds(th, th');
  }

  // ----- what the operations read once the search is over -----

  lemma FoundRest(th: Thread, th': Thread, log: seq<set<int>>, log': seq<set<int>>)
    requires CallOk(th, log) && FoundPC(th.pc) && SameCall(th, th') && log <= log'
    requires th.op != Remove
    requires F_START <= th'.pc <= I_FOUND_FULLY || (th'.pc == DONE && (th.op == Contains || !th'.ret))
    ensures Rest(th, th', log')
  {
    CallGoesOn(th, th', log, log');
    FreeHolds(th, th');
  }

  /** While a linked node is not yet fullyLinked its key is not in the abstract set. */
  lemma AbsentWhileLinking(heap: Heap, v: Ref)
    requires Unique(heap) && Linked(heap, v, 0) && !heap[v].fullyLinked
    ensures heap[v].key !in Abs(heap)
  {
    forall r | 2 <= r < |heap| && 0 < heap[r].now && heap[r].fullyLinked ensures heap[r].key != heap[v].key {
      assert Linked(heap, r, 0);
    }
  }

  /** A node that was ever linked and is unmarked is still linked, whatever removers have marked and unmarked it. */
  lemma UnmarkedIsLinked(heap: Heap, v: Ref, l: int)
    requires Nodes(heap) && 2 <= v < |heap| && 0 <= l < heap[v].ever && !heap[v].marked
    ensures Linked(heap, v, l)
    ensures heap[v].fullyLinked ==> heap[v].key in Abs(heap)
  {
    assert NodeOk(heap[v]);
  }

  lemma CFullyPhase(heap: Heap, th: Thread, t: int, log: seq<set<int>>)
    requires HeapInv(heap) && CallOk(th, log) && th.pc == C_FULLY && Phase(heap, th, t, log)
    ensures Safe(heap, th) && Phase(heap, DoCFully(heap, th), t, log + [Abs(heap)])
  {
    var log' := log + [Abs(heap)];
    SearchedOn(heap, th.find, log, log');
    SawAbsentKept(log, log', th.find.start, th.find.key);
    var v := th.find.succs[th.find.lFound];
    if !heap[v].fullyLinked && 0 < heap[v].now {
      assert Linked(heap, v, 0);
      AbsentWhileLinking(heap, v);
      SeeAbsent(log', th.find.start, th.find.key);
    }
  }

  lemma CMarkedPhase(heap: Heap, th: Thread, t: int, log: seq<set<int>>)
    requires HeapInv(heap) && CallOk(th, log) && th.pc == C_MARKED && Phase(heap, th, t, log)
    ensures Safe(heap, th) && Phase(heap, DoCMarked(heap, th), t, log + [Abs(heap)])
  {
    var log' := log + [Abs(heap)];
    SawAbsentKept(log, log', th.find.start, th.find.key);
    var v := th.find.succs[th.find.lFound];
    assert SawNode(heap, th.find, log, v);
    if !heap[v].marked {
      UnmarkedIsLinked(heap, v, 0);
      SeePresent(log', th.find.start, th.find.key);
    }
  }

  lemma IFoundMarkedPhase(heap: Heap, th: Thread, t: int, log: seq<set<int>>)
    requires HeapInv(heap) && CallOk(th, log) && th.pc == I_FOUND_MARKED && Phase(heap, th, t, log)
    ensures Safe(heap, th) && Phase(heap, DoIFoundMarked(heap, th), t, log + [Abs(heap)])
  {
    var log' := log + [Abs(heap)];
    SearchedOn(heap, th.find, log, log');
    var v := th.find.succs[th.find.lFound];
    assert SawNode(heap, th.find, log, v);
    if !heap[v].marked && heap[v].fullyLinked {
      UnmarkedIsLinked(heap, v, 0);
      SeePresent(log', th.find.start, th.find.key);
    }
  }

  lemma IFoundFullyPhase(heap: Heap, th: Thread, t: int, log: seq<set<int>>)
    requires CallOk(th, log) && th.pc == I_FOUND_FULLY && Phase(heap, th, t, log)
    ensures Safe(heap, th) && Phase(heap, DoIFoundFully(heap, th), t, log + [Abs(heap)])
  {
    var log' := log + [Abs(heap)];
    SearchedOn(heap, th.find, log, log');
    SawAbsentKept(log, log', th.find.start, th.find.key);
  }

  // ----- validation: lines 488 and 774 -----

  /** A validating thread that goes on, or starts to unlock, holds what it held. */
  lemma StillHolds(th: Thread, th': Thread)
    requires th'.find == th.find && th'.highest == th.highest && th'.victim == th.victim && th'.retired == th.retired
    requires HoldsPreds(th.pc) && !LinkPC(th.pc) && !HasTaken(th)
    requires HoldsPreds(th'.pc) || (th'.pc == UNLOCK && th'.level == 0)
    requires HoldsVictim(th'.pc) == HoldsVictim(th.pc) && (InRemoval(th.pc) ==> InRemoval(th'.pc))
    ensures SameHolds(th, th')
  {
  }

  lemma CheckRest(th: Thread, th': Thread, log: seq<set<int>>, log': seq<set<int>>)
    requires CallOk(th, log) && SameCall(th, th') && log <= log'
    requires th'.find == th.find && th'.highest == th.highest && th'.victim == th.victim
    requires
      || (I_PRED_MARKED <= th.pc <= I_PRED_NEXT && th.op == Insert
          && (I_LOCK <= th'.pc <= I_ALLOC || (th'.pc == UNLOCK && th'.level == 0 && !th'.valid)))
      || (R_PRED_MARKED <= th.pc <= R_READ && R_UNMARK <= th'.pc <= R_UNLINK)
    ensures Rest(th, th', log')
  {
    CallGoesOn(th, th', log, log');
    StillHolds(th, th');
  }

  lemma RCheckRest(heap: Heap, th: Thread, log: seq<set<int>>, log': seq<set<int>>)
    requires Safe(heap, th) && CallOk(th, log) && th.pc == R_CHECK && log <= log'
    ensures Rest(th, DoRCheck(heap, th), log')
  {
  }

  lemma IPredMarkedPhase(heap: Heap, th: Thread, t: int, log: seq<set<int>>)
    requires th.pc == I_PRED_MARKED && Phase(heap, th, t, log)
    ensures Safe(heap, th) && Phase(heap, DoIPredMarked(heap, th), t, log + [Abs(heap)])
  {
    SearchedOn(heap, th.find, log, log + [Abs(heap)]);
    assert Brackets(heap, th.find, th.level);
  }

  lemma ISuccMarkedPhase(heap: Heap, th: Thread, t: int, log: seq<set<int>>)
    requires th.pc == I_SUCC_MARKED && Phase(heap, th, t, log)
    ensures Safe(heap, th) && Phase(heap, DoISuccMarked(heap, th), t, log + [Abs(heap)])
  {
    SearchedOn(heap, th.find, log, log + [Abs(heap)]);
    assert Brackets(heap, th.find, th.level);
  }

  lemma IPredNextPhase(heap: Heap, th: Thread, t: int, log: seq<set<int>>)
    requires Safe(heap, th) && th.pc == I_PRED_NEXT && Phase(heap, th, t, log)
    ensures Phase(heap, DoIPredNext(heap, th), t, log + [Abs(heap)])
  {
    SearchedOn(heap, th.find, log, log + [Abs(heap)]);
  }

  lemma PredNextSafe(heap: Heap, th: Thread, t: int, log: seq<set<int>>)
    requires HeapInv(heap) && (th.pc == I_PRED_NEXT || th.pc == R_PRED_NEXT) && Phase(heap, th, t, log)
    ensures Safe(heap, th)
  {
    assert RowOk(heap, th.find, 0);
    assert Brackets(heap, th.find, th.level);
    ReadsNode(heap, th.find.preds[th.level], th.level);
  }

  lemma RPredMarkedPhase(heap: Heap, th: Thread, t: int, log: seq<set<int>>)
    requires th.pc == R_PRED_MARKED && Phase(heap, th, t, log)
    ensures Safe(heap, th) && Phase(heap, DoRPredMarked(heap, th), t, log + [Abs(heap)])
  {
    VictimOn(heap, th, log);
    assert Brackets(heap, th.find, th.level);
  }

  lemma VictimOn(heap: Heap, th: Thread, log: seq<set<int>>)
    requires Victim(heap, th, log)
    ensures Victim(heap, th, log + [Abs(heap)])
  {
    SearchedOn(heap, th.find, log, log + [Abs(heap)]);
    SawAbsentKept(log, log + [Abs(heap)], th.find.start, th.find.key);
  }

  lemma RCheckPhase(heap: Heap, th: Thread, t: int, log: seq<set<int>>)
    requires Nodes(heap) && th.pc == R_CHECK && Phase(heap, th, t, log) && Working(heap, th, t) && Locks(heap, th, t)
    ensures Safe(heap, th) && Phase(heap, DoRCheck(heap, th), t, log + [Abs(heap)])
  {
    VictimOn(heap, th, log);
    assert Held(heap, th.victim, t);
    assert NodeOk(heap[th.victim]);
  }

  lemma RReadPhase(heap: Heap, th: Thread, t: int, log: seq<set<int>>)
    requires HeapInv(heap) && th.pc == R_READ && Phase(heap, th, t, log)
    ensures Safe(heap, th) && Phase(heap, DoRRead(heap, th), t, log + [Abs(heap)])
  {
    VictimOn(heap, th, log);
    ReadsNode(heap, th.victim, th.level);
  }

  /** Once its level-0 predecessor is locked and validated the victim's insertion is complete: its inserter holds
      that lock until then.  The source never asks whether the victim is fullyLinked. */
  lemma VictimComplete(heap: Heap, p: Ref, v: Ref, t: int)
    requires Nodes(heap) && Sentinels(heap) && Guarded(heap)
    requires Held(heap, p, t) && !heap[p].marked && 0 < heap[p].ever && heap[p].next[0] == v && 2 <= v < |heap|
    requires forall r :: ValidRef(heap, r) && heap[r].creator == t ==> heap[r].fullyLinked
    ensures heap[v].fullyLinked
  {
    assert p < 2 || NodeOk(heap[p]);
    assert GuardedOk(heap, p);
  }

  lemma RPredNextValid(heap: Heap, th: Thread, t: int, log: seq<set<int>>)
    requires HeapInv(heap) && th.pc == R_PRED_NEXT && CheckPhase(heap, th, log)
    requires Locks(heap, th, t) && Working(heap, th, t)
    requires heap[th.find.preds[th.level]].next[th.level] == th.victim
    ensures RValidated(heap, th.find, th.victim, th.level + 1)
  {
    assert Brackets(heap, th.find, th.level);
    if th.level == 0 {
      HoldsPredecessors(heap, th, t);
      VictimComplete(heap, th.find.preds[0], th.victim, t);
    }
  }

  lemma RPredNextPhase(heap: Heap, th: Thread, t: int, log: seq<set<int>>)
    requires Nodes(heap) && Safe(heap, th) && th.pc == R_PRED_NEXT && Phase(heap, th, t, log)
    requires heap[th.find.preds[th.level]].next[th.level] == th.victim ==> RValidated(heap, th.find, th.victim, th.level + 1)
    ensures Phase(heap, DoRPredNext(heap, th), t, log + [Abs(heap)])
  {
    VictimOn(heap, th, log);
    assert NodeOk(heap[th.victim]);
  }
}
