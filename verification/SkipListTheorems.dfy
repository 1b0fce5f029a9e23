/** What holds in every reachable state and over every run of the skip list. */
module SkipListTheorems {
  import opened SkipListMachine
  import opened SkipListInvariant
  import opened SkipListStability
  import opened SkipListGuarantee
  import opened SkipListReads
  import opened SkipListSteps
  import opened SkipListPreservation

  /** Who took the step into state k, and which step it was. */
  lemma StepTaken(run: seq<State>, k: nat) returns (t: int, a: Action)
    requires Run(run) && 0 < k < |run|
    ensures Enabled(run[k - 1], t, a) && run[k] == Apply(run[k - 1], t, a)
  {
    assert StepAt(run, k);
    t, a :| Enabled(run[k - 1], t, a) && run[k] == Apply(run[k - 1], t, a);
  }

  lemma {:induction false} InvHolds(run: seq<State>, i: nat)
    requires Run(run) && i < |run|
    ensures Inv(run[i])
  {
    if i == 0 {
      InitHolds(run[0]);
    } else {
      InvHolds(run, i - 1);
      var t, a := StepTaken(run, i);
      ApplyKeepsInv(run[i - 1], t, a);
    }
  }

  /** Step k of a run starts from a state that satisfies the invariant. */
  lemma InvStep(run: seq<State>, k: nat) returns (t: int, a: Action)
    requires Run(run) && 0 < k < |run|
    ensures Inv(run[k - 1]) && Enabled(run[k - 1], t, a) && run[k] == Apply(run[k - 1], t, a)
  {
    InvHolds(run, k - 1);
    t, a := StepTaken(run, k);
  }

  lemma InitiallyIdle(s: State, t: int)
    requires Init(s) && 0 <= t < |s.threads|
    ensures s.threads[t].pc == IDLE
  {
    assert s.threads[t] == RESTING;
  }

  lemma NotInitial(run: seq<State>, i: nat, t: int)
    requires Run(run) && i < |run| && 0 <= t < |run[i].threads| && run[i].threads[t].pc != IDLE
    ensures 0 < i
  {
    if Init(run[i]) { InitiallyIdle(run[i], t); }
  }

  // ----- structure -----

  /** c is the walk along level l from the head to the tail, over the real links. */
  ghost predicate IsChain(heap: Heap, c: seq<Ref>, l: int) {
    && ValidLevel(l) && |c| >= 2 && c[0] == HEAD && c[|c| - 1] == TAIL
    && (forall i :: 0 <= i < |c| ==> ValidRef(heap, c[i]))
    && (forall i :: 0 <= i < |c| - 1 ==> heap[c[i]].next[l] == c[i + 1])
  }

  ghost predicate Increasing(heap: Heap, c: seq<Ref>) {
    && (forall i :: 0 <= i < |c| ==> ValidRef(heap, c[i]))
    && (forall i, j :: 0 <= i < j < |c| ==> heap[c[i]].key < heap[c[j]].key)
  }

  /** The walk from a linked node y on: all linked nodes from y upwards. */
  ghost predicate Covers(heap: Heap, c: seq<Ref>, r: Ref, l: int) {
    && ValidRef(heap, r)
    && forall z :: z in c <==> Linked(heap, z, l) && heap[r].key <= heap[z].key
  }

  /** The next linked node and everything above it are what lies above r. */
  lemma CoversOneMore(heap: Heap, r: Ref, l: int, rest: seq<Ref>)
    requires Links(heap) && Unique(heap) && ValidLevel(l) && Linked(heap, r, l) && l < heap[r].ever && heap[r].next[l] != NULL
    requires Covers(heap, rest, heap[r].next[l], l)
    ensures Covers(heap, [r] + rest, r, l)
  {
    assert LinkOk(heap, r, l);
    var y := heap[r].next[l];
    assert Gap(heap, heap[r].key, heap[y].key, l);
    forall z ensures z in [r] + rest <==> Linked(heap, z, l) && heap[r].key <= heap[z].key {
      if Linked(heap, z, l) {
        assert Linked(heap, z, 0) && Linked(heap, r, 0);
      }
    }
  }

  lemma NothingAboveTail(heap: Heap, l: int)
    requires Sentinels(heap) && Nodes(heap) && ValidLevel(l)
    ensures Covers(heap, [TAIL], TAIL, l)
  {
    forall z ensures z in [TAIL] <==> Linked(heap, z, l) && heap[TAIL].key <= heap[z].key {
      assert 2 <= z < |heap| ==> NodeOk(heap[z]);
    }
  }

  /** The rest of level l's list from a linked node on. */
  lemma {:induction false} ChainFrom(heap: Heap, r: Ref, l: int) returns (c: seq<Ref>)
    requires HeapInv(heap) && ValidLevel(l) && Linked(heap, r, l)
    ensures |c| >= 1 && c[0] == r && c[|c| - 1] == TAIL && Increasing(heap, c) && Covers(heap, c, r, l)
    ensures forall i :: 0 <= i < |c| - 1 ==> heap[c[i]].next[l] == c[i + 1]
    decreases MAX_KEY - heap[r].key
  {
    if r == TAIL {
      c := [TAIL];
      NothingAboveTail(heap, l);
    } else {
      assert r < 2 || NodeOk(heap[r]);
      assert LinkOk(heap, r, l);
      var y := heap[r].next[l];
      assert y < 2 || NodeOk(heap[y]);
      var rest := ChainFrom(heap, y, l);
      c := [r] + rest;
      CoversOneMore(heap, r, l, rest);
      IncreasingCons(heap, r, rest);
    }
  }

  lemma IncreasingCons(heap: Heap, r: Ref, rest: seq<Ref>)
    requires |rest| > 0 && Increasing(heap, rest) && ValidRef(heap, r) && heap[r].key < heap[rest[0]].key
    ensures Increasing(heap, [r] + rest)
  {
    var c := [r] + rest;
    forall i, j | 0 <= i < j < |c| ensures heap[c[i]].key < heap[c[j]].key {
      assert c[j] == rest[j - 1];
      if j > 1 { assert heap[rest[0]].key < heap[rest[j - 1]].key; }
    }
  }

  /** In every reachable state the walk along level l leads from head to tail in strictly increasing key order
      and meets exactly the nodes linked at level l. */
  lemma LevelIsSortedList(s: State, l: int) returns (c: seq<Ref>)
    requires Inv(s) && ValidLevel(l)
    ensures IsChain(s.heap, c, l) && Increasing(s.heap, c)
    ensures forall r :: r in c <==> Linked(s.heap, r, l)
  {
    c := ChainFrom(s.heap, HEAD, l);
    forall r | Linked(s.heap, r, l) ensures r in c {
      assert r < 2 || NodeOk(s.heap[r]);
    }
  }

  /** There is only one such walk. */
  lemma {:induction false} ChainUnique(heap: Heap, c: seq<Ref>, d: seq<Ref>, l: int, n: nat)
    requires IsChain(heap, c, l) && IsChain(heap, d, l) && n <= |c| && n <= |d|
    ensures c[..n] == d[..n]
    decreases n
  {
    if n > 0 {
      ChainUnique(heap, c, d, l, n - 1);
      if n > 1 { assert c[..n - 1][n - 2] == d[..n - 1][n - 2]; }
      assert c[..n] == c[..n - 1] + [c[n - 1]] && d[..n] == d[..n - 1] + [d[n - 1]];
    }
  }

  lemma ChainStepValid(heap: Heap, c: seq<Ref>, l: int, i: nat)
    requires IsChain(heap, c, l) && i + 1 < |c|
    ensures ValidRef(heap, heap[c[i]].next[l])
  {
    assert heap[c[i]].next[l] == c[i + 1];
  }

  lemma TailIsLast(heap: Heap, c: seq<Ref>, l: int, i: nat)
    requires Sentinels(heap) && IsChain(heap, c, l) && i < |c| && c[i] == TAIL
    ensures i == |c| - 1
  {
    if i + 1 < |c| { ChainStepValid(heap, c, l, i); }
  }

  lemma ChainsEqual(heap: Heap, c: seq<Ref>, d: seq<Ref>, l: int)
    requires Sentinels(heap) && IsChain(heap, c, l) && IsChain(heap, d, l) && |c| <= |d|
    ensures c == d
  {
    ChainUnique(heap, c, d, l, |c|);
    assert c[..|c|] == c;
    assert d[..|c|][|c| - 1] == c[|c| - 1];
    TailIsLast(heap, d, l, |c| - 1);
  }

  /** Whatever walk a reader takes along a level, it is the sorted list of that level. */
  lemma WalkIsSortedList(s: State, c: seq<Ref>, l: int)
    requires Inv(s) && IsChain(s.heap, c, l)
    ensures Increasing(s.heap, c) && forall r :: r in c <==> Linked(s.heap, r, l)
  {
    var d := LevelIsSortedList(s, l);
    if |c| <= |d| { ChainsEqual(s.heap, c, d, l); } else { ChainsEqual(s.heap, d, c, l); }
  }

  /** Nodes on the walk of a level are on the walk of every level below it. */
  lemma LevelsAreNested(s: State, c: seq<Ref>, d: seq<Ref>, lo: int, hi: int)
    requires Inv(s) && 0 <= lo <= hi && IsChain(s.heap, d, lo) && IsChain(s.heap, c, hi)
    ensures forall r :: r in c ==> r in d
  {
    WalkIsSortedList(s, c, hi);
    WalkIsSortedList(s, d, lo);
    forall r | r in c ensures r in d {
      assert Linked(s.heap, r, hi) && Linked(s.heap, r, lo);
    }
  }

  /** The abstract set, read off the walk along level 0. */
  lemma AbsIsLevelZero(s: State, c: seq<Ref>, key: int)
    requires Inv(s) && IsChain(s.heap, c, 0)
    ensures key in Abs(s.heap) <==> exists r :: r in c && r != HEAD && r != TAIL && s.heap[r].key == key && s.heap[r].fullyLinked
  {
    WalkIsSortedList(s, c, 0);
    if key in Abs(s.heap) {
      var r :| 2 <= r < |s.heap| && 0 < s.heap[r].now && s.heap[r].fullyLinked && s.heap[r].key == key;
      assert Linked(s.heap, r, 0);
    }
    if r :| r in c && r != HEAD && r != TAIL && s.heap[r].key == key && s.heap[r].fullyLinked {
      assert Linked(s.heap, r, 0);
    }
  }

  // ----- marks -----

  /** A step never links a completed node again. */
  lemma OnlyLinkingMovesNow(heap: Heap, th: Thread, t: int, r: Ref)
    requires Safe(heap, th) && (HasTaken(th) && th.pc == DONE ==> ValidRef(heap, th.victim)) && ValidRef(heap, r)
    ensures |ExecHeap(heap, th, t)| >= |heap|
    ensures !(th.pc == I_LINK && r == th.newNode) ==> ExecHeap(heap, th, t)[r].ever == heap[r].ever
    ensures ExecHeap(heap, th, t)[r].now ==
      if th.pc == I_LINK && r == th.newNode then th.level + 1
      else if th.pc == R_UNLINK && r == th.victim then th.level
      else heap[r].now
  {
  }

  lemma NeverRelinked(s: State, t: int, a: Action, r: Ref)
    requires Inv(s) && Enabled(s, t, a) && 2 <= r < |s.heap| && s.heap[r].fullyLinked
    ensures |Apply(s, t, a).heap| >= |s.heap|
    ensures Apply(s, t, a).heap[r].now <= s.heap[r].now && Apply(s, t, a).heap[r].ever == s.heap[r].ever
  {
    if a.Go? {
      var th := s.threads[t];
      assert ThreadInv(s.heap, th, t, s.log);
      OnlyLinkingMovesNow(s.heap, th, t, r);
    }
  }

  /** An unlinked node: some level of it was linked once and is not linked now. */
  ghost predicate UnlinkedAt(heap: Heap, r: Ref, l: int) {
    2 <= r < |heap| && 0 <= l < heap[r].ever && !Linked(heap, r, l)
  }

  lemma UnlinkedIsMarked(s: State, r: Ref, l: int)
    requires Inv(s) && UnlinkedAt(s.heap, r, l)
    ensures s.heap[r].marked && s.heap[r].fullyLinked
  {
    assert NodeOk(s.heap[r]);
  }

  lemma StaysUnlinkedStep(s: State, t: int, a: Action, s': State, r: Ref, l: int)
    requires Inv(s) && Enabled(s, t, a) && s' == Apply(s, t, a) && UnlinkedAt(s.heap, r, l)
    ensures UnlinkedAt(s'.heap, r, l) && s'.heap[r].marked
  {
    UnlinkedIsMarked(s, r, l);
    NeverRelinked(s, t, a, r);
    ApplyKeepsInv(s, t, a);
    UnlinkedIsMarked(s', r, l);
  }

  lemma UnlinkedNow(run: seq<State>, k: nat, r: Ref, l: int)
    requires Run(run) && k < |run| && UnlinkedAt(run[k].heap, r, l)
    ensures run[k].heap[r].marked
  {
    InvHolds(run, k);
    UnlinkedIsMarked(run[k], r, l);
  }

  lemma StaysUnlinkedNext(run: seq<State>, k: nat, r: Ref, l: int)
    requires Run(run) && 0 < k < |run| && UnlinkedAt(run[k - 1].heap, r, l)
    ensures UnlinkedAt(run[k].heap, r, l) && run[k].heap[r].marked
  {
    var t, a := InvStep(run, k);
    StaysUnlinkedStep(run[k - 1], t, a, run[k], r, l);
  }

  /** From the moment a node is unlinked at a level it is marked and stays unlinked at that level for the rest of
      the run, although line 791 clears the marks of victims whose removal fails. */
  lemma {:induction false} UnlinkedForever(run: seq<State>, i: nat, k: nat, r: Ref, l: int)
    requires Run(run) && i <= k < |run| && UnlinkedAt(run[i].heap, r, l)
    ensures UnlinkedAt(run[k].heap, r, l) && run[k].heap[r].marked
    decreases k - i
  {
    if i == k {
      UnlinkedNow(run, i, r, l);
    } else {
      UnlinkedForever(run, i, k - 1, r, l);
      StaysUnlinkedNext(run, k, r, l);
    }
  }

  /** Lock, then validate: once validation has succeeded every predecessor is held, is in the list of its level,
      and leads to the recorded successor (the victim, in a removal). */
  lemma ValidatedIsInList(s: State, t: int, l: int)
    requires Inv(s) && 0 <= t < |s.threads| && 0 <= l <= s.threads[t].topLevel
    requires s.threads[t].pc == I_ALLOC || (s.threads[t].pc == R_READ && s.threads[t].level == s.threads[t].topLevel)
    ensures var th := s.threads[t];
      && l < MAX_LEVEL && Held(s.heap, th.find.preds[l], t) && Linked(s.heap, th.find.preds[l], l)
      && s.heap[th.find.preds[l]].next[l] == if th.pc == I_ALLOC then th.find.succs[l] else th.victim
  {
    var th := s.threads[t];
    assert ThreadInv(s.heap, th, t, s.log);
    assert Brackets(s.heap, th.find, l);
    HoldsPredecessors(s.heap, th, t);
    var p := th.find.preds[l];
    assert p < 2 || NodeOk(s.heap[p]);
  }

  // ----- locks -----

  /** A thread between calls, or about to return, holds no lock. */
  lemma LocksAreBalanced(s: State, t: int, r: Ref)
    requires Inv(s) && 0 <= t < |s.threads| && ValidRef(s.heap, r)
    requires s.threads[t].pc == IDLE || s.threads[t].pc == DONE || s.threads[t].pc == F_START
    ensures !Held(s.heap, r, t)
  {
    assert ThreadInv(s.heap, s.threads[t], t, s.log);
    assert !Holds(s.threads[t], r);
  }

  /** The lock a thread asks for lies strictly below, in key order, every lock it holds. */
  lemma LocksDescend(s: State, t: int, r: Ref)
    requires Inv(s) && 0 <= t < |s.threads|
    requires Wants(s.threads[t]) != NULL && Held(s.heap, r, t)
    ensures ValidRef(s.heap, Wants(s.threads[t])) && s.heap[Wants(s.threads[t])].key < s.heap[r].key
  {
    var th := s.threads[t];
    assert ThreadInv(s.heap, th, t, s.log);
    assert Holds(th, r);
    if th.pc == R_LOCK {
    } else {
      PredWanted(s, t);
      if HoldsVictim(th.pc) && r == th.victim {
        assert s.heap[r].key == th.find.key;
      } else {
        PredsDescend(s.heap, th.find, th.level, th.highest, r);
      }
    }
  }

  lemma PredWanted(s: State, t: int)
    requires Inv(s) && 0 <= t < |s.threads| && Wants(s.threads[t]) != NULL && s.threads[t].pc != R_LOCK
    ensures var th := s.threads[t];
      && ValidLevel(th.level) && Wants(th) == th.find.preds[th.level] && FirstAt(th, th.level) && RowOk(s.heap, th.find, 0)
      && th.highest == th.level - 1 && KeyBelowKey(s.heap, Wants(th), th.find.key)
  {
    var th := s.threads[t];
    assert ThreadInv(s.heap, th, t, s.log);
    assert Brackets(s.heap, th.find, th.level);
  }

  ghost predicate KeyBelowKey(heap: Heap, r: Ref, key: int) {
    ValidRef(heap, r) && heap[r].key < key
  }

  /** The predecessors locked so far lie above the one of the next level. */
  lemma PredsDescend(heap: Heap, find: Find, level: int, highest: int, r: Ref)
    requires RowOk(heap, find, 0) && ValidLevel(level) && highest == level - 1 && AmongPreds(find.preds, 0, highest, r)
    requires level == 0 || find.preds[level] != find.preds[level - 1]
    ensures KeyBelow(heap, find.preds[level], r)
  {
    var j :| 0 <= j <= highest && j < MAX_LEVEL && find.preds[j] == r;
    if find.preds[j] == find.preds[level] {
      EqualPredsNeighbour(heap, find, j, level);
    }
  }

  lemma EqualPredsNeighbour(heap: Heap, find: Find, j: int, l: int)
    requires RowOk(heap, find, 0) && 0 <= j < l < MAX_LEVEL && find.preds[j] == find.preds[l]
    ensures find.preds[l - 1] == find.preds[l]
  {
    if j < l - 1 { EqualPredsTogether(heap, find, j, l - 1, l); }
  }

  /** Thread t spins on a lock that thread u holds. */
  ghost predicate WaitsFor(s: State, t: int, u: int) {
    && 0 <= t < |s.threads| && 0 <= u < |s.threads|
    && Blocked(s.heap, s.threads[t]) && Held(s.heap, Wants(s.threads[t]), u)
  }

  /** Each thread of c waits for the next, and the last for the first. */
  ghost predicate WaitCycle(s: State, c: seq<int>) {
    && |c| >= 1 && WaitsFor(s, c[|c| - 1], c[0])
    && (forall i :: 0 <= i < |c| - 1 ==> WaitsFor(s, c[i], c[i + 1]))
  }

  /** Deadlock freedom. */
  lemma NoDeadlock(s: State, c: seq<int>)
    requires Inv(s)
    ensures !WaitCycle(s, c)
  {
    if WaitCycle(s, c) {
      WaitsDescend(s, c, |c| - 1);
      LocksDescend(s, c[0], Wants(s.threads[c[|c| - 1]]));
    }
  }

  lemma {:induction false} WaitsDescend(s: State, c: seq<int>, n: nat)
    requires Inv(s) && n < |c| && forall i :: 0 <= i < |c| - 1 ==> WaitsFor(s, c[i], c[i + 1])
    requires 0 <= c[n] < |s.threads| && Wants(s.threads[c[n]]) != NULL && ValidRef(s.heap, Wants(s.threads[c[n]]))
    ensures 0 <= c[0] < |s.threads| && ValidRef(s.heap, Wants(s.threads[c[0]]))
    ensures s.heap[Wants(s.threads[c[n]])].key <= s.heap[Wants(s.threads[c[0]])].key
    decreases n
  {
    if n > 0 {
      assert WaitsFor(s, c[n - 1], c[n]);
      LocksDescend(s, c[n], Wants(s.threads[c[n - 1]]));
      WaitsDescend(s, c, n - 1);
    }
  }

  /** A thread in a call that is neither spinning on a lock nor spinning until a node is fullyLinked. */
  ghost predicate CanMove(s: State, t: int) {
    && 0 <= t < |s.threads| && s.threads[t].pc != IDLE
    && Safe(s.heap, s.threads[t]) && !Blocked(s.heap, s.threads[t])
    && ExecThread(s.heap, s.threads[t]) != s.threads[t]
  }

  lemma SearchMoves(heap: Heap, th: Thread)
    requires Sentinels(heap) && Safe(heap, th) && F_START <= th.pc <= I_FOUND_FULLY
    requires th.pc == I_FOUND_FULLY ==> heap[th.find.succs[th.find.lFound]].fullyLinked
    ensures ExecThread(heap, th).pc != th.pc
  {
    if th.pc == F_CHECK { FCheckLeaves(heap, th); }
  }

  lemma FCheckLeaves(heap: Heap, th: Thread)
    requires Safe(heap, th) && th.pc == F_CHECK
    ensures DoFCheck(heap, th).pc != F_CHECK
  {
    var th1 := th.(find := Record(th.find, th.level, th.pred, th.curr, heap[th.curr].key));
    assert AfterFind(th1).pc != F_CHECK;
  }

  lemma InsertMoves(heap: Heap, th: Thread)
    requires Safe(heap, th) && I_LOCK <= th.pc <= I_FULL
    ensures ExecThread(heap, th).pc != th.pc
  {
  }

  lemma RemoveMoves(heap: Heap, th: Thread)
    requires Safe(heap, th) && R_LOCK <= th.pc <= DONE
    ensures ExecThread(heap, th).pc != th.pc || ExecThread(heap, th).level != th.level
  {
  }

  lemma StateIsSafe(s: State, t: int)
    requires Inv(s) && 0 <= t < |s.threads|
    ensures Safe(s.heap, s.threads[t])
  {
    SafeWhenInvariant(s.heap, s.threads[t], t, s.log);
  }

  /** Memory safety: no step dereferences NULL or anything that is not a node, and no search reads a link slot that
      malloc returned and nobody has written. */
  lemma SafeWhenInvariant(heap: Heap, th: Thread, t: int, log: seq<set<int>>)
    requires HeapInv(heap) && ThreadInv(heap, th, t, log) && t >= 0
    ensures Safe(heap, th)
  {
    if th.pc == I_LOCK || th.pc == R_LOCK_PRED || th.pc == R_LOCK {
      assert th.pc != R_LOCK ==> Brackets(heap, th.find, th.level);
    } else if th.pc != IDLE {
      StepThread(heap, th, t, log);
    }
  }

  /** Progress: whenever some call is under way, some thread can take a step that is not one more turn of a
      spinning loop. */
  lemma {:induction false} SomeoneCanMove(s: State, t: int) returns (u: int)
    requires Inv(s) && 0 <= t < |s.threads| && s.threads[t].pc != IDLE
    ensures CanMove(s, u)
    decreases if Blocked(s.heap, s.threads[t]) then s.heap[Wants(s.threads[t])].key + 1 else MIN_KEY
  {
    var th := s.threads[t];
    assert ThreadInv(s.heap, th, t, s.log);
    if Blocked(s.heap, th) {
      var owner := HolderIsBusy(s, Wants(th));
      if Blocked(s.heap, s.threads[owner]) { LocksDescend(s, owner, Wants(th)); }
      u := SomeoneCanMove(s, owner);
    } else if th.pc == I_FOUND_FULLY && !s.heap[th.find.succs[th.find.lFound]].fullyLinked {
      u := InserterCanMove(s, th.find.succs[th.find.lFound]);
    } else {
      u := t;
      StateIsSafe(s, t);
      if th.pc <= I_FOUND_FULLY { SearchMoves(s.heap, th); }
      else if th.pc <= I_FULL { InsertMoves(s.heap, th); }
      else { RemoveMoves(s.heap, th); }
    }
  }

  lemma HolderIsBusy(s: State, r: Ref) returns (u: int)
    requires Inv(s) && ValidRef(s.heap, r) && s.heap[r].lock
    ensures 0 <= u < |s.threads| && s.threads[u].pc != IDLE && Held(s.heap, r, u)
    ensures MIN_KEY <= s.heap[r].key
  {
    u := s.heap[r].owner;
    assert ThreadInv(s.heap, s.threads[u], u, s.log);
    assert Holds(s.threads[u], r);
    assert r < 2 || NodeOk(s.heap[r]);
  }

  lemma InserterCanMove(s: State, v: Ref) returns (u: int)
    requires Inv(s) && 2 <= v < |s.heap| && !s.heap[v].fullyLinked
    ensures CanMove(s, u)
  {
    u := s.heap[v].creator;
    assert ThreadInv(s.heap, s.threads[u], u, s.log);
    assert LinkPC(s.threads[u].pc);
    StateIsSafe(s, u);
    InsertMoves(s.heap, s.threads[u]);
  }

  /** Only the holder of a node's lock writes a link of it that has been part of a level. */
  lemma LinksWrittenUnderLock(s: State, t: int, a: Action, r: Ref, l: int)
    requires Inv(s) && Enabled(s, t, a) && ValidRef(s.heap, r) && ValidLevel(l) && l < s.heap[r].ever
    requires !Held(s.heap, r, t)
    ensures |s.heap| <= |Apply(s, t, a).heap| && Apply(s, t, a).heap[r].next[l] == s.heap[r].next[l]
  {
    ApplyKeepsInv(s, t, a);
    assert NodeGuarantee(s.heap[r], Apply(s, t, a).heap[r], t);
  }

  /** A thread never asks for a lock it already holds: comparing neighbouring predecessors finds every duplicate. */
  lemma NoDoubleLock(s: State, t: int)
    requires Inv(s) && 0 <= t < |s.threads| && Wants(s.threads[t]) != NULL
    ensures !Held(s.heap, Wants(s.threads[t]), t)
  {
    if Held(s.heap, Wants(s.threads[t]), t) { LocksDescend(s, t, Wants(s.threads[t])); }
  }

  // ----- retirement -----

  /** No link slot of any node names v, whether or not the slot is part of a level. */
  ghost predicate Unreferenced(heap: Heap, v: Ref) {
    forall r, l :: ValidRef(heap, r) && ValidLevel(l) ==> heap[r].next[l] != v
  }

  /** The slot about to be linked already names its successor, which is linked: the predecessor still leads to it. */
  lemma PreparedSlot(s: State, r: Ref, l: int)
    requires Inv(s) && ValidRef(s.heap, r) && ValidLevel(l) && s.heap[r].ever <= l
    ensures s.heap[r].next[l] == UNSET || Linked(s.heap, s.heap[r].next[l], l)
  {
    assert 2 <= r && NodeOk(s.heap[r]);
    if l <= s.heap[r].topLevel {
      var u := s.heap[r].creator;
      var th := s.threads[u];
      assert ThreadInv(s.heap, th, u, s.log);
      assert LinkPC(th.pc) && r == th.newNode;
      if th.pc == I_LINK && l == th.level { LinkedSuccessor(s.heap, th, u, s.log); }
    }
  }

  lemma LinkedSuccessor(heap: Heap, th: Thread, t: int, log: seq<set<int>>)
    requires HeapInv(heap) && ThreadInv(heap, th, t, log) && th.pc == I_LINK
    ensures Linked(heap, th.find.succs[th.level], th.level)
  {
    ILinkPre(heap, th, t, log);
    assert LinkOk(heap, th.find.preds[th.level], th.level);
  }

  lemma UnlinkedIsUnreferenced(s: State, v: Ref)
    requires Inv(s) && ValidRef(s.heap, v) && s.heap[v].now == 0
    ensures Unreferenced(s.heap, v)
  {
    forall r, l | ValidRef(s.heap, r) && ValidLevel(l) ensures s.heap[r].next[l] != v {
      if l < s.heap[r].ever { assert LinkOk(s.heap, r, l); } else { PreparedSlot(s, r, l); }
    }
  }

  /** Retired means unreachable: a node given to ST_free, or about to be, is named by no link slot of any node. */
  lemma RetiredIsUnreferenced(s: State, t: int, v: Ref)
    requires Inv(s) && 0 <= t < |s.threads|
    requires v in s.threads[t].retired || (s.threads[t].pc == DONE && HasTaken(s.threads[t]) && v == s.threads[t].victim)
    ensures ValidRef(s.heap, v) && s.heap[v].now == 0 && s.heap[v].marked && Unreferenced(s.heap, v)
  {
    assert ThreadInv(s.heap, s.threads[t], t, s.log);
    assert s.heap[v].taker == t;
    assert v < 2 || NodeOk(s.heap[v]);
    UnlinkedIsUnreferenced(s, v);
  }

  /** Retired once: the lists of retired nodes are free of repetitions and pairwise disjoint, and a node about to be
      retired is on none of them. */
  lemma RetiredOnce(s: State, t: int, u: int, i: int, j: int)
    requires Inv(s) && 0 <= t < |s.threads| && 0 <= u < |s.threads|
    requires 0 <= i < |s.threads[t].retired| && 0 <= j < |s.threads[u].retired| && (t != u || i != j)
    ensures s.threads[t].retired[i] != s.threads[u].retired[j]
    ensures s.threads[u].pc == DONE && HasTaken(s.threads[u]) ==> s.threads[t].retired[i] != s.threads[u].victim
  {
    assert ThreadInv(s.heap, s.threads[t], t, s.log) && ThreadInv(s.heap, s.threads[u], u, s.log);
  }

  /** Nothing leaks from the lists: a node that was unlinked is on the list of the thread that unlinked it, or that
      thread has not yet returned from the call that did. */
  lemma UnlinkedIsRetired(s: State, v: Ref)
    requires Inv(s) && 2 <= v < |s.heap| && s.heap[v].ever > 0 && s.heap[v].now == 0
    ensures exists t :: 0 <= t < |s.threads| && (v in s.threads[t].retired || (HasTaken(s.threads[t]) && v == s.threads[t].victim))
  {
    assert NodeOk(s.heap[v]);
    var t := s.heap[v].taker;
    assert ThreadInv(s.heap, s.threads[t], t, s.log);
  }

  lemma RetiredGrows(s: State, t: int, a: Action, u: int)
    requires Enabled(s, t, a) && 0 <= u < |s.threads|
    ensures |Apply(s, t, a).threads| == |s.threads| && s.threads[u].retired <= Apply(s, t, a).threads[u].retired
  {
    if a.Go? && u == t { RetiredGrowsBy(s.heap, s.threads[t]); }
  }

  lemma RetiredGrowsBy(heap: Heap, th: Thread)
    requires Safe(heap, th)
    ensures th.retired <= ExecThread(heap, th).retired
  {
    if th.pc == F_CHECK {
      FCheckGoes(heap, th);
    } else if th.pc <= I_FULL {
      RetiredSame(heap, th);
    }
  }

  lemma RetiredSame(heap: Heap, th: Thread)
    requires Safe(heap, th) && th.pc <= I_FULL && th.pc != F_CHECK
    ensures ExecThread(heap, th).retired == th.retired
  {
    if I_LOCK <= th.pc { InsertRetiresNothing(heap, th); }
  }

  lemma InsertRetiresNothing(heap: Heap, th: Thread)
    requires Safe(heap, th) && I_LOCK <= th.pc <= I_FULL
    ensures ExecThread(heap, th).retired == th.retired
  {
  }

  lemma RetiredGrowsNext(run: seq<State>, k: nat, t: int)
    requires Run(run) && 0 < k < |run| && 0 <= t < |run[k - 1].threads|
    ensures |run[k].threads| == |run[k - 1].threads| && run[k - 1].threads[t].retired <= run[k].threads[t].retired
  {
    var u, a := StepTaken(run, k);
    RetiredGrows(run[k - 1], u, a, t);
  }

  lemma {:induction false} RetiredStays(run: seq<State>, i: nat, k: nat, t: int, v: Ref)
    requires Run(run) && i <= k < |run| && 0 <= t < |run[i].threads| && v in run[i].threads[t].retired
    ensures |run[k].threads| == |run[i].threads| && v in run[k].threads[t].retired
    decreases k - i
  {
    if i < k {
      RetiredStays(run, i, k - 1, t, v);
      RetiredGrowsNext(run, k, t);
    }
  }

  /** ... and none ever will again: for the rest of the run no link slot names a retired node. */
  lemma RetiredForever(run: seq<State>, i: nat, k: nat, t: int, v: Ref)
    requires Run(run) && i <= k < |run| && 0 <= t < |run[i].threads| && v in run[i].threads[t].retired
    ensures Unreferenced(run[k].heap, v)
  {
    RetiredStays(run, i, k, t, v);
    InvHolds(run, k);
    RetiredIsUnreferenced(run[k], t, v);
  }

  // ----- the history -----

  ghost predicate Histories(run: seq<State>, i: nat)
    requires i < |run|
  {
    && |run[i].log| == i + 1
    && (forall j :: 0 <= j <= i ==> run[i].log[j] == Abs(run[j].heap))
  }

  /** The log really is the sequence of abstract sets of the run so far. */
  lemma {:induction false} LogIsHistory(run: seq<State>, i: nat)
    requires Run(run) && i < |run|
    ensures Histories(run, i)
  {
    if i > 0 {
      LogIsHistory(run, i - 1);
      LogGrows(run, i);
    }
  }

  lemma LogGrows(run: seq<State>, i: nat)
    requires Run(run) && 0 < i < |run|
    ensures run[i].log == run[i - 1].log + [Abs(run[i].heap)]
  {
    var t, a := StepTaken(run, i);
  }

  /** What each step does to the abstract set: line 502 adds the key, the level-0 unlink of line 784 removes it, no
      other step changes anything. */
  lemma StepEffect(s: State, t: int, a: Action)
    requires Inv(s) && Enabled(s, t, a)
    ensures var th := s.threads[t];
      var key := th.find.key;
      if a.Go? && th.pc == I_FULL then key !in Abs(s.heap) && Abs(Apply(s, t, a).heap) == Abs(s.heap) + {key}
      else if a.Go? && th.pc == R_UNLINK && th.level == 0 then key in Abs(s.heap) && Abs(Apply(s, t, a).heap) == Abs(s.heap) - {key}
      else Abs(Apply(s, t, a).heap) == Abs(s.heap)
  {
    if a.Go? {
      ThreadEffect(s.heap, s.threads[t], t, s.log);
    }
  }

  lemma ThreadEffect(heap: Heap, th: Thread, t: int, log: seq<set<int>>)
    requires HeapInv(heap) && ThreadInv(heap, th, t, log) && t >= 0 && th.pc != IDLE && !Blocked(heap, th)
    ensures Safe(heap, th) && (HasTaken(th) && th.pc == DONE ==> ValidRef(heap, th.victim))
    ensures var heap' := ExecHeap(heap, th, t);
      if th.pc == I_FULL then th.find.key !in Abs(heap) && Abs(heap') == Abs(heap) + {th.find.key}
      else if th.pc == R_UNLINK && th.level == 0 then th.find.key in Abs(heap) && Abs(heap') == Abs(heap) - {th.find.key}
      else Abs(heap') == Abs(heap)
  {
    SafeWhenInvariant(heap, th, t, log);
    if th.pc == I_FULL {
      FullyGuarantee(heap, th.newNode, t);
      assert Linked(heap, th.newNode, 0);
      AbsentWhileLinking(heap, th.newNode);
    } else if th.pc == R_UNLINK {
      RUnlinkPre(heap, th, t, log);
      UnlinkAbs(heap, th.find.preds[th.level], th.victim, th.level, t);
    } else if th.pc == I_LINK {
      ILinkPre(heap, th, t, log);
      LinkGuarantee(heap, th.find.preds[th.level], th.newNode, th.level, t);
    } else {
      OtherEffect(heap, th, t);
    }
  }

  /** No node is linked or unlinked at level 0, completed or given another key. */
  ghost predicate SameMembers(heap: Heap, heap': Heap) {
    && |heap| <= |heap'|
    && (forall r :: 0 <= r < |heap| ==>
          heap'[r].now == heap[r].now && heap'[r].fullyLinked == heap[r].fullyLinked && heap'[r].key == heap[r].key)
    && (forall r :: |heap| <= r < |heap'| ==> heap'[r].now == 0)
  }

  lemma SameMembersSameSet(heap: Heap, heap': Heap)
    requires SameMembers(heap, heap')
    ensures Abs(heap') == Abs(heap)
  {
  }

  lemma EarlyMembers(heap: Heap, th: Thread, t: int)
    requires Safe(heap, th) && th.pc < I_LINK
    ensures SameMembers(heap, ExecHeap(heap, th, t))
  {
  }

  lemma LateMembers(heap: Heap, th: Thread, t: int)
    requires Safe(heap, th) && (HasTaken(th) && th.pc == DONE ==> ValidRef(heap, th.victim))
    requires I_FULL < th.pc && th.pc != R_UNLINK
    ensures SameMembers(heap, ExecHeap(heap, th, t))
  {
  }

  lemma OtherEffect(heap: Heap, th: Thread, t: int)
    requires Safe(heap, th) && (HasTaken(th) && th.pc == DONE ==> ValidRef(heap, th.victim))
    requires th.pc != I_FULL && th.pc != R_UNLINK && th.pc != I_LINK
    ensures Abs(ExecHeap(heap, th, t)) == Abs(heap)
  {
    if th.pc < I_LINK { EarlyMembers(heap, th, t); } else { LateMembers(heap, th, t); }
    SameMembersSameSet(heap, ExecHeap(heap, th, t));
  }
}
