/** The invariant of the reclamation machine, kept by every step of every thread, and what follows from it: nothing
    that a thread still holds is freed, no node is freed twice, and the free lists stay duplicate-free and disjoint. */
module ReclaimSafety {
  import opened ReclaimMachine

  // ----- the invariant -----

  ghost predicate WorkerOk(w: Worker) {
    && |w.hp| == MAX_HP_RECORDS && w.nHp <= MAX_HP_RECORDS
    && (forall k :: k in w.sure ==> k < w.nHp)
    && (forall p :: p in w.live ==> p in w.words)
    && (w.slow ==> w.live == {}) && (!w.slow ==> w.sure == {})
    && (w.stage != INSIDE ==> w.sure == {} && w.live == {})
    && (w.init != Idle ==> w.stage == INSIDE && w.slow && w.init.rec < w.nHp)
    && (w.scan.pc != NOT_SCANNING ==> w.stage == OUTSIDE)
  }

  /** An entry of one free list and an entry of another, or two entries of the same list, name different nodes. */
  ghost predicate Apart(a: seq<Entry>, b: seq<Entry>) {
    forall d, e :: 0 <= d < |a| && 0 <= e < |b| ==> a[d].ptr != b[e].ptr
  }

  ghost predicate Distinct(a: seq<Entry>) {
    forall d, e :: 0 <= d < e < |a| ==> a[d].ptr != a[e].ptr
  }

  ghost predicate AllIn(a: seq<Entry>, mem: set<Ptr>) {
    forall e :: 0 <= e < |a| ==> a[e].ptr in mem
  }

  /** Retired once: the free lists have no repetition, and no two of them share a node. */
  ghost predicate ListsOk(workers: seq<Worker>, mem: set<Ptr>) {
    && (forall t :: 0 <= t < |workers| ==> Distinct(workers[t].list) && AllIn(workers[t].list, mem))
    && (forall t, u :: 0 <= t < |workers| && 0 <= u < |workers| && t != u ==> Apart(workers[t].list, workers[u].list))
  }

  ghost predicate SlotsOk(s: State) {
    forall x :: x in s.slots ==> Storable(s, s.slots[x])
  }

  ghost predicate HeldInMem(w: Worker, mem: set<Ptr>) {
    forall p :: Holds(w, p) && p != NULL ==> p in mem
  }

  /** Every entry before i is marked found or is not held by u. */
  ghost predicate Clear(list: seq<Entry>, i: int, u: Worker) {
    forall e :: 0 <= e < i && e < |list| ==> list[e].found || !Holds(u, list[e].ptr)
  }

  ghost predicate HoldsNone(list: seq<Entry>, u: Worker) {
    forall e :: 0 <= e < |list| ==> !Holds(u, list[e].ptr)
  }

  /** Where the search of thread u for p stands. */
  ghost predicate Looking(sc: Scan, p: Ptr, u: Worker) {
    && sc.split <= u.splitCounter
    && (sc.pc == N_RECORDS && Holds(u, p) ==> u.slow)
    && (sc.pc == RECORD ==> sc.j < MAX_HP_RECORDS)
    && (sc.pc == RECORD && Holds(u, p) ==>
          u.slow && (forall k: nat :: k in u.sure && k < |u.hp| && u.hp[k] == p ==> k <= sc.j))
    && (sc.pc == N_WORDS && Holds(u, p) ==> !u.slow)
    && (sc.pc == WORD ==> 0 <= sc.j)
    && (sc.pc == WORD && Holds(u, p) && sc.split == u.splitCounter ==>
          !u.slow && sc.n == |u.words| && (forall k :: 0 <= k < sc.j && k < |u.words| ==> u.words[k] != p))
    && (sc.pc == RECHECK && Holds(u, p) ==> sc.split < u.splitCounter)
  }

  /** What a scan knows of thread h, whose record is u. */
  ghost predicate Knows(list: seq<Entry>, sc: Scan, h: int, u: Worker) {
    && (0 <= h < |sc.counters| ==>
          sc.counters[h] <= u.stackCounter && (sc.counters[h] < u.stackCounter ==> HoldsNone(list, u)))
    && (sc.pc == FREEING || (NEXT_ENTRY <= sc.pc && h < sc.th) ==> Clear(list, |list|, u))
    && (NEXT_ENTRY <= sc.pc <= RECHECK && h == sc.th ==> Clear(list, sc.i, u))
    && (SLOW_PATH <= sc.pc <= RECHECK && h == sc.th && sc.i < |list| ==> Looking(sc, list[sc.i].ptr, u))
  }

  ghost predicate ScanShape(w: Worker, n: nat) {
    && NOT_SCANNING <= w.scan.pc <= FREEING
    && (w.scan.pc == NOT_SCANNING ==> w.scan == NO_SCAN)
    && (w.scan.pc == COUNTERS ==> |w.scan.counters| < n)
    && (NEXT_ENTRY <= w.scan.pc <= RECHECK ==> |w.scan.counters| == n && |w.scan.work.retries| == n && w.scan.th <= n)
    && (STACK_COUNTER <= w.scan.pc <= RECHECK ==> w.scan.th < n && w.scan.i < |w.list|)
    && (w.scan.pc == COUNTERS ==> w.scan.th == 0 && w.scan.i == 0 && |w.scan.work.retries| == n)
  }

  ghost predicate ScansOk(workers: seq<Worker>) {
    && (forall t :: 0 <= t < |workers| ==> ScanShape(workers[t], |workers|))
    && (forall t, h :: 0 <= t < |workers| && 0 <= h < |workers| ==>
          Knows(workers[t].list, workers[t].scan, h, workers[h]))
  }

  ghost predicate Inv(s: State) {
    && (forall t :: 0 <= t < |s.workers| ==> WorkerOk(s.workers[t]))
    && ListsOk(s.workers, s.mem) && NULL !in s.mem
    && SlotsOk(s)
    && (forall t :: 0 <= t < |s.workers| ==> HeldInMem(s.workers[t], s.mem))
    && ScansOk(s.workers)
  }

  // ----- how a thread's record may change under a scanner that looks for p -----

  /** If the thread holds p after the step, it held p before, in the same way. */
  ghost predicate Keeps(u: Worker, v: Worker, p: Ptr) {
    Holds(v, p) ==>
      && Holds(u, p) && v.slow == u.slow && v.stackCounter == u.stackCounter
      && (forall k :: k in v.sure && k < |v.hp| && v.hp[k] == p ==> k in u.sure && k < |u.hp| && u.hp[k] == p)
      && (!v.slow && v.splitCounter == u.splitCounter ==> v.words == u.words)
  }

  ghost predicate Evolves(u: Worker, v: Worker, p: Ptr) {
    v.stackCounter >= u.stackCounter && v.splitCounter >= u.splitCounter && Keeps(u, v, p)
  }

  lemma LookingStable(sc: Scan, p: Ptr, u: Worker, v: Worker)
    requires Looking(sc, p, u) && Evolves(u, v, p)
    ensures Looking(sc, p, v)
  {
  }

  lemma KnowsStable(list: seq<Entry>, sc: Scan, h: int, u: Worker, v: Worker)
    requires Knows(list, sc, h, u)
    requires forall e :: 0 <= e < |list| ==> Evolves(u, v, list[e].ptr)
    requires v.stackCounter >= u.stackCounter
    ensures Knows(list, sc, h, v)
  {
    if SLOW_PATH <= sc.pc <= RECHECK && h == sc.th && sc.i < |list| {
      LookingStable(sc, list[sc.i].ptr, u, v);
    }
  }

  /** No step lets its thread take hold of a retired node. */
  lemma StepEvolves(s: State, t: int, a: Action, p: Ptr)
    requires Enabled(s, t, a) && WorkerOk(s.workers[t]) && SlotsOk(s) && Retired(s, p) && p != NULL
    ensures Evolves(s.workers[t], Moved(s, t, a), p)
  {
  }

  // ----- the scanner's own step -----

  ghost predicate AtThread(w: Worker, u: Worker) {
    && STACK_COUNTER <= w.scan.pc <= RECHECK
    && w.scan.th < |w.scan.counters| && w.scan.th < |w.scan.work.retries| && w.scan.i < |w.list|
    && (w.scan.pc == RECORD && 0 <= w.scan.j ==> w.scan.j < |u.hp|)
    && (w.scan.pc == WORD ==> 0 <= w.scan.j)
  }

  /** Scanning one thread keeps what is known of the threads scanned before. */
  lemma ScanThreadKnowsOthers(w: Worker, u: Worker, h: int, x: Worker)
    requires AtThread(w, u) && h != w.scan.th && Knows(w.list, w.scan, h, x)
    ensures var v := ScanThread(w, u); v.scan.th == w.scan.th ==> Knows(v.list, v.scan, h, x)
  {
  }

  lemma EarlyBreakKnows(w: Worker, u: Worker, h: int, x: Worker)
    requires AtThread(w, u) && w.scan.pc == STACK_COUNTER && w.scan.counters[w.scan.th] != u.stackCounter
    requires Knows(w.list, w.scan, w.scan.th, u) && Knows(w.list, w.scan, h, x) && (h == w.scan.th ==> x == u)
    ensures Knows(ScanThread(w, u).list, ScanThread(w, u).scan, h, x)
  {
  }

  lemma LookingAdvances(w: Worker, u: Worker)
    requires AtThread(w, u) && WorkerOk(u) && Looking(w.scan, w.list[w.scan.i].ptr, u)
    requires SLOW_PATH <= w.scan.pc <= RECHECK
    ensures var v := ScanThread(w, u);
      v.scan.pc != NEXT_ENTRY ==> v.list == w.list && Looking(v.scan, w.list[w.scan.i].ptr, u)
    ensures var v := ScanThread(w, u);
      w.scan.pc == RECHECK && v.scan.i > w.scan.i ==> !Holds(u, w.list[w.scan.i].ptr)
  {
  }

  lemma ScanThreadKnowsIt(w: Worker, u: Worker)
    requires AtThread(w, u) && WorkerOk(u) && Knows(w.list, w.scan, w.scan.th, u)
    ensures var v := ScanThread(w, u); v.scan.th == w.scan.th ==> Knows(v.list, v.scan, w.scan.th, u)
  {
    if SLOW_PATH <= w.scan.pc {
      LookingAdvances(w, u);
    }
  }

  /** Reading a counter: the thread holds nothing new until the counter moves on. */
  lemma CountersKnow(workers: seq<Worker>, t: int, h: int)
    requires 0 <= t < |workers| && 0 <= h < |workers| && ScanSafe(workers, t) && ScanShape(workers[t], |workers|)
    requires workers[t].scan.pc == COUNTERS && Knows(workers[t].list, workers[t].scan, h, workers[h])
    ensures Knows(DoScan(workers, t).list, DoScan(workers, t).scan, h, workers[h])
  {
    var w, v := workers[t], DoScan(workers, t);
    assert |v.list| == |w.list| && (forall e :: 0 <= e < |w.list| ==> v.list[e].ptr == w.list[e].ptr);
    assert 0 <= h < |v.scan.counters| ==>
        v.scan.counters[h] == if h < |w.scan.counters| then w.scan.counters[h] else workers[h].stackCounter;
  }

  lemma LoopHeadKnows(workers: seq<Worker>, t: int, h: int)
    requires 0 <= t < |workers| && 0 <= h < |workers| && ScanSafe(workers, t) && ScanShape(workers[t], |workers|)
    requires workers[t].scan.pc == NEXT_ENTRY && Knows(workers[t].list, workers[t].scan, h, workers[h])
    ensures Knows(DoScan(workers, t).list, DoScan(workers, t).scan, h, workers[h])
  {
  }

  lemma FreeingKnows(workers: seq<Worker>, t: int, h: int)
    requires 0 <= t < |workers| && 0 <= h < |workers| && ScanSafe(workers, t) && ScanShape(workers[t], |workers|)
    requires workers[t].scan.pc == FREEING && Knows(workers[t].list, workers[t].scan, h, workers[h])
    ensures Knows(DoScan(workers, t).list, DoScan(workers, t).scan, h, workers[h])
  {
  }

  lemma ScanKnows(workers: seq<Worker>, t: int, h: int)
    requires 0 <= t < |workers| && 0 <= h < |workers| && ScanSafe(workers, t)
    requires ScansOk(workers) && (forall v :: 0 <= v < |workers| ==> WorkerOk(workers[v]))
    ensures Knows(DoScan(workers, t).list, DoScan(workers, t).scan, h, workers[h])
  {
    var w := workers[t];
    assert ScanShape(w, |workers|);
    assert Knows(w.list, w.scan, h, workers[h]);
    if STACK_COUNTER <= w.scan.pc <= RECHECK {
      var u := workers[w.scan.th];
      assert Knows(w.list, w.scan, w.scan.th, u);
      if w.scan.pc == STACK_COUNTER && w.scan.counters[w.scan.th] != u.stackCounter {
        EarlyBreakKnows(w, u, h, workers[h]);
      } else if h == w.scan.th {
        ScanThreadKnowsIt(w, u);
      } else {
        ScanThreadKnowsOthers(w, u, h, workers[h]);
      }
    } else if w.scan.pc == COUNTERS {
      CountersKnow(workers, t, h);
    } else if w.scan.pc == NEXT_ENTRY {
      LoopHeadKnows(workers, t, h);
    } else {
      FreeingKnows(workers, t, h);
    }
  }

  lemma ScanShapeKept(workers: seq<Worker>, t: int)
    requires 0 <= t < |workers| && ScanSafe(workers, t) && ScansOk(workers)
    ensures ScanShape(DoScan(workers, t), |workers|)
  {
  }

  lemma ScanIsSafe(s: State, t: int)
    requires Inv(s) && 0 <= t < |s.workers| && s.workers[t].scan.pc != NOT_SCANNING
    ensures ScanSafe(s.workers, t)
  {
    var w := s.workers[t];
    assert ScanShape(w, |s.workers|);
    if STACK_COUNTER <= w.scan.pc <= RECHECK {
      assert Knows(w.list, w.scan, w.scan.th, s.workers[w.scan.th]);
    }
  }

  // ----- every step keeps the invariant -----

  ghost predicate SamePtrs(a: seq<Entry>, b: seq<Entry>) {
    |a| == |b| && forall e :: 0 <= e < |a| ==> a[e].ptr == b[e].ptr
  }

  /** b is a without its entry i: the last entry takes its place. */
  ghost predicate Without(a: seq<Entry>, i: nat, b: seq<Entry>) {
    && i < |a| && |b| == |a| - 1
    && (forall e :: 0 <= e < |b| ==> b[e] == a[if e == i then |a| - 1 else e])
  }

  /** What a scan step does to the list: it removes the entry it frees, and otherwise keeps every pointer in place. */
  lemma ScanList(workers: seq<Worker>, t: int)
    requires 0 <= t < |workers| && ScanSafe(workers, t)
    ensures Frees(workers[t]) ==> Without(workers[t].list, workers[t].scan.i, DoScan(workers, t).list)
    ensures !Frees(workers[t]) ==> SamePtrs(workers[t].list, DoScan(workers, t).list)
  {
  }

  lemma WorkerOkKept(s: State, t: int, a: Action)
    requires Enabled(s, t, a) && WorkerOk(s.workers[t])
    ensures WorkerOk(Moved(s, t, a))
  {
  }

  /** A node on a free list after the step was there before, or has just been retired; a freed one has left. */
  lemma RetiredAfter(s: State, t: int, a: Action, p: Ptr)
    requires Enabled(s, t, a) && ListsOk(s.workers, s.mem)
    requires Retired(Apply(s, t, a), p)
    ensures (Retired(s, p) && !(a.ScanStep? && Frees(s.workers[t]) && s.workers[t].list[s.workers[t].scan.i].ptr == p))
            || a == Retire(p)
  {
    var w, v := s.workers[t], Moved(s, t, a);
    var u :| 0 <= u < |s.workers| && OnList(Apply(s, t, a).workers[u].list, p);
    if u != t {
      assert Apply(s, t, a).workers[u] == s.workers[u];
      if a.ScanStep? && Frees(w) {
        assert Apart(s.workers[u].list, w.list);
      }
    } else if a.ScanStep? {
      ScanList(s.workers, t);
      var e :| 0 <= e < |v.list| && v.list[e].ptr == p;
      var d := if Frees(w) && e == w.scan.i then |w.list| - 1 else e;
      assert w.list[d].ptr == p;
      assert Distinct(w.list);
      assert OnList(w.list, p);
    } else if a.Retire? {
      var e :| 0 <= e < |v.list| && v.list[e].ptr == p;
      assert e < |w.list| ==> w.list[e].ptr == p && OnList(w.list, p);
    }
  }

  /** A pointer that may be stored before the step still may after it, unless the step retires it. */
  lemma StorableAfter(s: State, t: int, a: Action, p: Ptr)
    requires Enabled(s, t, a) && Inv(s) && Storable(s, p)
    ensures Storable(Apply(s, t, a), p) || a == Retire(p)
  {
    if p != NULL {
      var s' := Apply(s, t, a);
      if Retired(s', p) {
        RetiredAfter(s, t, a, p);
      }
      var w := s.workers[t];
      if a.ScanStep? && Frees(w) {
        assert OnList(w.list, w.list[w.scan.i].ptr);
      }
    }
  }

  lemma SlotsKept(s: State, t: int, a: Action)
    requires Enabled(s, t, a) && Inv(s)
    ensures SlotsOk(Apply(s, t, a))
  {
    var s' := Apply(s, t, a);
    forall x | x in s'.slots ensures Storable(s', s'.slots[x]) {
      var p := s'.slots[x];
      if p != NULL {
        assert Storable(s, p);
        StorableAfter(s, t, a, p);
        if a.Retire? {
          assert x in s.slots && !Named(s.slots, a.ptr);
        }
      }
    }
  }

  lemma NewList(s: State, t: int, a: Action)
    requires Enabled(s, t, a) && ListsOk(s.workers, s.mem)
    ensures Distinct(Moved(s, t, a).list) && AllIn(Moved(s, t, a).list, MemAfter(s, t, a))
    ensures forall u :: 0 <= u < |s.workers| && u != t ==>
      Apart(Moved(s, t, a).list, s.workers[u].list) && Apart(s.workers[u].list, Moved(s, t, a).list)
      && AllIn(s.workers[u].list, MemAfter(s, t, a))
  {
    var w, v := s.workers[t], Moved(s, t, a);
    assert Distinct(w.list) && AllIn(w.list, s.mem);
    if a.ScanStep? {
      ScanList(s.workers, t);
    }
    forall u | 0 <= u < |s.workers| && u != t
      ensures Apart(v.list, s.workers[u].list) && Apart(s.workers[u].list, v.list)
        && AllIn(s.workers[u].list, MemAfter(s, t, a))
    {
      var list := s.workers[u].list;
      assert Apart(w.list, list) && Apart(list, w.list) && AllIn(list, s.mem);
      if a.Retire? {
        assert !OnList(list, a.ptr);
      }
    }
    if a.Retire? {
      assert !OnList(w.list, a.ptr);
    }
  }

  lemma ListsKept(s: State, t: int, a: Action)
    requires Enabled(s, t, a) && ListsOk(s.workers, s.mem)
    ensures ListsOk(Apply(s, t, a).workers, Apply(s, t, a).mem)
  {
    NewList(s, t, a);
  }

  /** What a thread holds after a step it held before, or it has just taken it from a place where no retired node is. */
  lemma StepHolds(s: State, t: int, a: Action, p: Ptr)
    requires Enabled(s, t, a) && WorkerOk(s.workers[t]) && SlotsOk(s)
    requires Holds(Moved(s, t, a), p) && p != NULL
    ensures Holds(s.workers[t], p) || (p in s.mem && !Retired(s, p))
  {
  }

  /** The safety of freeing: the node that the scan is about to free is held by no thread. */
  lemma FreedIsHeldByNone(s: State, t: int, h: int)
    requires Inv(s) && 0 <= t < |s.workers| && 0 <= h < |s.workers| && Frees(s.workers[t])
    ensures !Holds(s.workers[h], s.workers[t].list[s.workers[t].scan.i].ptr)
  {
    assert Knows(s.workers[t].list, s.workers[t].scan, h, s.workers[h]);
  }

  lemma HeldKept(s: State, t: int, a: Action)
    requires Enabled(s, t, a) && Inv(s)
    ensures forall h :: 0 <= h < |s.workers| ==> HeldInMem(Apply(s, t, a).workers[h], MemAfter(s, t, a))
  {
    var s' := Apply(s, t, a);
    forall h, p | 0 <= h < |s.workers| && Holds(s'.workers[h], p) && p != NULL ensures p in s'.mem {
      if h == t {
        StepHolds(s, t, a, p);
      }
      assert HeldInMem(s.workers[h], s.mem);
      assert p in s.mem;
      var w := s.workers[t];
      if a.ScanStep? && Frees(w) {
        FreedIsHeldByNone(s, t, h);
        assert OnList(w.list, w.list[w.scan.i].ptr);
      }
    }
  }

  lemma EntriesEvolve(s: State, t: int, a: Action, u: int)
    requires Enabled(s, t, a) && Inv(s) && 0 <= u < |s.workers|
    ensures forall e :: 0 <= e < |s.workers[u].list| ==> Evolves(s.workers[t], Moved(s, t, a), s.workers[u].list[e].ptr)
  {
    var list := s.workers[u].list;
    forall e | 0 <= e < |list| ensures Evolves(s.workers[t], Moved(s, t, a), list[e].ptr) {
      assert OnList(list, list[e].ptr) && AllIn(list, s.mem);
      StepEvolves(s, t, a, list[e].ptr);
    }
  }

  lemma CountersGrow(s: State, t: int, a: Action)
    requires Enabled(s, t, a)
    ensures Moved(s, t, a).stackCounter >= s.workers[t].stackCounter
    ensures Moved(s, t, a).splitCounter >= s.workers[t].splitCounter
  {
  }

  /** Another thread's scan keeps what it knows. */
  lemma OtherScanKnows(s: State, t: int, a: Action, u: int, h: int)
    requires Enabled(s, t, a) && Inv(s) && 0 <= u < |s.workers| && 0 <= h < |s.workers| && u != t
    ensures Knows(s.workers[u].list, s.workers[u].scan, h, Apply(s, t, a).workers[h])
  {
    assert Knows(s.workers[u].list, s.workers[u].scan, h, s.workers[h]);
    if h == t {
      EntriesEvolve(s, t, a, u);
      CountersGrow(s, t, a);
      KnowsStable(s.workers[u].list, s.workers[u].scan, h, s.workers[t], Moved(s, t, a));
    }
  }

  lemma SameHold(list: seq<Entry>, sc: Scan, h: int, u: Worker, v: Worker)
    requires Knows(list, sc, h, u)
    requires v == u.(list := v.list, scan := v.scan)
    ensures Knows(list, sc, h, v)
  {
    forall e | 0 <= e < |list| ensures Evolves(u, v, list[e].ptr) {
    }
    KnowsStable(list, sc, h, u, v);
  }

  lemma OwnShape(s: State, t: int, a: Action)
    requires Enabled(s, t, a) && ScansOk(s.workers)
    ensures ScanShape(Moved(s, t, a), |s.workers|)
  {
    assert ScanShape(s.workers[t], |s.workers|);
    if a.ScanStep? {
      ScanShapeKept(s.workers, t);
    }
  }

  lemma StillListKnows(s: State, t: int, a: Action, h: int)
    requires Enabled(s, t, a) && Inv(s) && 0 <= h < |s.workers|
    requires Moved(s, t, a).list == s.workers[t].list && Moved(s, t, a).scan == s.workers[t].scan
    ensures Knows(Moved(s, t, a).list, Moved(s, t, a).scan, h, Apply(s, t, a).workers[h])
  {
    var w, v := s.workers[t], Moved(s, t, a);
    assert Knows(w.list, w.scan, h, s.workers[h]);
    if h == t {
      EntriesEvolve(s, t, a, t);
      CountersGrow(s, t, a);
      KnowsStable(w.list, w.scan, h, w, v);
    }
  }

  lemma ScanStepKnows(s: State, t: int, h: int)
    requires Enabled(s, t, ScanStep) && Inv(s) && 0 <= h < |s.workers|
    ensures Knows(Moved(s, t, ScanStep).list, Moved(s, t, ScanStep).scan, h, Apply(s, t, ScanStep).workers[h])
  {
    var w, v := s.workers[t], Moved(s, t, ScanStep);
    ScanKnows(s.workers, t, h);
    if h == t {
      SameHold(v.list, v.scan, h, w, v);
    }
  }

  /** The moving thread's own scan keeps, or begins to gather, what it knows. */
  lemma OwnScanKnows(s: State, t: int, a: Action, h: int)
    requires Enabled(s, t, a) && Inv(s) && 0 <= h < |s.workers|
    ensures Knows(Moved(s, t, a).list, Moved(s, t, a).scan, h, Apply(s, t, a).workers[h])
  {
    if a.ScanStep? {
      ScanStepKnows(s, t, h);
    } else if a.Retire? || a.StartScan? {
      assert ScanShape(s.workers[t], |s.workers|);
      assert |Moved(s, t, a).scan.counters| == 0;
    } else {
      StillListKnows(s, t, a, h);
    }
  }

  lemma ScansKept(s: State, t: int, a: Action)
    requires Enabled(s, t, a) && Inv(s)
    ensures ScansOk(Apply(s, t, a).workers)
  {
    var s' := Apply(s, t, a);
    forall u, h | 0 <= u < |s.workers| && 0 <= h < |s.workers|
      ensures ScanShape(s'.workers[u], |s.workers|)
      ensures Knows(s'.workers[u].list, s'.workers[u].scan, h, s'.workers[h])
    {
      if u == t {
        OwnScanKnows(s, t, a, h);
        OwnShape(s, t, a);
      } else {
        OtherScanKnows(s, t, a, u, h);
      }
    }
  }

  lemma StepKeepsInv(s: State, t: int, a: Action)
    requires Enabled(s, t, a) && Inv(s)
    ensures Inv(Apply(s, t, a))
  {
    WorkerOkKept(s, t, a);
    ListsKept(s, t, a);
    SlotsKept(s, t, a);
    HeldKept(s, t, a);
    ScansKept(s, t, a);
  }

  lemma InitHolds(s: State)
    requires Init(s)
    ensures Inv(s)
  {
  }
}
