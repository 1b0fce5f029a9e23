/** How much work a scan does: every turn of the inner loop beyond threads x entries repeats an entry, and every
    repetition consumes a commit of the scanned thread that no other repetition consumes. */
module ReclaimWork {
  import opened ReclaimMachine
  import opened ReclaimSafety
  import opened ReclaimTheorems
  import opened Sums

  lemma {:induction false} SumOfZeros(n: nat)
    ensures Sum(Zeros(n)) == 0
  {
    if n > 0 {
      assert Zeros(n)[..n - 1] == Zeros(n - 1);
      SumOfZeros(n - 1);
    }
  }

  /** n times size. */
  ghost function Times(n: nat, size: nat): nat {
    if n == 0 then 0 else Times(n - 1, size) + size
  }

  lemma {:induction false} TimesIsProduct(n: nat, size: nat)
    ensures Times(n, size) == n * size
  {
    if n > 0 {
      TimesIsProduct(n - 1, size);
      assert n * size == (n - 1) * size + size;
    }
  }

  lemma {:induction false} TimesIsMonotone(m: nat, n: nat, size: nat)
    requires m <= n
    ensures Times(m, size) <= Times(n, size)
  {
    if m < n {
      TimesIsMonotone(m, n - 1, size);
    }
  }

  /** How often thread h has committed since the scan began. */
  ghost function CommitsOf(k: Work, workers: seq<Worker>, h: int): int
    requires 0 <= h < |workers| && h < |k.base|
  {
    workers[h].splitCounter - k.base[h]
  }

  ghost function Commits(k: Work, workers: seq<Worker>): seq<int>
    requires |k.base| == |workers|
  {
    seq(|workers|, h requires 0 <= h < |workers| => CommitsOf(k, workers, h))
  }

  /** Retries of thread h so far; between line 400 and line 407 they are even covered by the copy taken at line 400. */
  ghost predicate Covered(sc: Scan, workers: seq<Worker>, h: int)
    requires 0 <= h < |workers| && h < |sc.work.base| && h < |sc.work.retries|
  {
    && sc.work.retries[h] <= CommitsOf(sc.work, workers, h)
    && (SLOW_PATH <= sc.pc <= RECHECK && h == sc.th ==>
          sc.split <= workers[h].splitCounter && sc.work.base[h] + sc.work.retries[h] <= sc.split)
  }

  /** The turns taken so far, by how far the loops have come. */
  ghost predicate TurnsOk(list: seq<Entry>, sc: Scan, n: nat) {
    var k := sc.work;
    && (COUNTERS <= sc.pc <= RECHECK ==> |list| == k.size && sc.i <= k.size)
    && (sc.pc == COUNTERS ==> k.iters == 0 && sc.th == 0 && sc.i == 0 && Sum(k.retries) == 0)
    && (sc.pc == NEXT_ENTRY ==> k.iters <= Times(sc.th, k.size) + sc.i + Sum(k.retries))
    && (sc.pc == NEXT_ENTRY && sc.th == n ==> sc.i == 0)
    && (STACK_COUNTER <= sc.pc <= RECHECK ==> sc.i < k.size && k.iters <= Times(sc.th, k.size) + sc.i + 1 + Sum(k.retries))
    && (sc.pc == FREEING ==> k.iters <= Times(n, k.size) + Sum(k.retries))
  }

  ghost predicate WorkOk(w: Worker, workers: seq<Worker>) {
    w.scan.pc != NOT_SCANNING ==>
      && |w.scan.work.base| == |workers| && |w.scan.work.retries| == |workers|
      && (forall h :: 0 <= h < |workers| ==> Covered(w.scan, workers, h))
      && TurnsOk(w.list, w.scan, |workers|)
  }

  ghost predicate WorksOk(workers: seq<Worker>) {
    forall t :: 0 <= t < |workers| ==> WorkOk(workers[t], workers)
  }

  // ----- every step keeps it -----

  /** At a thread, a step stays at the entry, moves to the next entry or the next thread, or counts a retry. */
  lemma EntryStep(w: Worker, u: Worker)
    requires AtThread(w, u)
    ensures var sc, next := w.scan, ScanThread(w, u).scan;
      && next.work.size == sc.work.size && next.work.iters == sc.work.iters
      && |ScanThread(w, u).list| == |w.list|
      && (|| (STACK_COUNTER < next.pc <= RECHECK && next.th == sc.th && next.i == sc.i && next.work == sc.work)
          || (next.pc == NEXT_ENTRY && next.th == sc.th && next.i == sc.i + 1 && next.work == sc.work)
          || (next.pc == NEXT_ENTRY && next.th == sc.th + 1 && next.i == 0 && next.work == sc.work)
          || (next.pc == NEXT_ENTRY && next.th == sc.th && next.i == sc.i && next.work == Retry(sc.work, sc.th)))
  {
  }

  lemma TurnsAtThread(w: Worker, u: Worker, n: nat)
    requires AtThread(w, u) && w.scan.th < n && TurnsOk(w.list, w.scan, n)
    ensures TurnsOk(ScanThread(w, u).list, ScanThread(w, u).scan, n)
  {
    var sc := w.scan;
    assert Times(sc.th + 1, sc.work.size) == Times(sc.th, sc.work.size) + sc.work.size;
    SumOfUpdate(sc.work.retries, sc.th, sc.work.retries[sc.th] + 1);
    EntryStep(w, u);
    TurnsMove(w.list, ScanThread(w, u).list, sc, ScanThread(w, u).scan, n);
  }

  lemma TurnsMove(list: seq<Entry>, after: seq<Entry>, sc: Scan, next: Scan, n: nat)
    requires STACK_COUNTER <= sc.pc <= RECHECK && sc.th < n && TurnsOk(list, sc, n) && |after| == |list|
    requires Times(sc.th + 1, sc.work.size) == Times(sc.th, sc.work.size) + sc.work.size
    requires next.work.size == sc.work.size && next.work.iters == sc.work.iters
    requires
      || (STACK_COUNTER < next.pc <= RECHECK && next.th == sc.th && next.i == sc.i && next.work == sc.work)
      || (next.pc == NEXT_ENTRY && next.th == sc.th && next.i == sc.i + 1 && next.work == sc.work)
      || (next.pc == NEXT_ENTRY && next.th == sc.th + 1 && next.i == 0 && next.work == sc.work)
      || (next.pc == NEXT_ENTRY && next.th == sc.th && next.i == sc.i && Sum(next.work.retries) == Sum(sc.work.retries) + 1)
    ensures TurnsOk(after, next, n)
  {
  }

  lemma TurnsAtHead(workers: seq<Worker>, t: int)
    requires 0 <= t < |workers| && ScanSafe(workers, t) && ScanShape(workers[t], |workers|)
    requires workers[t].scan.pc == NEXT_ENTRY
    requires TurnsOk(workers[t].list, workers[t].scan, |workers|)
    ensures TurnsOk(DoScan(workers, t).list, DoScan(workers, t).scan, |workers|)
  {
    var sc := workers[t].scan;
    assert Times(sc.th + 1, sc.work.size) == Times(sc.th, sc.work.size) + sc.work.size;
  }

  lemma TurnsAfter(workers: seq<Worker>, t: int)
    requires 0 <= t < |workers| && ScanSafe(workers, t) && ScanShape(workers[t], |workers|)
    requires TurnsOk(workers[t].list, workers[t].scan, |workers|)
    ensures TurnsOk(DoScan(workers, t).list, DoScan(workers, t).scan, |workers|)
  {
    var w, pc := workers[t], workers[t].scan.pc;
    if pc == NEXT_ENTRY {
      TurnsAtHead(workers, t);
    } else if STACK_COUNTER <= pc <= RECHECK {
      TurnsAtThread(w, workers[w.scan.th], |workers|);
    }
  }

  lemma CoveredAfter(workers: seq<Worker>, t: int, h: int)
    requires 0 <= t < |workers| && 0 <= h < |workers| && ScanSafe(workers, t)
    requires h < |workers[t].scan.work.base| && |workers[t].scan.work.retries| == |workers|
    requires Covered(workers[t].scan, workers, h)
    ensures var sc := DoScan(workers, t).scan;
      sc.pc != NOT_SCANNING ==>
        h < |sc.work.base| && h < |sc.work.retries| && Covered(sc, workers, h)
  {
  }

  lemma CoveredStable(sc: Scan, workers: seq<Worker>, later: seq<Worker>, h: int)
    requires 0 <= h < |workers| == |later| && h < |sc.work.base| && h < |sc.work.retries|
    requires Covered(sc, workers, h) && workers[h].splitCounter <= later[h].splitCounter
    ensures Covered(sc, later, h)
  {
  }

  lemma WorkShape(workers: seq<Worker>, t: int)
    requires 0 <= t < |workers| && ScanSafe(workers, t)
    ensures var k, k' := workers[t].scan.work, DoScan(workers, t).scan.work;
      DoScan(workers, t).scan.pc != NOT_SCANNING ==> k'.base == k.base && |k'.retries| == |k.retries|
  {
  }

  lemma OwnWorkAfter(s: State, t: int, a: Action)
    requires Enabled(s, t, a) && Inv(s) && WorksOk(s.workers)
    ensures WorkOk(Moved(s, t, a), s.workers)
  {
    var w, v := s.workers[t], Moved(s, t, a);
    assert WorkOk(w, s.workers) && ScanShape(w, |s.workers|);
    if a.ScanStep? {
      TurnsAfter(s.workers, t);
      WorkShape(s.workers, t);
      forall h | 0 <= h < |s.workers| && v.scan.pc != NOT_SCANNING ensures Covered(v.scan, s.workers, h) {
        CoveredAfter(s.workers, t, h);
      }
    } else if a.StartScan? {
      SumOfZeros(|s.workers|);
    }
  }

  lemma WorkStable(w: Worker, workers: seq<Worker>, later: seq<Worker>)
    requires WorkOk(w, workers) && |later| == |workers|
    requires forall h :: 0 <= h < |workers| ==> workers[h].splitCounter <= later[h].splitCounter
    ensures WorkOk(w, later)
  {
    if w.scan.pc != NOT_SCANNING {
      forall h | 0 <= h < |workers| ensures Covered(w.scan, later, h) {
        CoveredStable(w.scan, workers, later, h);
      }
    }
  }

  lemma StepKeepsWork(s: State, t: int, a: Action)
    requires Enabled(s, t, a) && Inv(s) && WorksOk(s.workers)
    ensures WorksOk(Apply(s, t, a).workers)
  {
    var s' := Apply(s, t, a);
    CountersGrow(s, t, a);
    OwnWorkAfter(s, t, a);
    forall u | 0 <= u < |s.workers| ensures WorkOk(s'.workers[u], s'.workers) {
      assert WorkOk(s'.workers[u], s.workers);
      WorkStable(s'.workers[u], s.workers, s'.workers);
    }
  }

  lemma {:induction false} WorkHolds(run: seq<State>, k: nat)
    requires Run(run) && k < |run|
    ensures WorksOk(run[k].workers)
  {
    if k > 0 {
      WorkHolds(run, k - 1);
      var t, a := InvStep(run, k);
      StepKeepsWork(run[k - 1], t, a);
    }
  }

  /** Scan work bound: when the loops of a scan are over, the inner loop has turned at most threads x free_list_size
      times plus once for every commit that the scanned threads made meanwhile; while they run, the part of the
      bound that is due so far holds already.  (ReclaimProgress bounds all steps of the scan by these turns.) */
  lemma ScanWorkBound(run: seq<State>, k: nat, t: int)
    requires Run(run) && k < |run| && 0 <= t < |run[k].workers| && run[k].workers[t].scan.pc >= NEXT_ENTRY
    ensures var work, n := run[k].workers[t].scan.work, |run[k].workers|;
      && |work.base| == n
      && work.iters <= n * work.size + Sum(Commits(work, run[k].workers))
  {
    WorkHolds(run, k);
    InvHolds(run, k);
    var w, workers := run[k].workers[t], run[k].workers;
    assert WorkOk(w, workers) && ScanShape(w, |workers|);
    var commits := Commits(w.scan.work, workers);
    forall h | 0 <= h < |workers| ensures w.scan.work.retries[h] <= commits[h] {
      assert Covered(w.scan, workers, h);
    }
    SumIsMonotone(w.scan.work.retries, commits);
    TurnsWithin(w.list, w.scan, |workers|);
  }

  lemma TurnsWithin(list: seq<Entry>, sc: Scan, n: nat)
    requires TurnsOk(list, sc, n) && NEXT_ENTRY <= sc.pc <= FREEING
    requires NEXT_ENTRY <= sc.pc <= RECHECK ==> sc.th <= n
    requires STACK_COUNTER <= sc.pc <= RECHECK ==> sc.th < n
    ensures sc.work.iters <= n * sc.work.size + Sum(sc.work.retries)
  {
    TimesIsProduct(n, sc.work.size);
    if sc.pc <= RECHECK && sc.th < n {
      TimesIsMonotone(sc.th + 1, n, sc.work.size);
    }
  }
}
