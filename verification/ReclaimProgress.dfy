/** A scan ends if the commits do: the number of all its steps, not only of the inner loop's turns, is bounded by the
    number of threads, the length of the free list, the size of what the threads publish, and their commits. */
module ReclaimProgress {
  import opened ReclaimMachine
  import opened ReclaimSafety
  import opened ReclaimTheorems
  import opened ReclaimWork
  import opened Sums

  /** No thread publishes more than `most` words. */
  ghost predicate WordsBounded(workers: seq<Worker>, most: nat) {
    forall h :: 0 <= h < |workers| ==> |workers[h].words| <= most
  }

  /** At most so many steps look at one entry for one thread. */
  function PerTurn(most: nat): nat {
    MAX_HP_RECORDS + 9 + most
  }

  /** How far the search of one thread for one entry has come. */
  function Reached(sc: Scan): int {
    if sc.pc == STACK_COUNTER then 1
    else if sc.pc == SPLIT_COUNTER then 2
    else if sc.pc == SLOW_PATH then 3
    else if sc.pc == N_RECORDS then 4
    else if sc.pc == RECORD then 4 + MAX_HP_RECORDS - sc.j
    else if sc.pc == N_WORDS then 6 + MAX_HP_RECORDS
    else if sc.pc == WORD then 7 + MAX_HP_RECORDS + sc.j
    else 8 + MAX_HP_RECORDS + sc.n
  }

  ghost predicate InBounds(list: seq<Entry>, sc: Scan, n: nat, most: nat) {
    && sc.pc <= FREEING && (sc.pc == COUNTERS ==> |sc.counters| <= n)
    && (NEXT_ENTRY <= sc.pc <= RECHECK ==> sc.th <= n)
    && (STACK_COUNTER <= sc.pc <= RECHECK ==> 1 <= sc.work.iters)
    && (sc.pc == RECORD ==> -1 <= sc.j < MAX_HP_RECORDS)
    && (sc.pc == WORD ==> 0 <= sc.j <= sc.n)
    && (sc.pc == WORD || sc.pc == RECHECK ==> sc.n <= most)
    && (COUNTERS <= sc.pc <= RECHECK ==> |list| == sc.work.size)
    && (sc.pc == FREEING ==> sc.i <= |list| <= sc.work.size)
  }

  /** A number that grows with every step of the scan. */
  ghost function Progress(list: seq<Entry>, sc: Scan, n: nat, most: nat): int
    requires InBounds(list, sc, n, most)
  {
    if sc.pc <= COUNTERS then |sc.counters|
    else if sc.pc == NEXT_ENTRY then n + Times(sc.work.iters, PerTurn(most)) + sc.th
    else if sc.pc == FREEING then
      n + Times(sc.work.iters, PerTurn(most)) + n + 1 + sc.work.size - (|list| - sc.i)
    else n + Times(sc.work.iters - 1, PerTurn(most)) + sc.th + Reached(sc)
  }

  lemma ThreadStepAdvances(w: Worker, u: Worker, n: nat, most: nat)
    requires AtThread(w, u) && w.scan.th < n && InBounds(w.list, w.scan, n, most)
    requires |u.words| <= most && u.nHp <= MAX_HP_RECORDS
    ensures var v := ScanThread(w, u);
      InBounds(v.list, v.scan, n, most) && Progress(v.list, v.scan, n, most) > Progress(w.list, w.scan, n, most)
  {
    assert Times(w.scan.work.iters, PerTurn(most)) == Times(w.scan.work.iters - 1, PerTurn(most)) + PerTurn(most);
  }

  lemma HeadStepAdvances(workers: seq<Worker>, t: int, most: nat)
    requires 0 <= t < |workers| && ScanSafe(workers, t) && ScanShape(workers[t], |workers|)
    requires workers[t].scan.pc == NEXT_ENTRY && InBounds(workers[t].list, workers[t].scan, |workers|, most)
    ensures var w, v, n := workers[t], DoScan(workers, t), |workers|;
      InBounds(v.list, v.scan, n, most) && Progress(v.list, v.scan, n, most) > Progress(w.list, w.scan, n, most)
  {
    var k := workers[t].scan.work;
    assert Times(k.iters + 1, PerTurn(most)) == Times(k.iters, PerTurn(most)) + PerTurn(most);
  }

  lemma OtherStepAdvances(workers: seq<Worker>, t: int, most: nat)
    requires 0 <= t < |workers| && ScanSafe(workers, t) && ScanShape(workers[t], |workers|)
    requires workers[t].scan.pc == COUNTERS || workers[t].scan.pc == FREEING
    requires InBounds(workers[t].list, workers[t].scan, |workers|, most)
    requires workers[t].scan.pc == COUNTERS ==> workers[t].scan.th == 0 && workers[t].scan.work.iters == 0
    ensures var w, v, n := workers[t], DoScan(workers, t), |workers|;
      v.scan.pc != NOT_SCANNING ==>
        InBounds(v.list, v.scan, n, most) && Progress(v.list, v.scan, n, most) > Progress(w.list, w.scan, n, most)
  {
  }

  lemma ScanAdvances(workers: seq<Worker>, t: int, most: nat)
    requires 0 <= t < |workers| && ScanSafe(workers, t) && ScanShape(workers[t], |workers|)
    requires InBounds(workers[t].list, workers[t].scan, |workers|, most) && WordsBounded(workers, most)
    requires forall h :: 0 <= h < |workers| ==> WorkerOk(workers[h])
    requires workers[t].scan.pc == COUNTERS ==> workers[t].scan.th == 0 && workers[t].scan.work.iters == 0
    ensures var w, v, n := workers[t], DoScan(workers, t), |workers|;
      v.scan.pc != NOT_SCANNING ==>
        InBounds(v.list, v.scan, n, most) && Progress(v.list, v.scan, n, most) > Progress(w.list, w.scan, n, most)
  {
    var w := workers[t];
    if w.scan.pc == NEXT_ENTRY {
      HeadStepAdvances(workers, t, most);
    } else if STACK_COUNTER <= w.scan.pc <= RECHECK {
      ThreadStepAdvances(w, workers[w.scan.th], |workers|, most);
    } else {
      OtherStepAdvances(workers, t, most);
    }
  }

  // ----- whole scans -----

  /** Thread t's scan is under way in every state from a to b, and begins at a. */
  ghost predicate ScansFrom(run: seq<State>, a: nat, b: nat, t: int) {
    && a <= b < |run|
    && (forall k :: a <= k <= b ==> 0 <= t < |run[k].workers| && run[k].workers[t].scan.pc != NOT_SCANNING)
    && run[a].workers[t].scan.pc == COUNTERS && run[a].workers[t].scan.counters == []
  }

  /** Step k moves thread t's scan on. */
  predicate MovesOn(run: seq<State>, k: nat, t: int)
    requires 0 < k < |run| && 0 <= t < |run[k].workers| && t < |run[k - 1].workers|
  {
    run[k].workers[t].scan != run[k - 1].workers[t].scan || run[k].workers[t].list != run[k - 1].workers[t].list
  }

  /** How many steps of the scan there are from state a to state b. */
  ghost function StepsOf(run: seq<State>, a: nat, b: nat, t: int): nat
    requires ScansFrom(run, a, b, t)
    decreases b
  {
    if a == b then 0 else StepsOf(run, a, b - 1, t) + if MovesOn(run, b, t) then 1 else 0
  }

  ghost predicate AllBounded(run: seq<State>, a: nat, b: nat, most: nat) {
    forall k :: a <= k <= b && k < |run| ==> WordsBounded(run[k].workers, most)
  }

  /** What the work invariant says of a scan that is still reading counters or has just begun. */
  lemma ReadingCounters(run: seq<State>, k: nat, t: int)
    requires Run(run) && k < |run| && 0 <= t < |run[k].workers| && run[k].workers[t].scan.pc == COUNTERS
    ensures var w := run[k].workers[t];
      && w.scan.th == 0 && w.scan.work.iters == 0 && |w.list| == w.scan.work.size
      && |w.scan.counters| <= |run[k].workers|
  {
    WorkHolds(run, k);
    InvHolds(run, k);
    assert WorkOk(run[k].workers[t], run[k].workers) && ScanShape(run[k].workers[t], |run[k].workers|);
  }

  /** One step of the run: the scan moves on and its progress grows, or it stays as it is. */
  lemma NextProgress(run: seq<State>, k: nat, t: int, most: nat)
    requires Run(run) && 0 < k < |run| && 0 <= t < |run[k - 1].workers|
    requires run[k - 1].workers[t].scan.pc != NOT_SCANNING && WordsBounded(run[k - 1].workers, most)
    requires InBounds(run[k - 1].workers[t].list, run[k - 1].workers[t].scan, |run[k - 1].workers|, most)
    ensures |run[k].workers| == |run[k - 1].workers|
    ensures var w, v, n := run[k - 1].workers[t], run[k].workers[t], |run[k].workers|;
      v.scan.pc != NOT_SCANNING ==>
        && InBounds(v.list, v.scan, n, most)
        && if MovesOn(run, k, t) then Progress(v.list, v.scan, n, most) > Progress(w.list, w.scan, n, most)
           else v.list == w.list && v.scan == w.scan
  {
    var u, a := InvStep(run, k);
    var s := run[k - 1];
    assert WorkerOk(s.workers[t]);
    if u == t && a == ScanStep {
      assert ScanShape(s.workers[t], |s.workers|);
      if s.workers[t].scan.pc == COUNTERS {
        ReadingCounters(run, k - 1, t);
      }
      ScanAdvances(s.workers, t, most);
    }
  }

  lemma {:induction false} StepsWithinProgress(run: seq<State>, a: nat, b: nat, t: int, most: nat)
    requires Run(run) && ScansFrom(run, a, b, t) && AllBounded(run, a, b, most)
    ensures |run[b].workers| == |run[a].workers|
    ensures InBounds(run[b].workers[t].list, run[b].workers[t].scan, |run[b].workers|, most)
    ensures StepsOf(run, a, b, t) <= Progress(run[b].workers[t].list, run[b].workers[t].scan, |run[b].workers|, most)
    decreases b
  {
    if a == b {
      ReadingCounters(run, a, t);
    } else {
      StepsWithinProgress(run, a, b - 1, t, most);
      NextProgress(run, b, t, most);
    }
  }

  /** Termination: from its beginning to any later state of it, a scan takes at most so many steps, where `commits` counts
      the commits that the threads have made meanwhile.  So it ends once they stop committing. */
  lemma ScanStepsBound(run: seq<State>, a: nat, b: nat, t: int, most: nat)
    requires Run(run) && ScansFrom(run, a, b, t) && AllBounded(run, a, b, most)
    ensures var work, n := run[b].workers[t].scan.work, |run[b].workers|;
      && |work.base| == n
      && var commits := Sum(Commits(work, run[b].workers));
         0 <= n * work.size + commits
         && StepsOf(run, a, b, t) <= 2 * n + 1 + work.size + (n * work.size + commits) * PerTurn(most)
  {
    StepsWithinProgress(run, a, b, t, most);
    TurnsSoFar(run, b, t);
    var w, n := run[b].workers[t], |run[b].workers|;
    ProgressBound(w.list, w.scan, n, most, n * w.scan.work.size + Sum(Commits(w.scan.work, run[b].workers)));
  }

  lemma ProgressBound(list: seq<Entry>, sc: Scan, n: nat, most: nat, turns: nat)
    requires InBounds(list, sc, n, most) && NOT_SCANNING < sc.pc && sc.work.iters <= turns
    ensures Progress(list, sc, n, most) <= 2 * n + 1 + sc.work.size + turns * PerTurn(most)
  {
    TimesIsMonotone(sc.work.iters, turns, PerTurn(most));
    TimesIsProduct(turns, PerTurn(most));
    if STACK_COUNTER <= sc.pc <= RECHECK {
      assert Times(sc.work.iters, PerTurn(most)) == Times(sc.work.iters - 1, PerTurn(most)) + PerTurn(most);
    }
  }

  /** The bound on the turns, also while the counters are being read. */
  lemma TurnsSoFar(run: seq<State>, k: nat, t: int)
    requires Run(run) && k < |run| && 0 <= t < |run[k].workers| && run[k].workers[t].scan.pc != NOT_SCANNING
    ensures var work, n := run[k].workers[t].scan.work, |run[k].workers|;
      && NOT_SCANNING < run[k].workers[t].scan.pc
      && |work.base| == n && work.iters <= n * work.size + Sum(Commits(work, run[k].workers))
  {
    InvHolds(run, k);
    assert ScanShape(run[k].workers[t], |run[k].workers|);
    if run[k].workers[t].scan.pc == COUNTERS {
      ReadingCounters(run, k, t);
      NoRetriesYet(run, k, t);
    } else {
      ScanWorkBound(run, k, t);
    }
  }

  lemma NoRetriesYet(run: seq<State>, k: nat, t: int)
    requires Run(run) && k < |run| && 0 <= t < |run[k].workers| && run[k].workers[t].scan.pc == COUNTERS
    ensures var work, n := run[k].workers[t].scan.work, |run[k].workers|;
      && |work.base| == n && 0 <= Sum(Commits(work, run[k].workers)) && 0 <= n * work.size
  {
    WorkHolds(run, k);
    var w, workers := run[k].workers[t], run[k].workers;
    assert WorkOk(w, workers);
    forall h | 0 <= h < |workers| ensures w.scan.work.retries[h] <= Commits(w.scan.work, workers)[h] {
      assert Covered(w.scan, workers, h);
    }
    SumIsMonotone(w.scan.work.retries, Commits(w.scan.work, workers));
  }
}
