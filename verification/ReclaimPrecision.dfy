/** The other half of reclamation: a scan keeps an entry only because some thread has shown it.  An entry is marked found
    only if a record in use or a published word held its pointer at an instant of the scan, so a retired node that no
    thread shows during a scan is freed by it. */
module ReclaimPrecision {
  import opened ReclaimMachine
  import opened ReclaimSafety
  import opened ReclaimTheorems
  import opened ReclaimProgress

  /** A record in use, on the slow path, or a published word holds the pointer. */
  ghost predicate Shows(u: Worker, p: Ptr) {
    p in u.words || (u.slow && exists j :: 0 <= j < u.nHp && j < |u.hp| && u.hp[j] == p)
  }

  /** Thread h has shown the pointer in one of the states a to k. */
  ghost predicate ShownBy(run: seq<State>, a: int, k: int, h: int, p: Ptr) {
    exists i :: 0 <= a <= i <= k < |run| && 0 <= h < |run[i].workers| && Shows(run[i].workers[h], p)
  }

  /** Some thread has. */
  ghost predicate Shown(run: seq<State>, a: int, k: int, p: Ptr) {
    exists h :: ShownBy(run, a, k, h, p)
  }

  lemma ShownEarlier(run: seq<State>, a: int, i: int, k: int, h: int, p: Ptr)
    requires ShownBy(run, a, i, h, p) && i <= k < |run|
    ensures ShownBy(run, a, k, h, p)
  {
  }

  // ----- records in use belong to slow operations -----

  /** A thread counts as slow from ST_init until a transaction starts, and not between operations; records in use belong to
      slow threads, and none is left over from one operation to the next. */
  ghost predicate RecordsOk(w: Worker) {
    && (!w.slow ==> w.nHp == 0)
    && (STARTING <= w.stage <= READY ==> w.slow) && (w.stage == OUTSIDE ==> !w.slow)
    && (w.stage == READY || w.stage == COUNTING || w.stage == LEAVING ==> w.nHp == 0)
  }

  lemma RecordsKept(s: State, t: int, a: Action)
    requires Enabled(s, t, a) && RecordsOk(s.workers[t]) && WorkerOk(s.workers[t])
    ensures RecordsOk(Moved(s, t, a))
  {
  }

  /** So it is in every state of every run. */
  lemma {:induction false} OnlySlowUsesRecords(run: seq<State>, k: nat, t: int)
    requires Run(run) && k < |run| && 0 <= t < |run[k].workers|
    ensures RecordsOk(run[k].workers[t])
  {
    if k > 0 {
      var u, a := InvStep(run, k);
      OnlySlowUsesRecords(run, k - 1, t);
      if u == t {
        RecordsKept(run[k - 1], t, a);
      }
    }
  }

  /** A record in use shows what it holds. */
  lemma RecordShows(run: seq<State>, k: nat, h: int, j: nat)
    requires Run(run) && k < |run| && 0 <= h < |run[k].workers|
    requires j < run[k].workers[h].nHp && j < |run[k].workers[h].hp|
    ensures ShownBy(run, k, k, h, run[k].workers[h].hp[j])
  {
    OnlySlowUsesRecords(run, k, h);
    assert Shows(run[k].workers[h], run[k].workers[h].hp[j]);
  }

  // ----- what a found entry means -----

  /** Every entry marked found has been shown since the scan began. */
  ghost predicate FoundShown(run: seq<State>, a: int, k: int, list: seq<Entry>) {
    forall e :: 0 <= e < |list| && list[e].found ==> Shown(run, a, k, list[e].ptr)
  }

  /** While the scanner reads thread h's records, each of those it has yet to read has been shown. */
  ghost predicate RecordsShown(run: seq<State>, a: int, k: int, h: int, hp: seq<Ptr>, last: int) {
    forall j :: 0 <= j <= last && j < |hp| ==> ShownBy(run, a, k, h, hp[j])
  }

  ghost predicate Precise(run: seq<State>, a: int, k: int, t: int)
    requires 0 <= k < |run| && 0 <= t < |run[k].workers|
  {
    var w, n := run[k].workers[t], |run[k].workers|;
    && (NEXT_ENTRY <= w.scan.pc ==> FoundShown(run, a, k, w.list))
    && (w.scan.pc == RECORD && w.scan.th < n ==>
          RecordsShown(run, a, k, w.scan.th, run[k].workers[w.scan.th].hp, w.scan.j))
  }

  lemma FoundStays(run: seq<State>, a: int, i: int, k: int, list: seq<Entry>)
    requires FoundShown(run, a, i, list) && i <= k < |run|
    ensures FoundShown(run, a, k, list)
  {
    forall e | 0 <= e < |list| && list[e].found ensures Shown(run, a, k, list[e].ptr) {
      var h :| ShownBy(run, a, i, h, list[e].ptr);
      ShownEarlier(run, a, i, k, h, list[e].ptr);
    }
  }

  /** The scanned thread takes a step: a record that changes is in use. */
  lemma RecordsStay(run: seq<State>, a: nat, k: nat, h: int, last: int)
    requires Run(run) && a < k < |run| && 0 <= h < |run[k - 1].workers|
    requires RecordsShown(run, a, k - 1, h, run[k - 1].workers[h].hp, last)
    ensures |run[k].workers| == |run[k - 1].workers|
    ensures RecordsShown(run, a, k, h, run[k].workers[h].hp, last)
  {
    var u, act := InvStep(run, k);
    var before, after := run[k - 1].workers[h].hp, run[k].workers[h].hp;
    forall j | 0 <= j <= last && j < |after| ensures ShownBy(run, a, k, h, after[j]) {
      if j < |before| && before[j] == after[j] {
        assert ShownBy(run, a, k - 1, h, before[j]);
        ShownEarlier(run, a, k - 1, k, h, before[j]);
      } else {
        assert u == h && act.HpPublish? && WorkerOk(run[k - 1].workers[h]);
        RecordShows(run, k, h, j);
      }
    }
  }

  // ----- the scanner's own step -----

  /** The reason for which scanning thread u marks the entry: the record or the word it has just read. */
  ghost predicate Hits(w: Worker, u: Worker)
    requires w.scan.i < |w.list|
  {
    var p := w.list[w.scan.i].ptr;
    || (w.scan.pc == RECORD && 0 <= w.scan.j < |u.hp| && u.hp[w.scan.j] == p)
    || (w.scan.pc == WORD && p in u.words)
  }

  lemma ThreadFinds(w: Worker, u: Worker)
    requires AtThread(w, u)
    ensures var v := ScanThread(w, u);
      && |v.list| == |w.list|
      && forall e :: 0 <= e < |w.list| ==>
           v.list[e].ptr == w.list[e].ptr
           && (v.list[e].found ==> w.list[e].found || (e == w.scan.i && Hits(w, u)))
  {
  }

  lemma HitIsShown(run: seq<State>, a: nat, k: nat, t: int)
    requires Run(run) && a <= k < |run| && 0 <= t < |run[k].workers| && ScanSafe(run[k].workers, t) && Precise(run, a, k, t)
    requires var w := run[k].workers[t];
      STACK_COUNTER <= w.scan.pc <= RECHECK && Hits(w, run[k].workers[w.scan.th])
    ensures var w := run[k].workers[t]; ShownBy(run, a, k, w.scan.th, w.list[w.scan.i].ptr)
  {
    var w := run[k].workers[t];
    if w.scan.pc == WORD {
      assert Shows(run[k].workers[w.scan.th], w.list[w.scan.i].ptr);
    }
  }

  ghost predicate FromBefore(before: seq<Entry>, after: seq<Entry>) {
    forall e :: 0 <= e < |after| && after[e].found ==> after[e] in before
  }

  lemma NotAtThreadFinds(workers: seq<Worker>, t: int)
    requires 0 <= t < |workers| && ScanSafe(workers, t) && !(STACK_COUNTER <= workers[t].scan.pc <= RECHECK)
    ensures var v := DoScan(workers, t);
      v.scan.pc != RECORD && (NEXT_ENTRY <= v.scan.pc ==> FromBefore(workers[t].list, v.list))
    ensures workers[t].scan.pc == COUNTERS ==>
      var v := DoScan(workers, t); NEXT_ENTRY <= v.scan.pc ==> forall e :: 0 <= e < |v.list| ==> !v.list[e].found
  {
  }

  lemma FoundBefore(run: seq<State>, a: int, k: int, before: seq<Entry>, after: seq<Entry>)
    requires FoundShown(run, a, k, before) && FromBefore(before, after)
    ensures FoundShown(run, a, k, after)
  {
    forall e | 0 <= e < |after| && after[e].found ensures Shown(run, a, k, after[e].ptr) {
      var d :| 0 <= d < |before| && before[d] == after[e];
      assert Shown(run, a, k, before[d].ptr);
    }
  }

  /** Entries, while the scanner is at a thread. */
  lemma ThreadStepPrecise(run: seq<State>, a: nat, k: nat, t: int)
    requires Run(run) && a < k < |run| && 0 <= t < |run[k - 1].workers| && Enabled(run[k - 1], t, ScanStep)
    requires run[k] == Apply(run[k - 1], t, ScanStep) && STACK_COUNTER <= run[k - 1].workers[t].scan.pc <= RECHECK
    requires Precise(run, a, k - 1, t)
    ensures FoundShown(run, a, k, run[k].workers[t].list)
  {
    var w, v := run[k - 1].workers[t], run[k].workers[t];
    var u := run[k - 1].workers[w.scan.th];
    ThreadFinds(w, u);
    forall e | 0 <= e < |v.list| && v.list[e].found ensures Shown(run, a, k, v.list[e].ptr) {
      if w.list[e].found {
        assert Shown(run, a, k - 1, w.list[e].ptr);
        var h :| ShownBy(run, a, k - 1, h, w.list[e].ptr);
        ShownEarlier(run, a, k - 1, k, h, w.list[e].ptr);
      } else {
        HitIsShown(run, a, k - 1, t);
        ShownEarlier(run, a, k - 1, k, w.scan.th, w.list[e].ptr);
      }
    }
  }

  /** Records, when the scanner begins to read them and while it does. */
  lemma RecordsPrecise(run: seq<State>, a: nat, k: nat, t: int)
    requires Run(run) && a < k < |run| && 0 <= t < |run[k - 1].workers| && Enabled(run[k - 1], t, ScanStep)
    requires run[k] == Apply(run[k - 1], t, ScanStep) && STACK_COUNTER <= run[k - 1].workers[t].scan.pc <= RECHECK
    requires Precise(run, a, k - 1, t) && run[k].workers[t].scan.pc == RECORD
    ensures var v := run[k].workers[t];
      v.scan.th < |run[k].workers| && RecordsShown(run, a, k, v.scan.th, run[k].workers[v.scan.th].hp, v.scan.j)
  {
    var w, v := run[k - 1].workers[t], run[k].workers[t];
    var h := w.scan.th;
    var hp := run[k - 1].workers[h].hp;
    assert v.scan.th == h && run[k].workers[h].hp == hp;
    forall j | 0 <= j <= v.scan.j && j < |hp| ensures ShownBy(run, a, k, h, hp[j]) {
      if w.scan.pc == N_RECORDS {
        RecordShows(run, k - 1, h, j);
      }
      ShownEarlier(run, a, k - 1, k, h, hp[j]);
    }
  }

  lemma OwnStepPrecise(run: seq<State>, a: nat, k: nat, t: int)
    requires Run(run) && a < k < |run| && 0 <= t < |run[k - 1].workers| && Enabled(run[k - 1], t, ScanStep)
    requires run[k] == Apply(run[k - 1], t, ScanStep) && Precise(run, a, k - 1, t)
    ensures Precise(run, a, k, t)
  {
    var w, v := run[k - 1].workers[t], run[k].workers[t];
    if STACK_COUNTER <= w.scan.pc <= RECHECK {
      ThreadStepPrecise(run, a, k, t);
      if v.scan.pc == RECORD {
        RecordsPrecise(run, a, k, t);
      }
    } else {
      NotAtThreadFinds(run[k - 1].workers, t);
      if w.scan.pc != COUNTERS && NEXT_ENTRY <= v.scan.pc {
        FoundStays(run, a, k - 1, k, w.list);
        FoundBefore(run, a, k, w.list, v.list);
      }
    }
  }

  lemma OtherStepPrecise(run: seq<State>, a: nat, k: nat, t: int)
    requires Run(run) && a < k < |run| && 0 <= t < |run[k - 1].workers| && Precise(run, a, k - 1, t)
    requires |run[k].workers| == |run[k - 1].workers|
    requires run[k].workers[t].scan == run[k - 1].workers[t].scan && run[k].workers[t].list == run[k - 1].workers[t].list
    ensures Precise(run, a, k, t)
  {
    var w := run[k - 1].workers[t];
    if NEXT_ENTRY <= w.scan.pc {
      FoundStays(run, a, k - 1, k, w.list);
    }
    if w.scan.pc == RECORD && w.scan.th < |run[k].workers| {
      RecordsStay(run, a, k, w.scan.th, w.scan.j);
    }
  }

  /** An entry is marked found only if some thread has shown its pointer since the scan began. */
  lemma {:induction false} FoundWasShown(run: seq<State>, a: nat, k: nat, t: int)
    requires Run(run) && ScansFrom(run, a, k, t)
    ensures Precise(run, a, k, t)
    decreases k
  {
    if a < k {
      FoundWasShown(run, a, k - 1, t);
      var u, act := InvStep(run, k);
      if u == t {
        assert WorkerOk(run[k - 1].workers[t]);
        assert act == ScanStep;
        OwnStepPrecise(run, a, k, t);
      } else {
        OtherStepPrecise(run, a, k, t);
      }
    }
  }

  /** The step that marks an entry found: the scanner is at that entry, and the thread it is looking at has shown the
      pointer since the scan began. */
  lemma MarkingStep(run: seq<State>, a: nat, k: nat, t: int, e: nat)
    requires Run(run) && a < k && ScansFrom(run, a, k, t) && run[k - 1].workers[t].scan.pc != FREEING
    requires e < |run[k - 1].workers[t].list| && !run[k - 1].workers[t].list[e].found
    requires e < |run[k].workers[t].list| && run[k].workers[t].list[e].found
    ensures var w := run[k - 1].workers[t];
      e == w.scan.i && 0 <= w.scan.th < |run[k - 1].workers| && ShownBy(run, a, k - 1, w.scan.th, w.list[e].ptr)
  {
    FoundWasShown(run, a, k - 1, t);
    var u, act := InvStep(run, k);
    assert WorkerOk(run[k - 1].workers[t]);
    assert u == t && act == ScanStep;
    MarkedByHit(run, a, k, t, e);
  }

  lemma MarkedByHit(run: seq<State>, a: nat, k: nat, t: int, e: nat)
    requires Run(run) && a < k < |run| && 0 <= t < |run[k - 1].workers| && Precise(run, a, k - 1, t)
    requires ScanSafe(run[k - 1].workers, t) && run[k - 1].workers[t].scan.pc != FREEING
    requires var w, v := run[k - 1].workers[t], DoScan(run[k - 1].workers, t);
      e < |w.list| && !w.list[e].found && e < |v.list| && v.list[e].found
    ensures var w := run[k - 1].workers[t];
      e == w.scan.i && 0 <= w.scan.th < |run[k - 1].workers| && ShownBy(run, a, k - 1, w.scan.th, w.list[e].ptr)
  {
    var w := run[k - 1].workers[t];
    if STACK_COUNTER <= w.scan.pc <= RECHECK {
      ThreadFinds(w, run[k - 1].workers[w.scan.th]);
      HitIsShown(run, a, k - 1, t);
    }
  }

  // ----- the end of a scan -----

  /** The compaction loop has passed only entries that were found, and threads are searched only for those that were not. */
  ghost predicate PassedFound(w: Worker) {
    && (w.scan.pc == FREEING ==> w.scan.i <= |w.list| && forall e :: 0 <= e < w.scan.i ==> w.list[e].found)
    && (STACK_COUNTER <= w.scan.pc <= RECHECK ==> w.scan.i < |w.list| && !w.list[w.scan.i].found)
  }

  lemma StepPassesFound(workers: seq<Worker>, t: int)
    requires 0 <= t < |workers| && ScanSafe(workers, t) && PassedFound(workers[t])
    ensures PassedFound(DoScan(workers, t))
  {
  }

  lemma {:induction false} PassesFoundOnly(run: seq<State>, k: nat, t: int)
    requires Run(run) && k < |run| && 0 <= t < |run[k].workers|
    ensures PassedFound(run[k].workers[t])
  {
    if k > 0 {
      var u, a := InvStep(run, k);
      PassesFoundOnly(run, k - 1, t);
      if u == t {
        PassesNext(run[k - 1], t, a);
      }
    }
  }

  lemma PassesNext(s: State, t: int, a: Action)
    requires Inv(s) && Enabled(s, t, a) && PassedFound(s.workers[t])
    ensures PassedFound(Moved(s, t, a))
  {
    assert WorkerOk(s.workers[t]);
    if a.ScanStep? {
      StepPassesFound(s.workers, t);
    }
  }

  /** Thread t's scan begins at state a and is over at state b. */
  ghost predicate ScanIs(run: seq<State>, a: nat, b: nat, t: int) {
    a < b < |run| && ScansFrom(run, a, b - 1, t) && t < |run[b].workers| && run[b].workers[t].scan.pc == NOT_SCANNING
  }

  lemma LastStep(run: seq<State>, a: nat, b: nat, t: int)
    requires Run(run) && ScanIs(run, a, b, t)
    ensures var w := run[b - 1].workers[t];
      w.scan.pc == FREEING && w.scan.i == |w.list| && run[b].workers[t].list == w.list
  {
    var u, act := InvStep(run, b);
    assert WorkerOk(run[b - 1].workers[t]);
    PassesFoundOnly(run, b - 1, t);
  }

  /** What a scan leaves on the list some thread has shown while the scan ran. */
  lemma KeptWasShown(run: seq<State>, a: nat, b: nat, t: int, p: Ptr)
    requires Run(run) && ScanIs(run, a, b, t) && OnList(run[b].workers[t].list, p)
    ensures Shown(run, a, b - 1, p)
  {
    LastStep(run, a, b, t);
    PassesFoundOnly(run, b - 1, t);
    FoundWasShown(run, a, b - 1, t);
    var list := run[b].workers[t].list;
    var e :| 0 <= e < |list| && list[e].ptr == p;
    assert list[e].found;
  }

  lemma ListedNext(run: seq<State>, k: nat, t: int, p: Ptr)
    requires Run(run) && 0 < k < |run| && 0 <= t < |run[k - 1].workers| && OnList(run[k - 1].workers[t].list, p)
    ensures t < |run[k].workers| && (OnList(run[k].workers[t].list, p) || FreedAt(run, k, p))
  {
    var u, a := InvStep(run, k);
    var w, v := run[k - 1].workers[t], run[k].workers[t];
    var e :| 0 <= e < |w.list| && w.list[e].ptr == p;
    assert AllIn(w.list, run[k - 1].mem);
    if u == t {
      if a.ScanStep? {
        ScanList(run[k - 1].workers, t);
        if Frees(w) {
          assert e == |w.list| - 1 && e != w.scan.i ==> v.list[w.scan.i].ptr == p;
          assert e < |w.list| - 1 && e != w.scan.i ==> v.list[e].ptr == p;
        } else {
          assert v.list[e].ptr == p;
        }
      } else {
        assert v.list[e].ptr == p;
      }
    }
  }

  /** Some step after i, up to j, frees the node. */
  ghost predicate FreedWithin(run: seq<State>, i: int, j: int, p: Ptr) {
    exists k: nat :: i < k <= j && FreedAt(run, k, p)
  }

  /** Nothing leaks: a retired node stays on its list until a scan frees it. */
  lemma {:induction false} RetiredUntilFreed(run: seq<State>, i: nat, j: nat, t: int, p: Ptr)
    requires Run(run) && i <= j < |run| && 0 <= t < |run[i].workers| && OnList(run[i].workers[t].list, p)
    ensures t < |run[j].workers|
    ensures OnList(run[j].workers[t].list, p) || FreedWithin(run, i, j, p)
    decreases j
  {
    if i < j {
      RetiredUntilFreed(run, i, j - 1, t, p);
      if OnList(run[j - 1].workers[t].list, p) {
        ListedNext(run, j, t, p);
      } else {
        assert FreedWithin(run, i, j - 1, p);
      }
      StillListed(run, j, t);
    }
  }

  lemma StillListed(run: seq<State>, k: nat, t: int)
    requires Run(run) && 0 < k < |run| && 0 <= t < |run[k - 1].workers|
    ensures t < |run[k].workers|
  {
    var u, a := StepTaken(run, k);
  }

  /** ST_free puts the node on the list of its thread. */
  lemma RetireLists(s: State, t: int, p: Ptr)
    requires Enabled(s, t, Retire(p))
    ensures OnList(Apply(s, t, Retire(p)).workers[t].list, p)
  {
    var list := Moved(s, t, Retire(p)).list;
    var e := |s.workers[t].list|;
    assert 0 <= e < |list| && list[e].ptr == p;
  }

  /** Progress of reclamation: a retired node that no thread shows while its owner scans is freed by that scan. */
  lemma UnshownIsFreed(run: seq<State>, a: nat, b: nat, t: int, p: Ptr)
    requires Run(run) && ScanIs(run, a, b, t) && OnList(run[a].workers[t].list, p) && !Shown(run, a, b - 1, p)
    ensures !OnList(run[b].workers[t].list, p)
    ensures FreedWithin(run, a, b, p)
  {
    if OnList(run[b].workers[t].list, p) {
      KeptWasShown(run, a, b, t, p);
    }
    RetiredUntilFreed(run, a, b, t, p);
  }

  // ----- the early break -----

  /** At state i the scanner tested the stack_counter of this thread for this entry and found it unchanged. */
  ghost predicate TestedAt(run: seq<State>, i: int, t: int, sc: Scan) {
    && 0 <= i < |run| && 0 <= t < |run[i].workers| && sc.th < |run[i].workers| && sc.th < |sc.counters|
    && run[i].workers[sc.th].stackCounter == sc.counters[sc.th]
    && var now := run[i].workers[t].scan;
       now.pc == STACK_COUNTER && now.th == sc.th && now.i == sc.i && now.counters == sc.counters
  }

  /** A thread is searched for an entry only if, just before, it had finished no operation since the scan read its
      counter: line 396 leaves the others alone. */
  lemma {:induction false} SearchedWasUnfinished(run: seq<State>, a: nat, k: nat, t: int)
    requires Run(run) && ScansFrom(run, a, k, t) && SPLIT_COUNTER <= run[k].workers[t].scan.pc <= RECHECK
    ensures exists i :: a <= i < k && TestedAt(run, i, t, run[k].workers[t].scan)
    decreases k
  {
    var u, act := InvStep(run, k);
    assert WorkerOk(run[k - 1].workers[t]);
    var w := run[k - 1].workers[t];
    if u == t {
      assert act == ScanStep;
      if w.scan.pc == STACK_COUNTER {
        assert TestedAt(run, k - 1, t, run[k].workers[t].scan);
      } else {
        SearchStep(run[k - 1].workers, t);
        SearchedWasUnfinished(run, a, k - 1, t);
        var i :| a <= i < k - 1 && TestedAt(run, i, t, w.scan);
        assert TestedAt(run, i, t, run[k].workers[t].scan);
      }
    } else {
      SearchedWasUnfinished(run, a, k - 1, t);
    }
  }

  lemma SearchStep(workers: seq<Worker>, t: int)
    requires 0 <= t < |workers| && ScanSafe(workers, t) && workers[t].scan.pc != STACK_COUNTER
    requires SPLIT_COUNTER <= DoScan(workers, t).scan.pc <= RECHECK
    ensures var sc, next := workers[t].scan, DoScan(workers, t).scan;
      SPLIT_COUNTER <= sc.pc <= RECHECK && next.th == sc.th && next.i == sc.i && next.counters == sc.counters
  {
  }

  // ----- what is shown throughout a scan -----

  /** In states a to k thread h finishes no operation, and the pointer stays among its published words. */
  ghost predicate ShowsThroughout(run: seq<State>, a: int, k: int, h: int, p: Ptr, words: seq<Ptr>, counter: nat) {
    && p in words
    && forall i :: 0 <= a <= i <= k && i < |run| ==>
         0 <= h < |run[i].workers| && run[i].workers[h].words == words && run[i].workers[h].stackCounter == counter
  }

  /** The scanner has looked at entry e for thread h. */
  ghost predicate Passed(sc: Scan, h: int, e: int) {
    sc.pc == FREEING || (NEXT_ENTRY <= sc.pc <= RECHECK && (h < sc.th || (h == sc.th && e < sc.i)))
  }

  /** The entries of p are found, as far as the scan has come; the thread that shows p is h. */
  ghost predicate Finds(list: seq<Entry>, sc: Scan, h: int, p: Ptr, words: seq<Ptr>, counter: nat) {
    && (0 <= h < |sc.counters| ==> sc.counters[h] == counter)
    && forall e :: 0 <= e < |list| && list[e].ptr == p ==>
         && (Passed(sc, h, e) ==> list[e].found)
         && (h == sc.th && e == sc.i ==>
               sc.pc != RECHECK
               && (sc.pc == WORD ==> sc.n == |words| && 0 <= sc.j && forall k :: 0 <= k < sc.j && k < |words| ==> words[k] != p))
  }

  lemma ThreadKeepsFinding(w: Worker, u: Worker, h: int, p: Ptr, words: seq<Ptr>, counter: nat)
    requires AtThread(w, u) && 0 <= h < |w.scan.counters| && p in words && Finds(w.list, w.scan, h, p, words, counter)
    requires h == w.scan.th ==> u.words == words && u.stackCounter == counter
    ensures Finds(ScanThread(w, u).list, ScanThread(w, u).scan, h, p, words, counter)
  {
  }

  lemma LoopsKeepFinding(workers: seq<Worker>, t: int, h: int, p: Ptr, words: seq<Ptr>)
    requires 0 <= t < |workers| && 0 <= h < |workers| && ScanSafe(workers, t) && ScanShape(workers[t], |workers|)
    requires !(STACK_COUNTER <= workers[t].scan.pc <= RECHECK)
    requires Finds(workers[t].list, workers[t].scan, h, p, words, workers[h].stackCounter)
    ensures Finds(DoScan(workers, t).list, DoScan(workers, t).scan, h, p, words, workers[h].stackCounter)
  {
  }

  lemma {:induction false} ScanFinds(run: seq<State>, a: nat, k: nat, t: int, h: int, p: Ptr, words: seq<Ptr>, counter: nat)
    requires Run(run) && ScansFrom(run, a, k, t) && ShowsThroughout(run, a, k, h, p, words, counter)
    ensures Finds(run[k].workers[t].list, run[k].workers[t].scan, h, p, words, counter)
    decreases k
  {
    if a < k {
      ScanFinds(run, a, k - 1, t, h, p, words, counter);
      var u, act := InvStep(run, k);
      assert WorkerOk(run[k - 1].workers[t]);
      if u == t {
        assert act == ScanStep;
        OwnStepFinds(run[k - 1], t, h, p, words);
      }
    }
  }

  lemma OwnStepFinds(s: State, t: int, h: int, p: Ptr, words: seq<Ptr>)
    requires Inv(s) && Enabled(s, t, ScanStep) && 0 <= h < |s.workers| && p in words && s.workers[h].words == words
    requires Finds(s.workers[t].list, s.workers[t].scan, h, p, words, s.workers[h].stackCounter)
    ensures Finds(Moved(s, t, ScanStep).list, Moved(s, t, ScanStep).scan, h, p, words, s.workers[h].stackCounter)
  {
    var w := s.workers[t];
    assert ScanShape(w, |s.workers|);
    if STACK_COUNTER <= w.scan.pc <= RECHECK {
      ThreadKeepsFinding(w, s.workers[w.scan.th], h, p, words, s.workers[h].stackCounter);
    } else {
      LoopsKeepFinding(s.workers, t, h, p, words);
    }
  }

  lemma FoundIsNotFreed(run: seq<State>, a: nat, k: nat, t: int, h: int, p: Ptr, words: seq<Ptr>,
      counter: nat)
    requires Run(run) && a < k < |run| && ScansFrom(run, a, k - 1, t) && ShowsThroughout(run, a, k - 1, h, p, words, counter)
    requires OnList(run[k - 1].workers[t].list, p)
    ensures !FreedAt(run, k, p)
  {
    if FreedAt(run, k, p) {
      var u, act := InvStep(run, k);
      var w := run[k - 1].workers[u];
      assert act == ScanStep && Frees(w) && w.list[w.scan.i].ptr == p;
      assert u == t || Apart(w.list, run[k - 1].workers[t].list);
      ScanFinds(run, a, k - 1, t, h, p, words, counter);
    }
  }

  /** The scan is conservative: a retired node whose pointer some thread, fast or slow, shows among its published words
      throughout the scan, without finishing its operation, survives the scan. */
  lemma {:induction false} ShownThroughoutIsKept(run: seq<State>, a: nat, k: nat, t: int, h: int, p: Ptr, words: seq<Ptr>,
      counter: nat)
    requires Run(run) && a <= k < |run| && (a == k || ScansFrom(run, a, k - 1, t)) && 0 <= t < |run[a].workers|
    requires ShowsThroughout(run, a, k - 1, h, p, words, counter) && OnList(run[a].workers[t].list, p)
    ensures t < |run[k].workers| && OnList(run[k].workers[t].list, p)
    decreases k
  {
    if a < k {
      ShownThroughoutIsKept(run, a, k - 1, t, h, p, words, counter);
      FoundIsNotFreed(run, a, k, t, h, p, words, counter);
      ListedNext(run, k, t, p);
    }
  }

  // ----- operations are counted -----

  /** How many operations thread t has ended by state k: steps out of stage INSIDE. */
  ghost function Ended(run: seq<State>, k: nat, t: int): nat
    requires k < |run|
  {
    if k == 0 then 0
    else Ended(run, k - 1, t) + if 0 <= t < |run[k].workers| && t < |run[k - 1].workers| && run[k - 1].workers[t].stage == INSIDE
                                   && run[k].workers[t].stage == CLEARING then 1 else 0
  }

  /** stack_counter counts every operation once, two steps after it has ended. */
  lemma {:induction false} OperationsAreCounted(run: seq<State>, k: nat, t: int)
    requires Run(run) && k < |run| && 0 <= t < |run[k].workers|
    ensures var w := run[k].workers[t];
      Ended(run, k, t) == w.stackCounter + if w.stage == CLEARING || w.stage == COUNTING then 1 else 0
  {
    if k > 0 {
      var u, a := InvStep(run, k);
      OperationsAreCounted(run, k - 1, t);
      assert WorkerOk(run[k - 1].workers[t]);
      if u == t {
        CountsNext(run[k - 1], t, a);
      }
    }
  }

  lemma StageCounts(w: Worker)
    requires STARTING <= w.stage <= LEAVING && w.stage != READY
    ensures var v := NextStage(w);
      && (v.stage == CLEARING <==> w.stage == INSIDE)
      && v.stackCounter + (if v.stage == CLEARING || v.stage == COUNTING then 1 else 0)
         == w.stackCounter + (if w.stage == CLEARING || w.stage == COUNTING then 1 else 0)
            + (if w.stage == INSIDE then 1 else 0)
  {
  }

  lemma OtherCounts(s: State, t: int, a: Action)
    requires Enabled(s, t, a) && !a.Stage?
    ensures var w, v := s.workers[t], Moved(s, t, a);
      && v.stackCounter == w.stackCounter
      && (v.stage == w.stage || v.stage == STARTING || v.stage == INSIDE) && (w.stage == INSIDE ==> v.stage == INSIDE)
      && (w.stage == CLEARING || w.stage == COUNTING ==> v.stage == w.stage)
  {
  }

  lemma CountsNext(s: State, t: int, a: Action)
    requires Inv(s) && Enabled(s, t, a)
    ensures var w, v := s.workers[t], Moved(s, t, a);
      && (v.stage == CLEARING && w.stage != CLEARING ==> w.stage == INSIDE)
      && v.stackCounter + (if v.stage == CLEARING || v.stage == COUNTING then 1 else 0)
         == w.stackCounter + (if w.stage == CLEARING || w.stage == COUNTING then 1 else 0)
            + (if w.stage == INSIDE && v.stage == CLEARING then 1 else 0)
  {
    if a.Stage? {
      StageCounts(s.workers[t]);
    } else {
      OtherCounts(s, t, a);
    }
  }
}
