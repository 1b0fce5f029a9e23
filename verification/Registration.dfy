/** Thread registration (ST_thread_init, lines 47-74 of stack-track.c): an identifier from g_uniq_id, the entry of
    g_st_threads, then g_n_threads, with the two atomic_add loops taken a shared access at a time. */
module Registration {
  import opened AtomicAdd

  const MAX_THREADS: nat := 100
  const NOBODY: int := -1

  type Stage = int
  const NEW: Stage := 0
  const ID_READ: Stage := 1    // line 53: v = g_uniq_id
  const ID_SWAP: Stage := 2    // line 53: CAS
  const STORE: Stage := 3      // line 71
  const N_READ: Stage := 4     // line 72: v = g_n_threads
  const N_SWAP: Stage := 5     // line 72: CAS
  const REGISTERED: Stage := 6

  datatype Registrant = Registrant(stage: Stage, v: int, id: int)

  datatype Registry = Registry(
    uniqId: int,               // g_uniq_id
    nThreads: int,             // g_n_threads
    table: seq<int>,           // g_st_threads
    threads: seq<Registrant>,
    named: seq<int>,           // history: the threads that have an identifier, in order
    counted: seq<int>)         // history: the threads that g_n_threads counts, in order

  predicate CanMove(r: Registry, t: int) {
    && 0 <= t < |r.threads| && NEW <= r.threads[t].stage < REGISTERED
    && (r.threads[t].stage == STORE ==> 0 <= r.threads[t].id < |r.table|)
  }

  function Move(r: Registry, t: int): Registry
    requires CanMove(r, t)
  {
    var w := r.threads[t];
    if w.stage == NEW then r.(threads := r.threads[t := w.(stage := ID_READ)])
    else if w.stage == ID_READ then r.(threads := r.threads[t := w.(stage := ID_SWAP, v := r.uniqId)])
    else if w.stage == ID_SWAP then
      if r.uniqId == w.v then
        r.(uniqId := Wrap(w.v + 1), threads := r.threads[t := w.(stage := STORE, id := w.v)], named := r.named + [t])
      else r.(threads := r.threads[t := w.(stage := ID_READ)])
    else if w.stage == STORE then r.(table := r.table[w.id := t], threads := r.threads[t := w.(stage := N_READ)])
    else if w.stage == N_READ then r.(threads := r.threads[t := w.(stage := N_SWAP, v := r.nThreads)])
    else
      if r.nThreads == w.v then
        r.(nThreads := Wrap(w.v + 1), threads := r.threads[t := w.(stage := REGISTERED)], counted := r.counted + [t])
      else r.(threads := r.threads[t := w.(stage := N_READ)])
  }

  /** Any number of threads: bench.c does not bound it, though the table holds only MAX_THREADS. */
  predicate Init(r: Registry) {
    && r.uniqId == 0 && r.nThreads == 0 && r.named == [] && r.counted == []
    && |r.table| == MAX_THREADS && (forall i :: 0 <= i < MAX_THREADS ==> r.table[i] == NOBODY)
    && |r.threads| < INT64_LIMIT && (forall t :: 0 <= t < |r.threads| ==> r.threads[t].stage == NEW)
  }

  ghost predicate Step(r: Registry, r': Registry) {
    exists t :: CanMove(r, t) && r' == Move(r, t)
  }

  ghost predicate StepAt(run: seq<Registry>, i: nat)
    requires 0 < i < |run|
  {
    Step(run[i - 1], run[i])
  }

  ghost predicate Run(run: seq<Registry>) {
    && |run| > 0 && Init(run[0])
    && forall i :: 0 < i < |run| ==> StepAt(run, i)
  }

  // ----- the invariant -----

  ghost predicate Distinct(a: seq<int>) {
    forall i, j :: 0 <= i < j < |a| ==> a[i] != a[j]
  }

  ghost predicate Within(a: seq<int>, n: nat) {
    forall i :: 0 <= i < |a| ==> 0 <= a[i] < n
  }

  ghost predicate ListsOk(r: Registry) {
    && |r.table| == MAX_THREADS && |r.threads| < INT64_LIMIT
    && r.uniqId == |r.named| <= |r.threads| && Distinct(r.named) && Within(r.named, |r.threads|)
    && r.nThreads == |r.counted| <= |r.threads| && Distinct(r.counted) && Within(r.counted, |r.threads|)
  }

  ghost predicate ThreadOk(r: Registry, t: int)
    requires 0 <= t < |r.threads|
  {
    var w := r.threads[t];
    && NEW <= w.stage <= REGISTERED
    && (STORE <= w.stage <==> t in r.named)
    && (w.stage == REGISTERED <==> t in r.counted)
    && (STORE <= w.stage ==> 0 <= w.id < |r.named| && r.named[w.id] == t)
    && (STORE < w.stage ==> w.id < |r.table| && r.table[w.id] == t)
  }

  /** An entry of the table is empty or holds the thread with that identifier. */
  ghost predicate EntryOk(r: Registry, i: int)
    requires 0 <= i < |r.table|
  {
    r.table[i] == NOBODY
    || (0 <= r.table[i] < |r.threads| && STORE < r.threads[r.table[i]].stage && r.threads[r.table[i]].id == i)
  }

  ghost predicate Inv(r: Registry) {
    && ListsOk(r)
    && (forall t :: 0 <= t < |r.threads| ==> ThreadOk(r, t))
    && (forall i :: 0 <= i < |r.table| ==> EntryOk(r, i))
  }

  function Below(n: nat): (s: set<int>)
    ensures forall x :: x in s <==> 0 <= x < n
    ensures |s| == n
  {
    if n == 0 then {} else
      assert n - 1 !in Below(n - 1);
      Below(n - 1) + {n - 1}
  }

  function Elements(a: seq<int>): (s: set<int>)
    ensures forall x :: x in s <==> x in a
  {
    set x | x in a
  }

  lemma {:induction false} DistinctCount(a: seq<int>)
    requires Distinct(a)
    ensures |Elements(a)| == |a|
  {
    if a != [] {
      var rest, last := a[..|a| - 1], a[|a| - 1];
      DistinctCount(rest);
      assert Elements(a) == Elements(rest) + {last};
      assert last !in Elements(rest);
    }
  }

  lemma SubsetCount(a: set<int>, b: set<int>)
    requires a <= b
    ensures |a| <= |b|
  {
    assert b == a + (b - a);
  }

  /** Pigeonhole: there are no more identifiers than threads. */
  lemma NamedBounded(a: seq<int>, n: nat)
    requires Distinct(a) && Within(a, n)
    ensures |a| <= n
  {
    DistinctCount(a);
    SubsetCount(Elements(a), Below(n));
  }

  lemma MoveKeepsLists(r: Registry, t: int)
    requires Inv(r) && CanMove(r, t)
    ensures ListsOk(Move(r, t))
  {
    var w := r.threads[t];
    assert ThreadOk(r, t);
    if w.stage == ID_SWAP && r.uniqId == w.v {
      NamedBounded(r.named + [t], |r.threads|);
      WrapSmall(w.v + 1);
    } else if w.stage == N_SWAP && r.nThreads == w.v {
      NamedBounded(r.counted + [t], |r.threads|);
      WrapSmall(w.v + 1);
    }
  }

  lemma MoveKeepsThread(r: Registry, t: int, u: int)
    requires Inv(r) && CanMove(r, t) && 0 <= u < |r.threads|
    ensures ThreadOk(Move(r, t), u)
  {
    assert ThreadOk(r, u) && ThreadOk(r, t);
    var named := Move(r, t).named;
    assert forall i :: 0 <= i < |r.named| ==> named[i] == r.named[i];
    assert named == r.named || (r.threads[t].stage == ID_SWAP && named == r.named + [t]);
  }

  lemma MoveKeepsEntry(r: Registry, t: int, i: int)
    requires Inv(r) && CanMove(r, t) && 0 <= i < |r.table|
    ensures EntryOk(Move(r, t), i)
  {
    assert EntryOk(r, i) && ThreadOk(r, t);
  }

  lemma MoveKeepsInv(r: Registry, t: int)
    requires Inv(r) && CanMove(r, t)
    ensures Inv(Move(r, t))
  {
    MoveKeepsLists(r, t);
    forall u | 0 <= u < |r.threads| ensures ThreadOk(Move(r, t), u) {
      MoveKeepsThread(r, t, u);
    }
    forall i | 0 <= i < |r.table| ensures EntryOk(Move(r, t), i) {
      MoveKeepsEntry(r, t, i);
    }
  }

  lemma {:induction false} InvHolds(run: seq<Registry>, k: nat)
    requires Run(run) && k < |run|
    ensures Inv(run[k])
  {
    if k > 0 {
      InvHolds(run, k - 1);
      assert StepAt(run, k);
      var t :| CanMove(run[k - 1], t) && run[k] == Move(run[k - 1], t);
      MoveKeepsInv(run[k - 1], t);
    }
  }

  /** Thread identifiers are distinct, and index the table as long as there are no more threads than entries. */
  lemma IdsAreDistinct(run: seq<Registry>, k: nat, t: int, u: int)
    requires Run(run) && k < |run| && 0 <= t < |run[k].threads| && 0 <= u < |run[k].threads| && t != u
    requires STORE <= run[k].threads[t].stage && STORE <= run[k].threads[u].stage
    ensures run[k].threads[t].id != run[k].threads[u].id
    ensures 0 <= run[k].threads[t].id < |run[k].threads|
    ensures |run[k].threads| <= MAX_THREADS || STORE < run[k].threads[t].stage ==> run[k].threads[t].id < MAX_THREADS
  {
    InvHolds(run, k);
    assert ThreadOk(run[k], t) && ThreadOk(run[k], u);
  }

  /** The store of line 71 stays inside the table exactly if fewer than MAX_THREADS threads got an identifier before
      this one. */
  lemma StoreInTable(run: seq<Registry>, k: nat, t: int)
    requires Run(run) && k < |run| && 0 <= t < |run[k].threads| && run[k].threads[t].stage == STORE
    ensures var r := run[k];
      exists n :: 0 <= n < |r.named| && r.named[n] == t && r.threads[t].id == n && (CanMove(r, t) <==> n < MAX_THREADS)
  {
    InvHolds(run, k);
    assert ThreadOk(run[k], t);
    assert run[k].named[run[k].threads[t].id] == t;
  }

  /** No registration is under way. */
  predicate Quiet(r: Registry) {
    forall t :: 0 <= t < |r.threads| ==> r.threads[t].stage == NEW || r.threads[t].stage == REGISTERED
  }

  /** When no registration is in flight, the first g_n_threads entries of the table are the registered threads, each
      once and each under its identifier, and the rest of the table is empty. */
  lemma TableIsFull(run: seq<Registry>, k: nat)
    requires Run(run) && k < |run| && Quiet(run[k])
    ensures var r := run[k];
      && r.nThreads == r.uniqId && 0 <= r.nThreads <= |r.table|
      && (forall i :: 0 <= i < r.nThreads ==> IsThere(r, i))
      && (forall i :: r.nThreads <= i < |r.table| ==> r.table[i] == NOBODY)
      && (forall t :: 0 <= t < |r.threads| && r.threads[t].stage == REGISTERED ==> t in r.table[..r.nThreads])
  {
    InvHolds(run, k);
    var r := run[k];
    QuietFits(r);
    forall t | 0 <= t < |r.threads| ensures t in r.named <==> t in r.counted {
      assert ThreadOk(r, t);
    }
    assert Elements(r.named) == Elements(r.counted);
    DistinctCount(r.named);
    DistinctCount(r.counted);
    forall i | 0 <= i < |r.table|
      ensures if i < r.nThreads then IsThere(r, i) else r.table[i] == NOBODY
    {
      EntryBelow(r, i);
      if i < r.nThreads {
        FoundUnderId(r, i);
      }
    }
    forall t | 0 <= t < |r.threads| && r.threads[t].stage == REGISTERED ensures t in r.table[..r.nThreads] {
      assert ThreadOk(r, t);
      assert r.table[..r.nThreads][r.threads[t].id] == t;
    }
  }

  ghost predicate IsThere(r: Registry, i: int)
    requires 0 <= i < |r.table|
  {
    0 <= r.table[i] < |r.threads| && r.threads[r.table[i]].stage == REGISTERED && r.threads[r.table[i]].id == i
  }

  lemma EntryBelow(r: Registry, i: int)
    requires Inv(r) && 0 <= i < |r.table|
    ensures r.table[i] != NOBODY ==> i < r.nThreads || r.nThreads < |r.named|
  {
    assert EntryOk(r, i);
    if r.table[i] != NOBODY {
      assert ThreadOk(r, r.table[i]);
    }
  }

  /** Whoever has registered has passed line 71 inside the table. */
  lemma QuietFits(r: Registry)
    requires Inv(r) && Quiet(r)
    ensures |r.named| <= |r.table|
  {
    if r.named != [] {
      var t := r.named[|r.named| - 1];
      assert ThreadOk(r, t);
      assert r.named[r.threads[t].id] == t;
    }
  }

  lemma FoundUnderId(r: Registry, i: int)
    requires Inv(r) && Quiet(r) && 0 <= i < |r.named| && i < |r.table|
    ensures IsThere(r, i)
  {
    var t := r.named[i];
    assert ThreadOk(r, t);
    assert r.named[r.threads[t].id] == r.named[i];
  }
}
