/** What a search that finds nothing has seen, over whole runs: an instant inside the call at which no level-0-linked
    node, complete or not, had the key. */
module SkipListSearches {
  import opened SkipListMachine
  import opened SkipListInvariant
  import opened SkipListReads
  import opened SkipListPreservation
  import opened SkipListTheorems

  ghost predicate NoneLinked(heap: Heap, key: int) {
    forall r :: Linked(heap, r, 0) ==> heap[r].key != key
  }

  /** At some instant from c on, before i, no level-0-linked node has the key. */
  ghost predicate SawNoneLinked(run: seq<State>, c: int, i: int, key: int) {
    exists j :: 0 <= c <= j < i < |run| && NoneLinked(run[j].heap, key)
  }

  lemma SeenEarlier(run: seq<State>, c: int, h: int, i: int, key: int)
    requires SawNoneLinked(run, c, h, key) && h <= i < |run|
    ensures SawNoneLinked(run, c, i, key)
  {}

  /** Keys do not change. */
  lemma KeyStays(s: State, t: int, a: Action, r: Ref)
    requires Inv(s) && Enabled(s, t, a) && ValidRef(s.heap, r)
    ensures ValidRef(Apply(s, t, a).heap, r) && Apply(s, t, a).heap[r].key == s.heap[r].key
  {
    ApplyKeepsInv(s, t, a);
    assert NodeGuarantee(s.heap[r], Apply(s, t, a).heap[r], t);
  }

  lemma FoundKeepsFind(heap: Heap, th: Thread)
    requires Safe(heap, th) && C_FULLY <= th.pc <= I_FOUND_FULLY
    ensures ExecThread(heap, th).find == th.find && ExecThread(heap, th).pc !in {F_NEXT, F_CHECK}
  {
  }

  lemma InsertKeepsFind(heap: Heap, th: Thread)
    requires Safe(heap, th) && I_LOCK <= th.pc <= I_FULL
    ensures ExecThread(heap, th).find == th.find && ExecThread(heap, th).pc !in {F_NEXT, F_CHECK}
  {
  }

  lemma LocksKeepFind(heap: Heap, th: Thread)
    requires Safe(heap, th) && R_LOCK <= th.pc <= R_PRED_NEXT
    ensures ExecThread(heap, th).find == th.find && ExecThread(heap, th).pc !in {F_NEXT, F_CHECK}
  {
  }

  lemma RemoveKeepsFind(heap: Heap, th: Thread)
    requires Safe(heap, th) && R_READ <= th.pc <= UNLOCK
    ensures ExecThread(heap, th).find == th.find && ExecThread(heap, th).pc !in {F_NEXT, F_CHECK}
  {
  }

  /** Past the search the arrays and lFound stay until the search starts over. */
  lemma FindKept(heap: Heap, th: Thread)
    requires Safe(heap, th) && F_CHECK < th.pc < DONE
    ensures ExecThread(heap, th).find == th.find && ExecThread(heap, th).pc !in {F_NEXT, F_CHECK}
  {
    if th.pc <= I_FOUND_FULLY { FoundKeepsFind(heap, th); }
    else if th.pc <= I_FULL { InsertKeepsFind(heap, th); }
    else if th.pc <= R_PRED_NEXT { LocksKeepFind(heap, th); }
    else { RemoveKeepsFind(heap, th); }
  }

  /** A search that ends with lFound == -1 has just passed the key at level 0. */
  lemma CheckEnds(heap: Heap, th: Thread)
    requires Safe(heap, th) && th.pc == F_CHECK
    ensures var th' := DoFCheck(heap, th);
      th'.pc != F_CHECK && th'.find.key == th.find.key && th'.find.start == th.find.start
      && (th'.pc > F_CHECK && th'.find.lFound == -1 ==> th.level == 0 && th.find.key < heap[th.curr].key)
  {
    FCheckGoes(heap, th);
    FCheckLeaves(heap, th);
  }

  /** The step that reads the level-0 link. */
  lemma LinkRead(run: seq<State>, k: nat, t: int)
    requires Run(run) && k + 1 < |run| && 0 <= t < |run[k].threads| && run[k].threads[t].pc == F_NEXT
    requires var th := run[k].threads[t];
      th.level == 0 && ValidRef(run[k].heap, th.pred) && ValidRef(run[k].heap, run[k].heap[th.pred].next[0])
      && th.find.key < run[k].heap[run[k].heap[th.pred].next[0]].key
    ensures SawNoneLinked(run, run[k].threads[t].find.start, k + 1, run[k].threads[t].find.key)
  {
    InvHolds(run, k);
    LogIsHistory(run, k);
    var th := run[k].threads[t];
    assert ThreadInv(run[k].heap, th, t, run[k].log);
    SearchReadsAbsent(run[k].heap, th.pred, th.find.key);
    assert NoneLinked(run[k].heap, th.find.key);
  }

  /** A thread that compares the key with that of its level-0 node, which is greater, has read the link to that node at
      an instant of this call, and at that instant no level-0-linked node had the key. */
  lemma {:induction false} ReadNoneLinked(run: seq<State>, i: nat, t: int)
    requires Run(run) && i < |run| && 0 <= t < |run[i].threads|
    requires var th := run[i].threads[t];
      th.pc == F_CHECK && th.level == 0 && ValidRef(run[i].heap, th.curr) && th.find.key < run[i].heap[th.curr].key
    ensures SawNoneLinked(run, run[i].threads[t].find.start, i, run[i].threads[t].find.key)
  {
    NotInitial(run, i, t);
    var u, a := InvStep(run, i);
    var c, key := run[i].threads[t].find.start, run[i].threads[t].find.key;
    if u == t {
      ReadByStep(run, i, t, a);
    } else {
      assert SawNoneLinked(run, c, i - 1, key) by {
        CurrThere(run, i - 1, t);
        KeyStays(run[i - 1], u, a, run[i].threads[t].curr);
        ReadNoneLinked(run, i - 1, t);
      }
      SeenEarlier(run, c, i - 1, i, key);
    }
  }

  lemma ReadByStep(run: seq<State>, i: nat, t: int, a: Action)
    requires Run(run) && 0 < i < |run| && Inv(run[i - 1]) && Enabled(run[i - 1], t, a) && run[i] == Apply(run[i - 1], t, a)
    requires var th := run[i].threads[t];
      th.pc == F_CHECK && th.level == 0 && ValidRef(run[i].heap, th.curr) && th.find.key < run[i].heap[th.curr].key
    ensures SawNoneLinked(run, run[i].threads[t].find.start, i, run[i].threads[t].find.key)
  {
    ArrivesByRead(run[i - 1], t, a);
    KeyStays(run[i - 1], t, a, run[i].threads[t].curr);
    LinkRead(run, i - 1, t);
  }

  lemma CurrThere(run: seq<State>, k: nat, t: int)
    requires Run(run) && k < |run| && 0 <= t < |run[k].threads| && run[k].threads[t].pc == F_CHECK
    ensures ValidRef(run[k].heap, run[k].threads[t].curr)
  {
    InvHolds(run, k);
    StateIsSafe(run[k], t);
  }

  /** The comparison follows the read of the link. */
  lemma ArrivesByRead(s: State, t: int, a: Action)
    requires Inv(s) && Enabled(s, t, a) && Apply(s, t, a).threads[t].pc == F_CHECK
    ensures var th, th' := s.threads[t], Apply(s, t, a).threads[t];
      && th.pc == F_NEXT && ValidLevel(th.level) && ValidRef(s.heap, th.pred) && th'.curr == s.heap[th.pred].next[th.level]
      && th'.level == th.level && th'.find == th.find && ValidRef(s.heap, th'.curr)
  {
    var th := s.threads[t];
    assert a.Go?;
    if th.pc == F_CHECK {
      CheckEnds(s.heap, th);
    } else if F_CHECK < th.pc < DONE {
      FindKept(s.heap, th);
    }
    assert ThreadInv(s.heap, th, t, s.log);
    if th.pc == F_NEXT {
      ReadsNode(s.heap, th.pred, th.level);
    }
  }

  /** The search has ended and found nothing. */
  ghost predicate FoundNothing(th: Thread) {
    F_CHECK < th.pc && th.find.lFound == -1
  }

  /** Search returning -1: at the instant of the call at which the search last read a level-0 link, no level-0-linked node
      had the key, whatever has happened to the predecessor it read from. */
  lemma {:induction false} NothingFound(run: seq<State>, i: nat, t: int)
    requires Run(run) && i < |run| && 0 <= t < |run[i].threads| && FoundNothing(run[i].threads[t])
    ensures SawNoneLinked(run, run[i].threads[t].find.start, i, run[i].threads[t].find.key)
  {
    NotInitial(run, i, t);
    var u, a := InvStep(run, i);
    var c, key := run[i].threads[t].find.start, run[i].threads[t].find.key;
    assert SawNoneLinked(run, c, i - 1, key) by {
      if u == t { EndsSearch(run[i - 1], t, a); }
      if run[i - 1].threads[t].pc == F_CHECK {
        ReadNoneLinked(run, i - 1, t);
      } else {
        NothingFound(run, i - 1, t);
      }
    }
    SeenEarlier(run, c, i - 1, i, key);
  }

  lemma EndsSearch(s: State, t: int, a: Action)
    requires Inv(s) && Enabled(s, t, a) && FoundNothing(Apply(s, t, a).threads[t])
    ensures var th, th' := s.threads[t], Apply(s, t, a).threads[t];
      && th'.find.key == th.find.key && th'.find.start == th.find.start
      && if th.pc == F_CHECK then th.level == 0 && ValidRef(s.heap, th.curr) && th.find.key < s.heap[th.curr].key
         else FoundNothing(th)
  {
    var th := s.threads[t];
    assert ThreadInv(s.heap, th, t, s.log);
    assert a.Go?;
    if th.pc == F_CHECK {
      CheckEnds(s.heap, th);
    } else if F_CHECK < th.pc < DONE {
      FindKept(s.heap, th);
    }
  }
}
