/** The list keeps the reclamation protocol's conditions: seen as pointers in memory words, every step of the
    skip-list machine is an allocation, a store of a node that is not retired, or a retirement of a node that no
    word names and no free list holds. */
module ReclaimComposition {
  import L = SkipListMachine
  import I = SkipListInvariant
  import T = SkipListTheorems
  import K = SkipListReads
  import R = ReclaimMachine

  /** The address of a node; NULL and a slot that nobody has written yet hold no address. */
  function Address(r: L.Ref): R.Ptr {
    if r < 0 then R.NULL else r + 1
  }

  function Entries(retired: seq<L.Ref>): seq<R.Entry> {
    seq(|retired|, e requires 0 <= e < |retired| => R.Entry(false, Address(retired[e])))
  }

  function Between(list: seq<R.Entry>): R.Worker {
    R.Worker(R.OUTSIDE, false, 0, 0, [], 0, R.Idle, [], list, R.NO_SCAN, {}, {})
  }

  function Workers(threads: seq<L.Thread>): seq<R.Worker> {
    seq(|threads|, t requires 0 <= t < |threads| => Between(Entries(threads[t].retired)))
  }

  ghost function SlotsOf(heap: L.Heap): map<R.Slot, R.Ptr> {
    map x: R.Slot | x in Grid(|heap|) :: Address(heap[x.node - 1].next[x.field])
  }

  ghost function Grid(n: nat): (slots: set<R.Slot>)
    ensures forall x :: x in slots <==> 0 < x.node <= n && 0 <= x.field < L.MAX_LEVEL
  {
    if n == 0 then {} else Grid(n - 1) + Row(n, L.MAX_LEVEL)
  }

  ghost function Row(n: nat, levels: nat): (slots: set<R.Slot>)
    ensures forall x :: x in slots <==> x.node == n && 0 <= x.field < levels
  {
    if levels == 0 then {} else Row(n, levels - 1) + {R.Slot(n, levels - 1)}
  }

  ghost function Nodes(n: nat): (nodes: set<R.Ptr>)
    ensures forall p :: p in nodes <==> 0 < p <= n
  {
    if n == 0 then {} else Nodes(n - 1) + {n}
  }

  /** The skip list's memory as the reclamation protocol sees it. */
  ghost function View(s: L.State): R.State {
    R.State(Workers(s.threads), SlotsOf(s.heap), Nodes(|s.heap|))
  }

  ghost predicate Stores(v: R.State, w: R.State) {
    exists x, p :: x in v.slots && R.Storable(v, p) && w == R.State(v.workers, v.slots[x := p], v.mem)
  }

  ghost predicate Allocates(v: R.State, w: R.State) {
    exists p, fields :: p != R.NULL && p !in v.mem && (forall x: R.Slot :: x in fields ==> x.node == p)
      && w == R.State(v.workers, v.slots + R.NewSlots(fields), v.mem + {p})
  }

  ghost predicate Retires(v: R.State, w: R.State, t: int) {
    exists p :: 0 <= t < |v.workers| && R.RetireOk(v, v.workers[t], p) && w == R.Apply(v, t, R.Retire(p))
  }

  lemma OnSomeList(s: L.State, r: L.Ref) returns (t: int)
    requires r >= 0 && R.Retired(View(s), Address(r))
    ensures 0 <= t < |s.threads| && r in s.threads[t].retired
  {
    var v := View(s);
    t :| 0 <= t < |v.workers| && R.OnList(v.workers[t].list, Address(r));
    var e :| 0 <= e < |v.workers[t].list| && v.workers[t].list[e].ptr == Address(r);
    assert s.threads[t].retired[e] == r;
  }

  lemma RetiredNode(s: L.State, r: L.Ref)
    requires I.Inv(s) && L.ValidRef(s.heap, r) && R.Retired(View(s), Address(r))
    ensures T.Unreferenced(s.heap, r) && s.heap[r].fullyLinked && s.heap[r].retired
  {
    var t := OnSomeList(s, r);
    T.RetiredIsUnreferenced(s, t, r);
    assert I.ThreadInv(s.heap, s.threads[t], t, s.log);
    assert r < 2 || I.NodeOk(s.heap[r]);
  }

  /** A node that some word names, or whose insertion is not complete, has not been retired. */
  lemma Keepable(s: L.State, r: L.Ref)
    requires I.Inv(s) && L.ValidRef(s.heap, r)
    requires !T.Unreferenced(s.heap, r) || !s.heap[r].fullyLinked
    ensures R.Storable(View(s), Address(r))
  {
    if R.Retired(View(s), Address(r)) {
      RetiredNode(s, r);
    }
  }

  lemma StoreSlots(heap: L.Heap, after: L.Heap, r: L.Ref, l: int, x: L.Ref)
    requires L.ValidRef(heap, r) && L.ValidLevel(l) && |after| == |heap|
    requires forall q, j :: L.ValidRef(heap, q) && L.ValidLevel(j) ==>
      after[q].next[j] == if q == r && j == l then x else heap[q].next[j]
    ensures R.Slot(r + 1, l) in SlotsOf(heap)
    ensures SlotsOf(after) == SlotsOf(heap)[R.Slot(r + 1, l) := Address(x)]
  {
    var v, w := SlotsOf(heap)[R.Slot(r + 1, l) := Address(x)], SlotsOf(after);
    forall y | y in w ensures y in v && w[y] == v[y] {
      assert L.ValidRef(heap, y.node - 1) && L.ValidLevel(y.field);
    }
    assert w.Keys == v.Keys;
  }

  lemma SameView(s: L.State, s': L.State)
    requires |s'.heap| == |s.heap| && Workers(s'.threads) == Workers(s.threads)
    requires forall q :: L.ValidRef(s.heap, q) ==> s'.heap[q].next == s.heap[q].next
    ensures View(s') == View(s)
  {
    assert SlotsOf(s'.heap) == SlotsOf(s.heap);
  }

  lemma SameRetired(heap: L.Heap, th: L.Thread)
    requires L.Safe(heap, th) && th.pc != L.DONE
    ensures L.ExecThread(heap, th).retired == th.retired
  {
    if th.pc == L.F_CHECK {
      K.FCheckGoes(heap, th);
    } else if th.pc <= L.I_FULL {
      T.RetiredSame(heap, th);
    }
  }

  /** A step of thread t that writes x to link slot l of node r. */
  ghost predicate Writes(s: L.State, t: int, r: L.Ref, l: int, x: L.Ref)
    requires L.Enabled(s, t, L.Go)
  {
    var heap := L.ExecHeap(s.heap, s.threads[t], t);
    && s.threads[t].pc != L.DONE && L.ValidRef(s.heap, r) && L.ValidLevel(l) && |heap| == |s.heap|
    && (forall q, j :: L.ValidRef(s.heap, q) && L.ValidLevel(j) ==>
          heap[q].next[j] == if q == r && j == l then x else s.heap[q].next[j])
  }

  lemma WriteStores(s: L.State, t: int, r: L.Ref, l: int, x: L.Ref)
    requires L.Enabled(s, t, L.Go) && Writes(s, t, r, l, x) && R.Storable(View(s), Address(x))
    ensures Stores(View(s), View(L.Apply(s, t, L.Go)))
  {
    var s' := L.Apply(s, t, L.Go);
    SameRetired(s.heap, s.threads[t]);
    assert Workers(s'.threads) == Workers(s.threads);
    StoreSlots(s.heap, s'.heap, r, l, x);
  }

  lemma FillWrites(s: L.State, t: int)
    requires I.Inv(s) && L.Enabled(s, t, L.Go) && s.threads[t].pc == L.I_FILL
    ensures var th := s.threads[t];
      && Writes(s, t, th.newNode, th.level, th.find.succs[th.level])
      && L.ValidRef(s.heap, th.find.succs[th.level]) && !T.Unreferenced(s.heap, th.find.succs[th.level])
  {
    var th := s.threads[t];
    assert I.ThreadInv(s.heap, th, t, s.log);
    assert I.Brackets(s.heap, th.find, th.level);
    assert s.heap[th.find.preds[th.level]].next[th.level] == th.find.succs[th.level];
  }

  lemma LinkWrites(s: L.State, t: int)
    requires I.Inv(s) && L.Enabled(s, t, L.Go) && s.threads[t].pc == L.I_LINK
    ensures var th := s.threads[t];
      && Writes(s, t, th.find.preds[th.level], th.level, th.newNode)
      && L.ValidRef(s.heap, th.newNode) && !s.heap[th.newNode].fullyLinked
  {
    assert I.ThreadInv(s.heap, s.threads[t], t, s.log);
  }

  lemma UnlinkWrites(s: L.State, t: int)
    requires I.Inv(s) && L.Enabled(s, t, L.Go) && s.threads[t].pc == L.R_UNLINK
    ensures var th := s.threads[t];
      && Writes(s, t, th.find.preds[th.level], th.level, th.tmp)
      && (th.tmp >= 0 ==> L.ValidRef(s.heap, th.tmp) && !T.Unreferenced(s.heap, th.tmp))
  {
    var th := s.threads[t];
    assert I.ThreadInv(s.heap, th, t, s.log);
    assert I.LinkOk(s.heap, th.victim, th.level);
  }

  lemma NullWrites(s: L.State, t: int)
    requires L.Enabled(s, t, L.Go) && s.threads[t].pc == L.R_NULL
    ensures Writes(s, t, s.threads[t].victim, s.threads[t].level, L.NULL)
  {
  }

  lemma WritersStore(s: L.State, t: int)
    requires I.Inv(s) && L.Enabled(s, t, L.Go)
    requires var pc := s.threads[t].pc; pc == L.I_FILL || pc == L.I_LINK || pc == L.R_UNLINK || pc == L.R_NULL
    ensures Stores(View(s), View(L.Apply(s, t, L.Go)))
  {
    var th := s.threads[t];
    if th.pc == L.I_FILL {
      FillWrites(s, t);
      Keepable(s, th.find.succs[th.level]);
      WriteStores(s, t, th.newNode, th.level, th.find.succs[th.level]);
    } else if th.pc == L.I_LINK {
      LinkWrites(s, t);
      Keepable(s, th.newNode);
      WriteStores(s, t, th.find.preds[th.level], th.level, th.newNode);
    } else if th.pc == L.R_UNLINK {
      UnlinkWrites(s, t);
      if th.tmp >= 0 {
        Keepable(s, th.tmp);
      }
      WriteStores(s, t, th.find.preds[th.level], th.level, th.tmp);
    } else {
      NullWrites(s, t);
      WriteStores(s, t, th.victim, th.level, L.NULL);
    }
  }

  lemma AllocAllocates(s: L.State, t: int)
    requires L.Enabled(s, t, L.Go) && s.threads[t].pc == L.I_ALLOC
    ensures Allocates(View(s), View(L.Apply(s, t, L.Go)))
  {
    var s', n := L.Apply(s, t, L.Go), |s.heap|;
    SameRetired(s.heap, s.threads[t]);
    assert Workers(s'.threads) == Workers(s.threads);
    GrowingView(s.heap, s'.heap);
  }

  lemma GrowingView(heap: L.Heap, after: L.Heap)
    requires |after| == |heap| + 1 && heap <= after && after[|heap|].next == L.RowOf(L.UNSET)
    ensures Nodes(|after|) == Nodes(|heap|) + {|heap| + 1}
    ensures SlotsOf(after) == SlotsOf(heap) + R.NewSlots(Row(|heap| + 1, L.MAX_LEVEL))
  {
  }

  lemma NotNamed(s: L.State, r: L.Ref)
    requires L.ValidRef(s.heap, r) && T.Unreferenced(s.heap, r)
    ensures !R.Named(View(s).slots, Address(r))
  {
    var slots := SlotsOf(s.heap);
    forall x | x in slots ensures slots[x] != Address(r) {
      assert L.ValidRef(s.heap, x.node - 1) && L.ValidLevel(x.field);
    }
  }

  lemma VictimInHand(s: L.State, t: int)
    requires I.Inv(s) && 0 <= t < |s.threads|
    requires s.threads[t].pc == L.DONE && s.threads[t].op.Remove? && s.threads[t].ret
    ensures var r := s.threads[t].victim;
      L.ValidRef(s.heap, r) && T.Unreferenced(s.heap, r) && !s.heap[r].retired
  {
    T.RetiredIsUnreferenced(s, t, s.threads[t].victim);
    assert I.ThreadInv(s.heap, s.threads[t], t, s.log);
  }

  lemma VictimIsRetirable(s: L.State, t: int)
    requires I.Inv(s) && 0 <= t < |s.threads|
    requires s.threads[t].pc == L.DONE && s.threads[t].op.Remove? && s.threads[t].ret
    ensures var v := View(s); R.RetireOk(v, v.workers[t], Address(s.threads[t].victim))
    ensures s.threads[t].victim >= 0
  {
    var r := s.threads[t].victim;
    VictimInHand(s, t);
    NotNamed(s, r);
    if R.Retired(View(s), Address(r)) {
      RetiredNode(s, r);
    }
  }

  lemma HandedView(heap: L.Heap, v: L.Ref)
    requires L.ValidRef(heap, v)
    ensures SlotsOf(L.Handed(heap, v)) == SlotsOf(heap)
  {
  }

  lemma ReturnRetires(s: L.State, t: int)
    requires I.Inv(s) && L.Enabled(s, t, L.Go)
    requires s.threads[t].pc == L.DONE && s.threads[t].op.Remove? && s.threads[t].ret
    ensures Retires(View(s), View(L.Apply(s, t, L.Go)), t)
  {
    var th, s' := s.threads[t], L.Apply(s, t, L.Go);
    VictimIsRetirable(s, t);
    var v, p := View(s), Address(th.victim);
    HandedView(s.heap, th.victim);
    assert Entries(s'.threads[t].retired) == Entries(th.retired) + [R.Entry(false, p)];
    assert Workers(s'.threads) == R.Apply(v, t, R.Retire(p)).workers;
  }

  lemma LinksSame(heap: L.Heap, th: L.Thread, t: int)
    requires L.Safe(heap, th) && !(th.pc == L.DONE && th.op.Remove? && th.ret)
    requires th.pc != L.I_ALLOC && th.pc != L.I_FILL && th.pc != L.I_LINK && th.pc != L.R_UNLINK && th.pc != L.R_NULL
    ensures |L.ExecHeap(heap, th, t)| == |heap|
    ensures forall q :: L.ValidRef(heap, q) ==> L.ExecHeap(heap, th, t)[q].next == heap[q].next
  {
  }

  lemma OtherwiseSame(s: L.State, t: int, a: L.Action)
    requires L.Enabled(s, t, a)
    requires a.Go? ==> var th := s.threads[t];
      && !(th.pc == L.DONE && th.op.Remove? && th.ret)
      && th.pc != L.I_ALLOC && th.pc != L.I_FILL && th.pc != L.I_LINK && th.pc != L.R_UNLINK && th.pc != L.R_NULL
    ensures View(L.Apply(s, t, a)) == View(s)
  {
    var s' := L.Apply(s, t, a);
    if a.Go? {
      LinksSame(s.heap, s.threads[t], t);
      if s.threads[t].pc != L.DONE {
        SameRetired(s.heap, s.threads[t]);
      }
    }
    assert Workers(s'.threads) == Workers(s.threads);
    SameView(s, s');
  }

  /** Every step of the skip list obeys the reclamation protocol: what it stores is NULL or not retired, and what it
      retires is allocated, named by no word and on no free list. */
  lemma ListObeysProtocol(s: L.State, t: int, a: L.Action)
    requires I.Inv(s) && L.Enabled(s, t, a)
    ensures var v, w := View(s), View(L.Apply(s, t, a));
      w == v || Stores(v, w) || Allocates(v, w) || Retires(v, w, t)
  {
    if a.Go? {
      var th := s.threads[t];
      if th.pc == L.I_ALLOC { AllocAllocates(s, t); }
      else if th.pc == L.I_FILL || th.pc == L.I_LINK || th.pc == L.R_UNLINK || th.pc == L.R_NULL { WritersStore(s, t); }
      else if th.pc == L.DONE && th.op.Remove? && th.ret { ReturnRetires(s, t); }
      else { OtherwiseSame(s, t, a); }
    } else {
      OtherwiseSame(s, t, a);
    }
  }

  lemma RunObeysProtocol(run: seq<L.State>, k: nat)
    requires L.Run(run) && 0 < k < |run|
    ensures var v, w := View(run[k - 1]), View(run[k]);
      w == v || Stores(v, w) || Allocates(v, w) || exists t :: Retires(v, w, t)
  {
    var t, a := T.InvStep(run, k);
    ListObeysProtocol(run[k - 1], t, a);
  }
}
