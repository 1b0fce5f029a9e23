/** Each write to shared memory keeps the heap invariant and stays within the guarantee. */
module SkipListWrites {
  import opened SkipListMachine
  import opened SkipListInvariant

  // ----- writes that leave every level's list alone -----

  ghost predicate SameNode(a: Node, b: Node) {
    && b.key == a.key && b.now == a.now && b.ever == a.ever
    && (forall j :: 0 <= j < a.ever && j < MAX_LEVEL ==> b.next[j] == a.next[j])
  }

  ghost predicate SameLists(heap: Heap, heap': Heap) {
    && |heap| <= |heap'|
    && (forall r :: 0 <= r < |heap| ==> SameNode(heap[r], heap'[r]))
    && (forall r :: |heap| <= r < |heap'| ==> heap'[r].now == 0 && heap'[r].ever == 0)
  }

  lemma LinksKept(heap: Heap, heap': Heap)
    requires SameLists(heap, heap') && Links(heap)
    ensures Links(heap')
  {
    forall r, j | ValidRef(heap', r) && ValidLevel(j) && j < heap'[r].ever
      ensures LinkOk(heap', r, j)
    {
      assert SameNode(heap[r], heap'[r]);
      assert LinkOk(heap, r, j);
      if heap[r].next[j] != NULL {
        var y := heap[r].next[j];
        assert Linked(heap, y, j) && SameNode(heap[y], heap'[y]);
        assert Gap(heap, heap[r].key, heap[y].key, j);
        assert Gap(heap', heap[r].key, heap[y].key, j) by {
          forall z | Linked(heap', z, j) ensures heap'[z].key <= heap[r].key || heap'[z].key >= heap[y].key {
            assert SameNode(heap[z], heap'[z]);
            assert Linked(heap, z, j);
          }
        }
      }
    }
  }

  lemma UniqueKept(heap: Heap, heap': Heap)
    requires SameLists(heap, heap') && Unique(heap)
    ensures Unique(heap')
  {
    forall x, z | Linked(heap', x, 0) && Linked(heap', z, 0) && heap'[x].key == heap'[z].key
      ensures x == z
    {
      assert SameNode(heap[x], heap'[x]) && SameNode(heap[z], heap'[z]);
      assert Linked(heap, x, 0) && Linked(heap, z, 0);
    }
  }

  /** A remover keeps its locks, and only removers that are done with a node let go of it. */
  ghost predicate KeepsBypass(heap: Heap, heap': Heap)
    requires |heap| <= |heap'|
  {
    forall r :: 0 <= r < |heap| && heap'[r].now < heap'[r].ever && ValidLevel(heap'[r].now)
                && heap'[r].next[heap'[r].now] != NULL ==>
      && heap'[r].bypass == heap[r].bypass && heap'[r].owner == heap[r].owner
      && (Held(heap, heap[r].bypass, heap[r].owner) ==> Held(heap', heap[r].bypass, heap[r].owner))
  }

  lemma DanglingKept(heap: Heap, heap': Heap)
    requires SameLists(heap, heap') && Dangling(heap) && KeepsBypass(heap, heap')
    requires Nodes(heap) && Sentinels(heap)
    ensures Dangling(heap')
  {
    forall r | ValidRef(heap', r) ensures DanglingOk(heap', r) {
      if r < |heap| {
        assert SameNode(heap[r], heap'[r]);
        assert DanglingOk(heap, r);
        if ValidLevel(heap[r].now) && heap[r].now < heap[r].ever && heap[r].next[heap[r].now] != NULL {
          var p := heap[r].bypass;
          assert Linked(heap, p, heap[r].now) && SameNode(heap[p], heap'[p]);
        }
      }
    }
  }

  /** The guard of an unfinished insertion is kept. */
  ghost predicate KeepsGuards(heap: Heap, heap': Heap)
    requires |heap| <= |heap'|
  {
    && (forall r :: 0 <= r < |heap| && !heap'[r].fullyLinked ==> !heap[r].fullyLinked && heap'[r].creator == heap[r].creator)
    && (forall v, p :: 2 <= v < |heap| && !heap'[v].fullyLinked && Held(heap, p, heap[v].creator) ==> Held(heap', p, heap[v].creator))
  }

  lemma GuardedKept(heap: Heap, heap': Heap)
    requires SameLists(heap, heap') && Guarded(heap) && KeepsGuards(heap, heap')
    requires Links(heap) && Nodes(heap) && Sentinels(heap)
    ensures Guarded(heap')
  {
    forall p | ValidRef(heap', p) ensures GuardedOk(heap', p) {
      if Linked(heap', p, 0) && p < |heap| {
        assert SameNode(heap[p], heap'[p]);
        assert Linked(heap, p, 0) && GuardedOk(heap, p);
        assert LinkOk(heap, p, 0);
      }
    }
  }

  /** Only node r has changed, or it is new. */
  lemma NodesKept(heap: Heap, heap': Heap, r: Ref)
    requires Nodes(heap) && Sentinels(heap) && |heap| <= |heap'| <= |heap| + 1
    requires forall x :: 0 <= x < |heap| && x != r ==> heap'[x] == heap[x]
    requires |heap'| > |heap| ==> r == |heap|
    requires ValidRef(heap', r)
    requires if r < 2 then heap'[r] == heap[r].(lock := heap'[r].lock, owner := heap'[r].owner, removing := false) else NodeOk(heap'[r])
    ensures Nodes(heap') && Sentinels(heap')
  {
  }

  lemma HeapKept(heap: Heap, heap': Heap)
    requires HeapInv(heap) && SameLists(heap, heap') && KeepsBypass(heap, heap') && KeepsGuards(heap, heap')
    requires Nodes(heap') && Sentinels(heap')
    ensures HeapInv(heap')
  {
    LinksKept(heap, heap');
    UniqueKept(heap, heap');
    DanglingKept(heap, heap');
    GuardedKept(heap, heap');
  }

  lemma LockKeeps(heap: Heap, r: Ref, t: int)
    requires HeapInv(heap) && ValidRef(heap, r) && !heap[r].lock
    ensures HeapInv(SetLock(heap, r, t))
  {
    var heap' := SetLock(heap, r, t);
    assert SameLists(heap, heap');
    assert KeepsGuards(heap, heap');
    assert Nodes(heap') && Sentinels(heap') by { NodesKept(heap, heap', r); }
    HeapKept(heap, heap');
  }

  /** t may release r when it is not in the middle of inserting or unlinking anything. */
  ghost predicate Quiet(heap: Heap, t: int, r: Ref) {
    && (forall x :: ValidRef(heap, x) && heap[x].removing && heap[x].owner == t ==> x == r)
    && (forall x :: 2 <= x < |heap| && heap[x].creator == t ==> heap[x].fullyLinked)
  }

  lemma UnlockKeeps(heap: Heap, r: Ref, t: int)
    requires HeapInv(heap) && Held(heap, r, t) && Quiet(heap, t, r)
    requires heap[r].removing ==> heap[r].now == 0 && heap[r].fullyLinked && heap[r].next[0] == NULL
    ensures HeapInv(ClearLock(heap, r))
  {
    var heap' := ClearLock(heap, r);
    assert SameLists(heap, heap');
    assert KeepsGuards(heap, heap');
    assert Nodes(heap') && Sentinels(heap') by { NodesKept(heap, heap', r); }
    HeapKept(heap, heap');
  }

  lemma MarkKeeps(heap: Heap, r: Ref, t: int)
    requires HeapInv(heap) && 2 <= r && Held(heap, r, t) && !heap[r].marked
    ensures HeapInv(SetMark(heap, r))
  {
    var heap' := SetMark(heap, r);
    assert SameLists(heap, heap');
    assert KeepsGuards(heap, heap');
    assert Nodes(heap') && Sentinels(heap') by { NodesKept(heap, heap', r); }
    HeapKept(heap, heap');
  }

  lemma UnmarkKeeps(heap: Heap, r: Ref, t: int)
    requires HeapInv(heap) && 2 <= r && Held(heap, r, t) && heap[r].removing && heap[r].now == heap[r].ever
    ensures HeapInv(ClearMark(heap, r))
  {
    var heap' := ClearMark(heap, r);
    assert SameLists(heap, heap');
    assert KeepsGuards(heap, heap');
    assert Nodes(heap') && Sentinels(heap') by { NodesKept(heap, heap', r); }
    HeapKept(heap, heap');
  }

  lemma AllocKeeps(heap: Heap, key: int, topLevel: int, t: int)
    requires HeapInv(heap) && MIN_KEY < key < MAX_KEY && ValidLevel(topLevel)
    ensures HeapInv(heap + [Fresh(key, topLevel, t)])
  {
    var heap' := heap + [Fresh(key, topLevel, t)];
    assert SameLists(heap, heap');
    assert KeepsGuards(heap, heap');
    assert Nodes(heap') && Sentinels(heap') by { NodesKept(heap, heap', |heap|); }
    HeapKept(heap, heap');
  }

  lemma FillKeeps(heap: Heap, n: Ref, level: int, succ: Ref, t: int)
    requires HeapInv(heap) && 2 <= n < |heap| && ValidLevel(level)
    requires heap[n].creator == t && !heap[n].fullyLinked && heap[n].ever == level <= heap[n].topLevel
    ensures HeapInv(Fill(heap, n, level, succ))
  {
    var heap' := Fill(heap, n, level, succ);
    assert SameLists(heap, heap');
    assert KeepsGuards(heap, heap');
    assert Nodes(heap') && Sentinels(heap') by { NodesKept(heap, heap', n); }
    HeapKept(heap, heap');
  }

  lemma FullyKeeps(heap: Heap, n: Ref, t: int)
    requires HeapInv(heap) && 2 <= n < |heap|
    requires heap[n].creator == t && !heap[n].fullyLinked && heap[n].ever == heap[n].topLevel + 1
    ensures HeapInv(SetFully(heap, n))
  {
    var heap' := SetFully(heap, n);
    assert SameLists(heap, heap');
    assert KeepsGuards(heap, heap');
    assert Nodes(heap') && Sentinels(heap') by { NodesKept(heap, heap', n); }
    HeapKept(heap, heap');
  }

  lemma HandKeeps(heap: Heap, v: Ref, t: int)
    requires HeapInv(heap) && 2 <= v < |heap| && heap[v].taker == t && t >= 0
    ensures HeapInv(Handed(heap, v))
  {
    var heap' := Handed(heap, v);
    assert SameLists(heap, heap');
    assert KeepsGuards(heap, heap');
    assert Nodes(heap') && Sentinels(heap') by { NodesKept(heap, heap', v); }
    HeapKept(heap, heap');
  }
}
