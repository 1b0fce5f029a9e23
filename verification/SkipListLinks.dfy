/** The three writes that change a level's list: line 500, line 784 and line 785. */
module SkipListLinks {
  import opened SkipListMachine
  import opened SkipListInvariant

  /** Nothing but p leads to v at level j, when p is linked there, v is still linked, and t works on nothing else. */
  lemma OnlyPred(heap: Heap, p: Ref, v: Ref, j: int, r: Ref)
    requires Links(heap) && Dangling(heap) && Unique(heap) && Nodes(heap) && Sentinels(heap)
    requires ValidLevel(j) && Linked(heap, p, j) && heap[p].next[j] == v && v != NULL
    requires ValidRef(heap, r) && j < heap[r].ever && heap[r].next[j] == v
    ensures r == p || (heap[r].now == j && heap[r].removing && heap[r].bypass == p && Held(heap, p, heap[r].owner))
  {
    assert LinkOk(heap, p, j) && LinkOk(heap, r, j);
    if Linked(heap, r, j) {
      assert Linked(heap, r, 0) && Linked(heap, p, 0);
      assert Gap(heap, heap[p].key, heap[v].key, j) && Gap(heap, heap[r].key, heap[v].key, j);
    } else {
      assert DanglingOk(heap, r);
      var q := heap[r].bypass;
      assert LinkOk(heap, q, j);
      assert Linked(heap, q, 0) && Linked(heap, p, 0);
      assert Gap(heap, heap[p].key, heap[v].key, j) && Gap(heap, heap[q].key, heap[v].key, j);
    }
  }

  // ----- line 500: p_preds[level]->p_next[level] = p_new_node -----

  ghost predicate LinkPre(heap: Heap, p: Ref, n: Ref, level: int, t: int) {
    && 2 <= n < |heap| && ValidLevel(level) && level <= heap[n].topLevel
    && Linked(heap, p, level) && Held(heap, p, t)
    && heap[n].creator == t && !heap[n].fullyLinked && heap[n].now == level && heap[n].ever == level
    && heap[n].next[level] == heap[p].next[level] && ValidRef(heap, heap[p].next[level])
    && heap[p].key < heap[n].key < heap[heap[p].next[level]].key
    && (forall x :: ValidRef(heap, x) && heap[x].removing ==> heap[x].owner != t)
    && (forall x :: 2 <= x < |heap| && heap[x].creator == t && !heap[x].fullyLinked ==> x == n)
  }

  /** The interval of a link of another node is not split by the new node. */
  lemma LinkSplitsOnlyPred(heap: Heap, p: Ref, n: Ref, level: int, t: int, r: Ref)
    requires HeapInv(heap) && LinkPre(heap, p, n, level, t)
    requires ValidRef(heap, r) && r != p && level < heap[r].ever && heap[r].next[level] != NULL
    ensures ValidRef(heap, heap[r].next[level])
    ensures heap[n].key <= heap[r].key || heap[n].key >= heap[heap[r].next[level]].key
  {
    assert LinkOk(heap, r, level) && LinkOk(heap, p, level);
    var y := heap[r].next[level];
    assert Gap(heap, heap[r].key, heap[y].key, level);
    assert Gap(heap, heap[p].key, heap[heap[p].next[level]].key, level);
    assert Linked(heap, p, 0);
    if Linked(heap, r, level) {
      assert Linked(heap, r, 0);
    } else {
      assert DanglingOk(heap, r);
      var q := heap[r].bypass;
      assert q != p;
      assert LinkOk(heap, q, level) && Linked(heap, q, 0);
      assert Gap(heap, heap[q].key, heap[y].key, level);
    }
  }

  lemma LinkKeepsLinks(heap: Heap, p: Ref, n: Ref, level: int, t: int)
    requires HeapInv(heap) && LinkPre(heap, p, n, level, t)
    ensures Links(Link(heap, p, n, level))
  {
    var heap' := Link(heap, p, n, level);
    assert LinkOk(heap, p, level);
    assert Gap(heap, heap[p].key, heap[heap[p].next[level]].key, level);
    forall r, j | ValidRef(heap', r) && ValidLevel(j) && j < heap'[r].ever
      ensures LinkOk(heap', r, j)
    {
      if heap'[r].next[j] != NULL {
        var y := heap'[r].next[j];
        if j < heap[r].ever {
          assert LinkOk(heap, r, j);
          if !(r == p && j == level) {
            assert Gap(heap, heap[r].key, heap[y].key, j);
            if j == level { LinkSplitsOnlyPred(heap, p, n, level, t, r); }
          }
        }
        assert Linked(heap', y, j);
        forall z | Linked(heap', z, j) ensures heap'[z].key <= heap'[r].key || heap'[z].key >= heap'[y].key {
          assert z == n || Linked(heap, z, j);
        }
      }
    }
  }

  lemma LinkKeepsUnique(heap: Heap, p: Ref, n: Ref, level: int, t: int)
    requires HeapInv(heap) && LinkPre(heap, p, n, level, t)
    ensures Unique(Link(heap, p, n, level))
  {
    var heap' := Link(heap, p, n, level);
    assert LinkOk(heap, p, level);
    assert Gap(heap, heap[p].key, heap[heap[p].next[level]].key, level);
    forall x, z | Linked(heap', x, 0) && Linked(heap', z, 0) && heap'[x].key == heap'[z].key
      ensures x == z
    {
      assert x == n || Linked(heap, x, 0);
      assert z == n || Linked(heap, z, 0);
    }
  }

  lemma LinkKeepsDangling(heap: Heap, p: Ref, n: Ref, level: int, t: int)
    requires HeapInv(heap) && LinkPre(heap, p, n, level, t)
    ensures Dangling(Link(heap, p, n, level))
  {
    var heap' := Link(heap, p, n, level);
    forall r | ValidRef(heap', r) ensures DanglingOk(heap', r) {
      assert DanglingOk(heap, r);
    }
  }

  lemma LinkKeepsGuarded(heap: Heap, p: Ref, n: Ref, level: int, t: int)
    requires HeapInv(heap) && LinkPre(heap, p, n, level, t)
    ensures Guarded(Link(heap, p, n, level))
  {
    var heap' := Link(heap, p, n, level);
    assert GuardedOk(heap, p);
    forall r | ValidRef(heap', r) ensures GuardedOk(heap', r) {
      assert GuardedOk(heap, r);
    }
  }

  lemma LinkKeeps(heap: Heap, p: Ref, n: Ref, level: int, t: int)
    requires HeapInv(heap) && LinkPre(heap, p, n, level, t)
    ensures HeapInv(Link(heap, p, n, level))
  {
    LinkKeepsLinks(heap, p, n, level, t);
    LinkKeepsUnique(heap, p, n, level, t);
    LinkKeepsDangling(heap, p, n, level, t);
    LinkKeepsGuarded(heap, p, n, level, t);
  }

  // ----- line 784: p_preds[level]->p_next[level] = p_victim->p_next[level] -----

  ghost predicate UnlinkPre(heap: Heap, p: Ref, v: Ref, level: int, t: int) {
    && 2 <= v < |heap| && ValidLevel(level)
    && Linked(heap, p, level) && Held(heap, p, t) && heap[p].next[level] == v
    && Held(heap, v, t) && heap[v].removing && heap[v].fullyLinked && heap[v].now == level + 1 && heap[v].taker < 0
    && (level + 1 < heap[v].ever && level + 1 < MAX_LEVEL ==> heap[v].next[level + 1] == NULL)
    && (forall x :: ValidRef(heap, x) && heap[x].removing && heap[x].owner == t ==> x == v)
    && (forall x :: 2 <= x < |heap| && heap[x].creator == t ==> heap[x].fullyLinked)
    && t >= 0
  }

  lemma UnlinkKeepsLinks(heap: Heap, p: Ref, v: Ref, level: int, t: int)
    requires HeapInv(heap) && UnlinkPre(heap, p, v, level, t)
    ensures Links(Unlinked(heap, p, v, level, heap[v].next[level], t))
  {
    var heap' := Unlinked(heap, p, v, level, heap[v].next[level], t);
    var succ := heap[v].next[level];
    assert LinkOk(heap, p, level) && LinkOk(heap, v, level);
    assert Gap(heap, heap[p].key, heap[v].key, level) && Gap(heap, heap[v].key, heap[succ].key, level);
    assert Linked(heap, v, 0);
    forall r, j | ValidRef(heap', r) && ValidLevel(j) && j < heap'[r].ever
      ensures LinkOk(heap', r, j)
    {
      assert LinkOk(heap, r, j);
      if heap'[r].next[j] != NULL {
        var y := heap'[r].next[j];
        if r == p && j == level {
        } else {
          assert Gap(heap, heap[r].key, heap[y].key, j);
          if j == level && y == v {
            OnlyPred(heap, p, v, j, r);
            assert false;
          }
        }
        assert Linked(heap', y, j);
        forall z | Linked(heap', z, j) ensures heap'[z].key <= heap'[r].key || heap'[z].key >= heap'[y].key {
          assert Linked(heap, z, j);
          if r == p && j == level { assert Linked(heap, z, 0); }
        }
      }
    }
  }

  lemma UnlinkKeepsUnique(heap: Heap, p: Ref, v: Ref, level: int, t: int)
    requires HeapInv(heap) && UnlinkPre(heap, p, v, level, t)
    ensures Unique(Unlinked(heap, p, v, level, heap[v].next[level], t))
  {
    var heap' := Unlinked(heap, p, v, level, heap[v].next[level], t);
    forall x, z | Linked(heap', x, 0) && Linked(heap', z, 0) && heap'[x].key == heap'[z].key
      ensures x == z
    {
      assert Linked(heap, x, 0) && Linked(heap, z, 0);
    }
  }

  lemma UnlinkKeepsDangling(heap: Heap, p: Ref, v: Ref, level: int, t: int)
    requires HeapInv(heap) && UnlinkPre(heap, p, v, level, t)
    ensures Dangling(Unlinked(heap, p, v, level, heap[v].next[level], t))
  {
    var heap' := Unlinked(heap, p, v, level, heap[v].next[level], t);
    assert LinkOk(heap, p, level);
    forall r | ValidRef(heap', r) ensures DanglingOk(heap', r) {
      assert DanglingOk(heap, r);
    }
  }

  lemma UnlinkKeepsGuarded(heap: Heap, p: Ref, v: Ref, level: int, t: int)
    requires HeapInv(heap) && UnlinkPre(heap, p, v, level, t)
    ensures Guarded(Unlinked(heap, p, v, level, heap[v].next[level], t))
  {
    var heap' := Unlinked(heap, p, v, level, heap[v].next[level], t);
    assert GuardedOk(heap, v) && LinkOk(heap, v, level);
    forall r | ValidRef(heap', r) ensures GuardedOk(heap', r) {
      assert GuardedOk(heap, r);
    }
  }

  lemma UnlinkKeepsNodes(heap: Heap, p: Ref, v: Ref, level: int, t: int)
    requires HeapInv(heap) && UnlinkPre(heap, p, v, level, t)
    ensures Nodes(Unlinked(heap, p, v, level, heap[v].next[level], t))
    ensures Sentinels(Unlinked(heap, p, v, level, heap[v].next[level], t))
  {
    var heap' := Unlinked(heap, p, v, level, heap[v].next[level], t);
    assert LinkOk(heap, p, level) && LinkOk(heap, v, level);
    assert p != v;
    forall r | 2 <= r < |heap'| ensures NodeOk(heap'[r]) {
      assert NodeOk(heap[r]);
    }
  }

  lemma UnlinkKeeps(heap: Heap, p: Ref, v: Ref, level: int, t: int)
    requires HeapInv(heap) && UnlinkPre(heap, p, v, level, t)
    ensures HeapInv(Unlinked(heap, p, v, level, heap[v].next[level], t))
  {
    UnlinkKeepsNodes(heap, p, v, level, t);
    UnlinkKeepsLinks(heap, p, v, level, t);
    UnlinkKeepsUnique(heap, p, v, level, t);
    UnlinkKeepsDangling(heap, p, v, level, t);
    UnlinkKeepsGuarded(heap, p, v, level, t);
  }

  // ----- line 785: p_victim->p_next[level] = NULL -----

  ghost predicate NullPre(heap: Heap, v: Ref, level: int, t: int) {
    && 2 <= v < |heap| && Held(heap, v, t) && ValidLevel(level)
    && heap[v].removing && heap[v].now == level <= heap[v].topLevel && heap[v].fullyLinked
  }

  lemma NullKeepsLinks(heap: Heap, v: Ref, level: int, t: int)
    requires HeapInv(heap) && NullPre(heap, v, level, t)
    ensures Links(Nulled(heap, v, level)) && Unique(Nulled(heap, v, level))
  {
    var heap' := Nulled(heap, v, level);
    forall r, j | ValidRef(heap', r) && ValidLevel(j) && j < heap'[r].ever
      ensures LinkOk(heap', r, j)
    {
      assert LinkOk(heap, r, j);
      if heap'[r].next[j] != NULL {
        assert Gap(heap, heap[r].key, heap[heap[r].next[j]].key, j);
        forall z | Linked(heap', z, j) ensures heap'[z].key <= heap'[r].key || heap'[z].key >= heap'[heap[r].next[j]].key {
          assert Linked(heap, z, j);
        }
      }
    }
    forall x, z | Linked(heap', x, 0) && Linked(heap', z, 0) && heap'[x].key == heap'[z].key
      ensures x == z
    {
      assert Linked(heap, x, 0) && Linked(heap, z, 0);
    }
  }

  lemma NullKeepsNodes(heap: Heap, v: Ref, level: int, t: int)
    requires Nodes(heap) && Sentinels(heap) && NullPre(heap, v, level, t)
    ensures Nodes(Nulled(heap, v, level)) && Sentinels(Nulled(heap, v, level))
  {
    var heap' := Nulled(heap, v, level);
    assert NodeOk(heap[v]);
    assert NodeOk(heap'[v]);
  }

  lemma NullKeeps(heap: Heap, v: Ref, level: int, t: int)
    requires HeapInv(heap) && NullPre(heap, v, level, t)
    ensures HeapInv(Nulled(heap, v, level))
  {
    var heap' := Nulled(heap, v, level);
    NullKeepsLinks(heap, v, level, t);
    NullKeepsNodes(heap, v, level, t);
    forall r | ValidRef(heap', r) ensures DanglingOk(heap', r) {
      assert DanglingOk(heap, r);
    }
    forall r | ValidRef(heap', r) ensures GuardedOk(heap', r) {
      assert GuardedOk(heap, r);
    }
  }
}
