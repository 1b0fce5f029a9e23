/** Each write to shared memory stays within the guarantee, and only lines 502 and 784 change the abstract set. */
module SkipListGuarantee {
  import opened SkipListMachine
  import opened SkipListInvariant
  import opened SkipListLinks

  lemma LockGuarantee(heap: Heap, r: Ref, t: int)
    requires ValidRef(heap, r) && !heap[r].lock
    ensures Guarantee(heap, SetLock(heap, r, t), t) && Abs(SetLock(heap, r, t)) == Abs(heap)
  {
  }

  lemma UnlockGuarantee(heap: Heap, r: Ref, t: int)
    requires Held(heap, r, t)
    ensures Guarantee(heap, ClearLock(heap, r), t) && Abs(ClearLock(heap, r)) == Abs(heap)
  {
  }

  lemma MarkGuarantee(heap: Heap, r: Ref, t: int)
    requires Held(heap, r, t)
    ensures Guarantee(heap, SetMark(heap, r), t) && Abs(SetMark(heap, r)) == Abs(heap)
  {
  }

  lemma UnmarkGuarantee(heap: Heap, r: Ref, t: int)
    requires Held(heap, r, t)
    ensures Guarantee(heap, ClearMark(heap, r), t) && Abs(ClearMark(heap, r)) == Abs(heap)
  {
  }

  lemma AllocGuarantee(heap: Heap, key: int, topLevel: int, t: int)
    ensures Guarantee(heap, heap + [Fresh(key, topLevel, t)], t) && Abs(heap + [Fresh(key, topLevel, t)]) == Abs(heap)
  {
  }

  lemma FillGuarantee(heap: Heap, n: Ref, level: int, succ: Ref, t: int)
    requires ValidRef(heap, n) && ValidLevel(level) && heap[n].creator == t && heap[n].ever == level
    ensures Guarantee(heap, Fill(heap, n, level, succ), t) && Abs(Fill(heap, n, level, succ)) == Abs(heap)
  {
  }

  lemma LinkGuarantee(heap: Heap, p: Ref, n: Ref, level: int, t: int)
    requires HeapInv(heap) && LinkPre(heap, p, n, level, t)
    ensures Guarantee(heap, Link(heap, p, n, level), t) && Abs(Link(heap, p, n, level)) == Abs(heap)
  {
  }

  lemma FullyGuarantee(heap: Heap, n: Ref, t: int)
    requires 2 <= n < |heap| && heap[n].creator == t && 0 < heap[n].now
    ensures Guarantee(heap, SetFully(heap, n), t) && Abs(SetFully(heap, n)) == Abs(heap) + {heap[n].key}
  {
  }

  lemma UnlinkAbs(heap: Heap, p: Ref, v: Ref, level: int, t: int)
    requires HeapInv(heap) && UnlinkPre(heap, p, v, level, t)
    ensures heap[v].key in Abs(heap)
    ensures Abs(Unlinked(heap, p, v, level, heap[v].next[level], t)) == if level == 0 then Abs(heap) - {heap[v].key} else Abs(heap)
  {
    var heap' := Unlinked(heap, p, v, level, heap[v].next[level], t);
    assert Linked(heap, v, 0);
    forall k ensures k in Abs(heap') <==> k in Abs(heap) && !(level == 0 && k == heap[v].key) {
      if k in Abs(heap') {
        var r :| 2 <= r < |heap'| && 0 < heap'[r].now && heap'[r].fullyLinked && heap'[r].key == k;
        assert Linked(heap, r, 0);
      }
      if k in Abs(heap) && !(level == 0 && k == heap[v].key) {
        var r :| 2 <= r < |heap| && 0 < heap[r].now && heap[r].fullyLinked && heap[r].key == k;
        assert 0 < heap'[r].now && heap'[r].fullyLinked && heap'[r].key == k;
      }
    }
  }

  lemma UnlinkGuarantee(heap: Heap, p: Ref, v: Ref, level: int, t: int)
    requires HeapInv(heap) && UnlinkPre(heap, p, v, level, t)
    ensures Guarantee(heap, Unlinked(heap, p, v, level, heap[v].next[level], t), t)
  {
    var heap' := Unlinked(heap, p, v, level, heap[v].next[level], t);
    UnlinkAbs(heap, p, v, level, t);
    assert p != v by { assert LinkOk(heap, p, level); }
    forall r | 0 <= r < |heap| ensures NodeGuarantee(heap[r], heap'[r], t) {
    }
  }

  lemma NullGuarantee(heap: Heap, v: Ref, level: int, t: int)
    requires NullPre(heap, v, level, t)
    ensures Guarantee(heap, Nulled(heap, v, level), t) && Abs(Nulled(heap, v, level)) == Abs(heap)
  {
  }

  lemma HandGuarantee(heap: Heap, v: Ref, t: int)
    requires ValidRef(heap, v) && heap[v].taker == t
    ensures Guarantee(heap, Handed(heap, v), t) && Abs(Handed(heap, v)) == Abs(heap)
  {
  }
}
