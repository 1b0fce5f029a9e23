/** A thread's free list: the array of stack-track.h lines 94-96, the in-place compaction of ST_scan_and_free and the
    retry loop of ST_free.  What a scan of the other threads finds is a parameter here; ReclaimSafety says what it
    means. */
module FreeList {
  import opened ReclaimMachine

  const MAX_FREE_LIST: nat := 1000

  // ----- what compaction computes -----

  datatype Sweep = Sweep(kept: seq<Entry>, freed: seq<Ptr>)

  /** The list without its entry i: the last entry takes its place. */
  function TakeOut(list: seq<Entry>, i: nat): (rest: seq<Entry>)
    requires i < |list|
    ensures |rest| == |list| - 1
  {
    list[i := list[|list| - 1]][..|list| - 1]
  }

  /** Compaction from index i on: the entries it leaves and the pointers it frees, in order. */
  function Swept(list: seq<Entry>, i: nat): Sweep
    requires i <= |list|
    decreases |list| - i
  {
    if i == |list| then Sweep(list, [])
    else if list[i].found then Swept(list, i + 1)
    else
      var rest := Swept(TakeOut(list, i), i);
      Sweep(rest.kept, [list[i].ptr] + rest.freed)
  }

  lemma TakeOutBag(list: seq<Entry>, i: nat)
    requires i < |list|
    ensures multiset(list) == multiset(TakeOut(list, i)) + multiset{list[i]}
  {
    var last := list[|list| - 1];
    var swapped := list[i := last];
    assert swapped == TakeOut(list, i) + [last];
    assert multiset(swapped) == multiset(list) - multiset{list[i]} + multiset{last};
  }

  /** Compaction keeps exactly the entries that were found and frees exactly the others, each as often as it occurs. */
  lemma {:induction false} SweepSeparates(list: seq<Entry>, i: nat)
    requires i <= |list| && forall e :: 0 <= e < i ==> list[e].found
    ensures forall e: Entry :: multiset(Swept(list, i).kept)[e] == if e.found then multiset(list)[e] else 0
    ensures forall p :: multiset(Swept(list, i).freed)[p] == multiset(list)[Entry(false, p)]
    decreases |list| - i
  {
    if i == |list| {
      forall p ensures Entry(false, p) !in list {
      }
      forall e: Entry | !e.found ensures e !in list {
      }
    } else if list[i].found {
      SweepSeparates(list, i + 1);
    } else {
      var rest := TakeOut(list, i);
      TakeOutBag(list, i);
      SweepSeparates(rest, i);
      assert list[i] == Entry(false, list[i].ptr);
    }
  }

  function Pointers(list: seq<Entry>): seq<Ptr> {
    seq(|list|, e requires 0 <= e < |list| => list[e].ptr)
  }

  lemma PointersOfTakeOut(list: seq<Entry>, i: nat)
    requires i < |list|
    ensures multiset(Pointers(list)) == multiset(Pointers(TakeOut(list, i))) + multiset{list[i].ptr}
  {
    var ptrs, last := Pointers(list), list[|list| - 1].ptr;
    assert ptrs[i := last] == Pointers(TakeOut(list, i)) + [last];
    assert multiset(ptrs[i := last]) == multiset(ptrs) - multiset{list[i].ptr} + multiset{last};
  }

  /** Nothing is lost and nothing is made up: kept plus freed is the original multiset. */
  lemma {:induction false} SweepConserves(list: seq<Entry>, i: nat)
    requires i <= |list|
    ensures multiset(Pointers(list)) == multiset(Pointers(Swept(list, i).kept)) + multiset(Swept(list, i).freed)
    decreases |list| - i
  {
    if i < |list| {
      if list[i].found {
        SweepConserves(list, i + 1);
      } else {
        PointersOfTakeOut(list, i);
        SweepConserves(TakeOut(list, i), i);
      }
    }
  }

  /** The compaction that the reclamation machine does a turn at a time is this one. */
  lemma MachineSweeps(workers: seq<Worker>, t: int)
    requires 0 <= t < |workers| && ScanSafe(workers, t) && workers[t].scan.pc == FREEING
    requires workers[t].scan.i < |workers[t].list|
    ensures var w, v := workers[t], DoScan(workers, t);
      && v.scan.i <= |v.list| && Swept(v.list, v.scan.i).kept == Swept(w.list, w.scan.i).kept
      && Swept(w.list, w.scan.i).freed == (if Frees(w) then [w.list[w.scan.i].ptr] else []) + Swept(v.list, v.scan.i).freed
  {
    var w := workers[t];
    if w.list[w.scan.i].found {
      assert [] + Swept(w.list, w.scan.i + 1).freed == Swept(w.list, w.scan.i).freed;
    } else {
      assert DoScan(workers, t).list == TakeOut(w.list, w.scan.i);
    }
  }

  // ----- one scan's findings -----

  /** The list with is_found as a scan has left it. */
  function Marked(list: seq<Entry>, finds: int -> bool): (marked: seq<Entry>)
    ensures |marked| == |list|
    ensures forall e :: 0 <= e < |list| ==> marked[e] == Entry(finds(e), list[e].ptr)
  {
    seq(|list|, e requires 0 <= e < |list| => Entry(finds(e), list[e].ptr))
  }

  /** The scan finds every one of the first n entries. */
  predicate AllFound(finds: int -> bool, n: nat) {
    forall e :: 0 <= e < n ==> finds(e)
  }

  /** The pointers at the indices, among the first ones, that a scan found (or missed). */
  function Chosen(ptrs: seq<Ptr>, finds: int -> bool, found: bool): (chosen: seq<Ptr>)
    ensures |chosen| <= |ptrs|
  {
    if ptrs == [] then []
    else
      var n := |ptrs| - 1;
      Chosen(ptrs[..n], finds, found) + if finds(n) == found then [ptrs[n]] else []
  }

  /** A pointer is chosen exactly if it stands at such an index. */
  lemma {:induction false} ChosenAre(ptrs: seq<Ptr>, finds: int -> bool, found: bool, p: Ptr)
    ensures p in Chosen(ptrs, finds, found) <==> exists e :: 0 <= e < |ptrs| && ptrs[e] == p && finds(e) == found
  {
    if ptrs != [] {
      var n := |ptrs| - 1;
      ChosenAre(ptrs[..n], finds, found, p);
      if e :| 0 <= e < |ptrs| && ptrs[e] == p && finds(e) == found {
        if e < n {
          assert ptrs[..n][e] == p;
        }
      }
    }
  }

  lemma ChosenLast(list: seq<Entry>, finds: int -> bool, found: bool)
    requires list != []
    ensures var n := |list| - 1;
      Chosen(Pointers(list), finds, found)
        == Chosen(Pointers(list[..n]), finds, found) + if finds(n) == found then [list[n].ptr] else []
  {
    assert Pointers(list)[..|list| - 1] == Pointers(list[..|list| - 1]);
  }

  lemma {:induction false} MarkedCounts(list: seq<Entry>, finds: int -> bool, found: bool, p: Ptr)
    requires forall e :: 0 <= e < |list| ==> list[e].found == finds(e)
    ensures multiset(list)[Entry(found, p)] == multiset(Chosen(Pointers(list), finds, found))[p]
  {
    if list != [] {
      var n := |list| - 1;
      MarkedCounts(list[..n], finds, found, p);
      assert list == list[..n] + [list[n]];
      assert multiset(list)[Entry(found, p)]
          == multiset(list[..n])[Entry(found, p)] + if list[n] == Entry(found, p) then 1 else 0;
      ChosenLast(list, finds, found);
    }
  }

  lemma {:induction false} KeptCounts(kept: seq<Entry>, p: Ptr)
    requires forall e :: e in kept ==> e.found
    ensures multiset(Pointers(kept))[p] == multiset(kept)[Entry(true, p)]
  {
    if kept != [] {
      var n := |kept| - 1;
      KeptCounts(kept[..n], p);
      assert kept == kept[..n] + [kept[n]];
      assert Pointers(kept) == Pointers(kept[..n]) + [kept[n].ptr];
      assert kept[n] in kept;
    }
  }

  /** Compaction after a scan frees the pointers at the indices that the scan missed, each as often as it occurs there. */
  lemma FreedFollowScan(list: seq<Entry>, finds: int -> bool)
    requires forall e :: 0 <= e < |list| ==> list[e].found == finds(e)
    ensures multiset(Swept(list, 0).freed) == multiset(Chosen(Pointers(list), finds, false))
  {
    SweepSeparates(list, 0);
    forall p ensures multiset(Swept(list, 0).freed)[p] == multiset(Chosen(Pointers(list), finds, false))[p] {
      MarkedCounts(list, finds, false, p);
    }
  }

  /** And it keeps those at the indices that the scan found. */
  lemma KeptFollowScan(list: seq<Entry>, finds: int -> bool)
    requires forall e :: 0 <= e < |list| ==> list[e].found == finds(e)
    ensures multiset(Pointers(Swept(list, 0).kept)) == multiset(Chosen(Pointers(list), finds, true))
  {
    var kept := Swept(list, 0).kept;
    KeptIsFound(list);
    forall p ensures multiset(Pointers(kept))[p] == multiset(Chosen(Pointers(list), finds, true))[p] {
      KeptCountOf(list, p);
      MarkedCounts(list, finds, true, p);
    }
  }

  lemma KeptIsFound(list: seq<Entry>)
    ensures forall e :: e in Swept(list, 0).kept ==> e.found
  {
    SweepSeparates(list, 0);
    forall e | e in Swept(list, 0).kept ensures e.found {
      assert multiset(Swept(list, 0).kept)[e] > 0;
    }
  }

  lemma KeptCountOf(list: seq<Entry>, p: Ptr)
    ensures multiset(Pointers(Swept(list, 0).kept))[p] == multiset(list)[Entry(true, p)]
  {
    KeptIsFound(list);
    KeptCounts(Swept(list, 0).kept, p);
    SweepSeparates(list, 0);
  }

  lemma {:induction false} SweepOfFound(list: seq<Entry>, i: nat)
    requires i <= |list| && forall e :: i <= e < |list| ==> list[e].found
    ensures Swept(list, i) == Sweep(list, [])
    decreases |list| - i
  {
    if i < |list| {
      SweepOfFound(list, i + 1);
    }
  }

  lemma {:induction false} SweepShrinks(list: seq<Entry>, i: nat, e: nat)
    requires i <= e < |list| && !list[e].found
    ensures |Swept(list, i).kept| < |list|
    decreases |list| - i
  {
    if list[i].found {
      SweepShrinks(list, i + 1, e);
    } else {
      SweepGrowsNever(TakeOut(list, i), i);
    }
  }

  lemma {:induction false} SweepGrowsNever(list: seq<Entry>, i: nat)
    requires i <= |list|
    ensures |Swept(list, i).kept| <= |list|
    decreases |list| - i
  {
    if i < |list| {
      SweepGrowsNever(if list[i].found then list else TakeOut(list, i), if list[i].found then i + 1 else i);
    }
  }

  /** The pointers in a thread's care: on its list, and given to free(). */
  datatype Care = InCare(ptrs: seq<Ptr>, freed: seq<Ptr>)

  /** What one scan does: it frees exactly the pointers at the indices that it missed and keeps exactly those at the
      indices that it found. */
  ghost predicate Scanned(before: Care, finds: int -> bool, after: Care) {
    && before.freed <= after.freed
    && multiset(after.freed[|before.freed|..]) == multiset(Chosen(before.ptrs, finds, false))
    && multiset(after.ptrs) == multiset(Chosen(before.ptrs, finds, true))
  }

  /** The first of the scans that misses one of the first n entries; their number if none does. */
  ghost function FirstMiss(scans: seq<int -> bool>, n: nat): (j: nat)
    ensures j <= |scans|
    ensures forall i :: 0 <= i < j ==> AllFound(scans[i], n)
    ensures j < |scans| ==> !AllFound(scans[j], n)
  {
    if scans == [] || !AllFound(scans[0], n) then 0 else 1 + FirstMiss(scans[1..], n)
  }

  lemma SweepFollows(list: seq<Entry>, finds: int -> bool, before: seq<Ptr>)
    requires forall e :: 0 <= e < |list| ==> list[e].found == finds(e)
    ensures var sweep := Swept(list, 0);
      && Scanned(InCare(Pointers(list), before), finds, InCare(Pointers(sweep.kept), before + sweep.freed))
      && multiset(before + sweep.freed) == multiset(before) + multiset(sweep.freed)
  {
    var freed := before + Swept(list, 0).freed;
    assert freed[|before|..] == Swept(list, 0).freed;
    FreedFollowScan(list, finds);
    KeptFollowScan(list, finds);
  }

  // ----- the array -----

  class FreeList {
    const entries: array<Entry>
    var size: int
    var maxSize: int
    var freed: seq<Ptr>      // the calls of free(), oldest first
    var nStackScans: int

    ghost predicate Valid()
      reads this`size, this`maxSize
    {
      entries.Length == MAX_FREE_LIST && 0 <= size <= MAX_FREE_LIST && 1 <= maxSize <= MAX_FREE_LIST
    }

    ghost function Contents(): (list: seq<Entry>)
      requires Valid()
      reads this`size, this`maxSize, entries
    {
      entries[..size]
    }

    constructor (freeListMaxSize: int)
      requires 1 <= freeListMaxSize <= MAX_FREE_LIST
      ensures Valid() && fresh(entries) && size == 0 && maxSize == freeListMaxSize && freed == [] && nStackScans == 0
    {
      entries := new Entry[MAX_FREE_LIST](_ => Entry(false, NULL));
      size, maxSize, freed, nStackScans := 0, freeListMaxSize, [], 0;
    }

    /** Lines 414-434: the compaction loop. */
    method Compact()
      requires Valid()
      modifies this`size, this`freed, entries
      ensures Valid()
      ensures Contents() == Swept(old(Contents()), 0).kept
      ensures freed == old(freed) + Swept(old(Contents()), 0).freed
    {
      var maxIndex := size;
      var curIndex := 0;
      ghost var sweep := Swept(Contents(), 0);
      while curIndex < maxIndex
        invariant 0 <= curIndex <= maxIndex <= size == old(size)
        invariant Swept(entries[..maxIndex], curIndex).kept == sweep.kept
        invariant freed + Swept(entries[..maxIndex], curIndex).freed == old(freed) + sweep.freed
        decreases maxIndex - curIndex
      {
        if entries[curIndex].found {
          curIndex := curIndex + 1;
          continue;
        }
        ghost var before := entries[..maxIndex];
        ghost var freedBefore := freed;
        freed := freed + [entries[curIndex].ptr];
        entries[curIndex] := Entry(entries[maxIndex - 1].found, entries[maxIndex - 1].ptr);
        maxIndex := maxIndex - 1;
        assert entries[..maxIndex] == TakeOut(before, curIndex);
        assert freedBefore + Swept(before, curIndex).freed == freed + Swept(entries[..maxIndex], curIndex).freed;
      }
      size := maxIndex;
    }

    /** ST_scan_and_free, with what the scan of the threads found. */
    method ScanAndFree(finds: int -> bool)
      requires Valid()
      modifies this`size, this`freed, entries
      ensures Valid()
      ensures Contents() == Swept(Marked(old(Contents()), finds), 0).kept
      ensures freed == old(freed) + Swept(Marked(old(Contents()), finds), 0).freed
      ensures Bag() == old(Bag())
      ensures if AllFound(finds, old(size)) then size == old(size) && freed == old(freed) else size < old(size)
      ensures AllFound(finds, old(size)) ==> Care() == old(Care())
      ensures Scanned(old(Care()), finds, Care())
    {
      ghost var marked := Marked(old(Contents()), finds);
      MarkFound(finds);
      assert Pointers(marked) == Pointers(old(Contents()));
      Compact();
      ScanProgress(marked, finds);
      SweepFollows(marked, finds, old(freed));
    }

    /** Lines 384-412: is_found of every entry, as the scan leaves it. */
    method MarkFound(finds: int -> bool)
      requires Valid()
      modifies entries
      ensures Contents() == Marked(old(Contents()), finds)
    {
      var i := 0;
      while i < size
        invariant 0 <= i <= size <= entries.Length
        invariant forall e :: 0 <= e < i ==> entries[e] == Entry(finds(e), old(entries[e]).ptr)
        invariant forall e :: i <= e < entries.Length ==> entries[e] == old(entries[e])
      {
        entries[i] := Entry(finds(i), entries[i].ptr);
        i := i + 1;
      }
    }

    /** Every pointer in the thread's care: on the list, or already given to free(). */
    ghost function Bag(): multiset<Ptr>
      requires Valid()
      reads this`size, this`maxSize, this`freed, entries
    {
      multiset(Pointers(Contents())) + multiset(freed)
    }

    method Append(ptr: Ptr)
      requires Valid() && size < maxSize
      modifies this`size, entries
      ensures Valid() && size == old(size) + 1
      ensures Pointers(Contents()) == Pointers(old(Contents())) + [ptr]
    {
      entries[size] := Entry(entries[size].found, ptr);
      size := size + 1;
    }

    ghost function Care(): Care
      requires Valid()
      reads this`size, this`maxSize, this`freed, entries
    {
      InCare(Pointers(Contents()), freed)
    }

    /** One turn of the loop of lines 453-456. */
    method ScanOnce(finds: int -> bool)
      requires Valid() && size == maxSize
      modifies this`size, this`freed, this`nStackScans, entries
      ensures Valid() && Bag() == old(Bag()) && nStackScans == old(nStackScans) + 1 && size <= maxSize
      ensures size == maxSize <==> AllFound(finds, maxSize)
      ensures if size == maxSize then Care() == old(Care()) else Scanned(old(Care()), finds, Care())
    {
      ScanAndFree(finds);
      nStackScans := nStackScans + 1;
    }

    /** The loop of lines 453-456.  `scans` says what each scan finds, one after the other; the loop has no other bound,
        and it is still running if they run out. */
    method ScanUntilRoom(scans: seq<int -> bool>)
      requires Valid() && size == maxSize
      modifies this`size, this`freed, this`nStackScans, entries
      ensures Valid() && size <= maxSize && Bag() == old(Bag())
      ensures var j := FirstMiss(scans, maxSize);
        if j < |scans| then
          size < maxSize && nStackScans == old(nStackScans) + j + 1 && Scanned(old(Care()), scans[j], Care())
        else size == maxSize && nStackScans == old(nStackScans) + |scans| && Care() == old(Care())
    {
      ghost var j := FirstMiss(scans, maxSize);
      var k := 0;
      while size >= maxSize && k < |scans|
        invariant Valid() && 0 <= k <= |scans| && size <= maxSize && Bag() == old(Bag())
        invariant nStackScans == old(nStackScans) + k
        invariant size == maxSize ==> k <= j && Care() == old(Care())
        invariant size < maxSize ==> k == j + 1 && j < |scans| && Scanned(old(Care()), scans[j], Care())
        decreases |scans| - k
      {
        ScanOnce(scans[k]);
        k := k + 1;
      }
    }

    /** ST_free.  It returns, with room on the list, exactly if the list does not fill up or one of the scans misses an
        entry.  Until then nothing is freed; the first scan that misses an entry frees exactly the pointers at the
        indices that it missed, and those at the indices that it found stay on the list. */
    method Free(ptr: Ptr, scans: seq<int -> bool>) returns (returned: bool)
      requires Valid() && size < maxSize
      modifies this`size, this`freed, this`nStackScans, entries
      ensures Valid() && size <= maxSize
      ensures returned <==> size < maxSize
      ensures returned <==> old(size) + 1 < maxSize || FirstMiss(scans, maxSize) < |scans|
      ensures Bag() == old(Bag()) + multiset{ptr}
      ensures var ptrs, j := Pointers(old(Contents())) + [ptr], FirstMiss(scans, maxSize);
        if old(size) + 1 < maxSize then
          freed == old(freed) && nStackScans == old(nStackScans) && Pointers(Contents()) == ptrs
        else if j < |scans| then
          nStackScans == old(nStackScans) + j + 1 && Scanned(InCare(ptrs, old(freed)), scans[j], Care())
        else freed == old(freed) && nStackScans == old(nStackScans) + |scans| && Pointers(Contents()) == ptrs
    {
      Append(ptr);
      if size >= maxSize {
        ScanUntilRoom(scans);
      }
      returned := size < maxSize;
    }
  }

  /** A scan makes room exactly if it misses an entry; otherwise it leaves the list as it is and frees nothing. */
  lemma ScanProgress(list: seq<Entry>, finds: int -> bool)
    requires forall e :: 0 <= e < |list| ==> list[e].found == finds(e)
    ensures AllFound(finds, |list|) ==> Swept(list, 0) == Sweep(list, [])
    ensures !AllFound(finds, |list|) ==> |Swept(list, 0).kept| < |list|
    ensures multiset(Pointers(list)) == multiset(Pointers(Swept(list, 0).kept)) + multiset(Swept(list, 0).freed)
  {
    SweepConserves(list, 0);
    if AllFound(finds, |list|) {
      SweepOfFound(list, 0);
    } else {
      var e :| 0 <= e < |list| && !finds(e);
      SweepShrinks(list, 0, e);
    }
  }
}
