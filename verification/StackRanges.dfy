/** What a thread publishes for others to scan: the hulls of its stack ranges and its hazard-pointer records; and the
    byte-wise scan of both. */
module StackRanges {
  import M = ReclaimMachine

  type Byte = b: int | 0 <= b < 256
  type Address = int

  const NULL: Address := 0
  const FAR: Address := 0x0800_0000_0000_0000   // what ST_stack_init puts into p_start
  const WORD_SIZE: nat := 8
  const WORD_LIMIT: int := 0x1_0000_0000_0000_0000
  const MAX_STACKS: nat := 20
  const MAX_HP_RECORDS: nat := M.MAX_HP_RECORDS

  // ----- little-endian words in a byte-addressed memory -----

  /** The number that a series of bytes stands for, least significant first. */
  function Value(bytes: seq<Byte>): nat {
    if bytes == [] then 0 else bytes[0] + 256 * Value(bytes[1..])
  }

  /** The 8-byte load at p. */
  function LoadWord(memory: seq<Byte>, p: nat): nat
    requires p + WORD_SIZE <= |memory|
  {
    Value(memory[p..p + WORD_SIZE])
  }

  function Bytes(v: nat, n: nat): (bytes: seq<Byte>)
    ensures |bytes| == n
  {
    if n == 0 then [] else [v % 256] + Bytes(v / 256, n - 1)
  }

  /** Memory after the 8-byte store of v at p. */
  function Store(memory: seq<Byte>, p: nat, v: nat): (after: seq<Byte>)
    requires p + WORD_SIZE <= |memory|
    ensures |after| == |memory|
  {
    memory[..p] + Bytes(v, WORD_SIZE) + memory[p + WORD_SIZE..]
  }

  function Pow256(n: nat): (r: nat)
    ensures r > 0
  {
    if n == 0 then 1 else 256 * Pow256(n - 1)
  }

  lemma {:induction false} ValueOfBytes(v: nat, n: nat)
    requires v < Pow256(n)
    ensures Value(Bytes(v, n)) == v
  {
    if n > 0 {
      assert v / 256 < Pow256(n - 1);
      ValueOfBytes(v / 256, n - 1);
      assert Bytes(v, n)[1..] == Bytes(v / 256, n - 1);
    }
  }

  /** What is stored is what is loaded. */
  lemma RoundTrip(memory: seq<Byte>, p: nat, v: nat)
    requires p + WORD_SIZE <= |memory| && v < WORD_LIMIT
    ensures LoadWord(Store(memory, p, v), p) == v
  {
    assert Store(memory, p, v)[p..p + WORD_SIZE] == Bytes(v, WORD_SIZE);
    assert Pow256(4) == 0x1_0000_0000;
    assert Pow256(8) == WORD_LIMIT;
    ValueOfBytes(v, WORD_SIZE);
  }

  function ByteAt(memory: seq<Byte>, p: nat): int
    requires p < |memory|
  {
    memory[p]
  }

  /** Byte order: the load takes the byte at p as the least significant and the one at p + 7 as the most. */
  lemma LoadIsLittleEndian(memory: seq<Byte>, p: nat)
    requires p + WORD_SIZE <= |memory|
    ensures LoadWord(memory, p)
      == ByteAt(memory, p) + 0x100 * ByteAt(memory, p + 1) + 0x1_0000 * ByteAt(memory, p + 2)
         + 0x100_0000 * ByteAt(memory, p + 3) + 0x1_0000_0000 * ByteAt(memory, p + 4)
         + 0x100_0000_0000 * ByteAt(memory, p + 5) + 0x1_0000_0000_0000 * ByteAt(memory, p + 6)
         + 0x100_0000_0000_0000 * ByteAt(memory, p + 7)
  {
    ValueFrom(memory, p, 8);
    ValueFrom(memory, p + 1, 7);
    ValueFrom(memory, p + 2, 6);
    ValueFrom(memory, p + 3, 5);
    ValueFrom(memory, p + 4, 4);
    ValueFrom(memory, p + 5, 3);
    ValueFrom(memory, p + 6, 2);
    ValueFrom(memory, p + 7, 1);
    assert Value(memory[p + 8..p + 8]) == 0;
  }

  lemma ValueFrom(memory: seq<Byte>, p: nat, n: nat)
    requires 0 < n && p + n <= |memory|
    ensures Value(memory[p..p + n]) == memory[p] + 256 * Value(memory[p + 1..p + n])
  {
    assert memory[p..p + n][1..] == memory[p + 1..p + n];
  }

  // ----- what a scan reads -----

  /** p_start and p_end of one stack entry. */
  datatype Hull = Hull(start: Address, end: Address)

  /** A registered range of n bytes. */
  datatype Range = Range(start: Address, size: int)

  /** Every range lies in the hull. */
  ghost predicate Covers(h: Hull, ranges: seq<Range>) {
    forall r :: r in ranges ==> h.start <= r.start && r.start + r.size <= h.end
  }

  /** Scanning the hull reads only memory that exists; the last load reaches seven bytes beyond its end. */
  ghost predicate Mapped(memory: seq<Byte>, h: Hull) {
    0 <= h.start && (h.start < h.end ==> h.end + WORD_SIZE - 1 <= |memory|)
  }

  ghost predicate AllMapped(memory: seq<Byte>, hulls: seq<Hull>) {
    forall i :: 0 <= i < |hulls| ==> Mapped(memory, hulls[i])
  }

  /** Some byte address in the hull reads as the pointer. */
  ghost predicate AppearsIn(memory: seq<Byte>, h: Hull, ptr: nat)
    requires Mapped(memory, h)
  {
    exists p :: h.start <= p < h.end && LoadWord(memory, p) == ptr
  }

  ghost predicate Appears(memory: seq<Byte>, hulls: seq<Hull>, ptr: nat)
    requires AllMapped(memory, hulls)
  {
    exists i :: 0 <= i < |hulls| && AppearsIn(memory, hulls[i], ptr)
  }

  /** The loads of the byte-wise scan of one hull, in order. */
  ghost function WordsFrom(memory: seq<Byte>, h: Hull, p: nat): (words: seq<int>)
    requires h.start <= p && (p < h.end ==> h.end + WORD_SIZE - 1 <= |memory|)
    ensures |words| == if p < h.end then h.end - p else 0
    ensures forall k :: 0 <= k < |words| ==> p + k + WORD_SIZE <= |memory| && words[k] == LoadWord(memory, p + k)
    decreases h.end - p
  {
    if p >= h.end then [] else [LoadWord(memory, p)] + WordsFrom(memory, h, p + 1)
  }

  /** The loads of the whole scan: the last published stack first. */
  ghost function Words(memory: seq<Byte>, hulls: seq<Hull>): seq<int>
    requires AllMapped(memory, hulls)
  {
    if hulls == [] then []
    else
      var last := |hulls| - 1;
      assert Mapped(memory, hulls[last]);
      WordsFrom(memory, hulls[last], hulls[last].start) + Words(memory, hulls[..last])
  }

  lemma HullAppears(memory: seq<Byte>, h: Hull, ptr: nat)
    requires Mapped(memory, h)
    ensures ptr in WordsFrom(memory, h, h.start) <==> AppearsIn(memory, h, ptr)
  {
    var words := WordsFrom(memory, h, h.start);
    if ptr in words {
      var k :| 0 <= k < |words| && words[k] == ptr;
      assert LoadWord(memory, h.start + k) == ptr;
    }
    if p :| h.start <= p < h.end && LoadWord(memory, p) == ptr {
      assert words[p - h.start] == ptr;
    }
  }

  lemma AppearsInLastOrRest(memory: seq<Byte>, hulls: seq<Hull>, h: Hull, ptr: nat)
    requires AllMapped(memory, hulls) && Mapped(memory, h)
    ensures AllMapped(memory, hulls + [h])
    ensures Appears(memory, hulls + [h], ptr) <==> AppearsIn(memory, h, ptr) || Appears(memory, hulls, ptr)
  {
    var all := hulls + [h];
    forall i | 0 <= i < |all| ensures Mapped(memory, all[i]) {
      assert i < |hulls| ==> Mapped(memory, hulls[i]);
    }
    if Appears(memory, hulls, ptr) {
      var i :| 0 <= i < |hulls| && AppearsIn(memory, hulls[i], ptr);
      assert AppearsIn(memory, all[i], ptr);
    }
    if AppearsIn(memory, h, ptr) {
      assert AppearsIn(memory, all[|hulls|], ptr);
    }
  }

  /** The scan order makes no difference to what is found. */
  lemma {:induction false} WordsAppear(memory: seq<Byte>, hulls: seq<Hull>, ptr: nat)
    requires AllMapped(memory, hulls)
    ensures ptr in Words(memory, hulls) <==> Appears(memory, hulls, ptr)
  {
    if hulls != [] {
      var h, rest := hulls[|hulls| - 1], hulls[..|hulls| - 1];
      assert hulls == rest + [h] && Mapped(memory, h);
      HullAppears(memory, h, ptr);
      WordsAppear(memory, rest, ptr);
      AppearsInLastOrRest(memory, rest, h, ptr);
    }
  }

  /** Conservative completeness: a pointer stored anywhere inside a range that a hull covers is among the scanned
      words, at any alignment. */
  lemma StoredIsScanned(memory: seq<Byte>, hulls: seq<Hull>, i: nat, ranges: seq<Range>, r: Range, p: nat, ptr: nat)
    requires AllMapped(memory, hulls) && i < |hulls| && Covers(hulls[i], ranges) && r in ranges
    requires r.start <= p && p + WORD_SIZE <= r.start + r.size && ptr < WORD_LIMIT
    ensures p + WORD_SIZE <= |memory|
    ensures AllMapped(Store(memory, p, ptr), hulls)
    ensures ptr in Words(Store(memory, p, ptr), hulls)
  {
    assert Mapped(memory, hulls[i]);
    var after := Store(memory, p, ptr);
    forall k | 0 <= k < |hulls| ensures Mapped(after, hulls[k]) {
      assert Mapped(memory, hulls[k]);
    }
    RoundTrip(memory, p, ptr);
    assert Mapped(after, hulls[i]) && AppearsIn(after, hulls[i], ptr);
    WordsAppear(after, hulls, ptr);
  }

  // ----- the published part of a thread record -----

  class Published {
    const stacks: array<Hull>
    var nNextStack: int
    var nStacks: int
    const hpRecords: array<Address>
    var nHpRecords: int
    ghost var registered: seq<seq<Range>>   // the ranges added to each stack entry since its ST_stack_init

    ghost predicate Valid()
      reads this, stacks
    {
      && stacks.Length == MAX_STACKS && hpRecords.Length == MAX_HP_RECORDS && |registered| == MAX_STACKS
      && 0 <= nStacks == nNextStack <= MAX_STACKS && 0 <= nHpRecords < MAX_HP_RECORDS
      && (forall i :: 0 <= i < MAX_STACKS ==> Covers(stacks[i], registered[i]))
      && (forall i :: 0 <= i < MAX_STACKS ==> 0 <= stacks[i].start)
    }

    ghost function Hulls(): seq<Hull>
      requires Valid()
      reads this, stacks
    {
      stacks[..nStacks]
    }

    constructor ()
      ensures Valid() && fresh(stacks) && fresh(hpRecords) && nStacks == 0 && nHpRecords == 0
    {
      stacks := new Hull[MAX_STACKS](_ => Hull(0, 0));
      hpRecords := new Address[MAX_HP_RECORDS](_ => NULL);
      nNextStack, nStacks, nHpRecords := 0, 0, 0;
      registered := seq(MAX_STACKS, _ => []);
    }

    /** ST_init and ST_finish leave nothing published. */
    method Reset()
      requires Valid()
      modifies this`nNextStack, this`nStacks, this`nHpRecords
      ensures Valid() && nStacks == 0 && nHpRecords == 0
    {
      nNextStack := 0;
      nStacks := 0;
      HpReset();
    }

    /** ST_stack_init: an empty hull. */
    method StackInit()
      requires Valid() && nNextStack < MAX_STACKS
      modifies stacks, this`registered
      ensures Valid() && registered == old(registered)[nNextStack := []]
      ensures stacks[..] == old(stacks[..])[nNextStack := Hull(FAR, NULL)]
    {
      stacks[nNextStack] := Hull(FAR, NULL);
      registered := registered[nNextStack := []];
    }

    /** ST_stack_add_range: the hull grows just enough to cover the range. */
    method AddRange(pStack: Address, nBytes: int)
      requires Valid() && nNextStack < MAX_STACKS && 0 <= pStack
      modifies stacks, this`registered
      ensures Valid()
      ensures registered == old(registered)[nNextStack := old(registered)[nNextStack] + [Range(pStack, nBytes)]]
      ensures var h, h' := old(stacks[nNextStack]), stacks[nNextStack];
        && h'.start <= h.start && (h'.start == h.start || h'.start == pStack)
        && h'.end >= h.end && (h'.end == h.end || h'.end == pStack + nBytes)
      ensures stacks[..] == old(stacks[..])[nNextStack := stacks[nNextStack]]
    {
      var start, end := stacks[nNextStack].start, stacks[nNextStack].end;
      if pStack < start {
        stacks[nNextStack] := stacks[nNextStack].(start := pStack);
      }
      if pStack + nBytes > end {
        stacks[nNextStack] := stacks[nNextStack].(end := pStack + nBytes);
      }
      registered := registered[nNextStack := registered[nNextStack] + [Range(pStack, nBytes)]];
    }

    /** ST_stack_publish. */
    method Publish()
      requires Valid() && nStacks < MAX_STACKS
      modifies this`nStacks, this`nNextStack
      ensures Valid() && nStacks == old(nStacks) + 1
      ensures Hulls() == old(Hulls()) + [stacks[old(nStacks)]]
    {
      nStacks := nStacks + 1;
      nNextStack := nStacks;
    }

    /** ST_stack_del. */
    method Del()
      requires Valid() && nStacks > 0
      modifies this`nStacks, this`nNextStack
      ensures Valid() && nStacks == old(nStacks) - 1
      ensures Hulls() == old(Hulls())[..nStacks]
    {
      nStacks := nStacks - 1;
      nNextStack := nStacks;
    }

    method HpReset()
      requires Valid()
      modifies this`nHpRecords
      ensures Valid() && nHpRecords == 0
    {
      nHpRecords := 0;
    }

    /** ST_HP_alloc: the index of the record; the record that would be the last one is refused. */
    method HpAlloc() returns (hp: int, failed: bool)
      requires Valid()
      modifies this`nHpRecords
      ensures hp == old(nHpRecords) && 0 <= hp < hpRecords.Length
      ensures failed <==> old(nHpRecords) + 1 == MAX_HP_RECORDS
      ensures nHpRecords == old(nHpRecords) + 1 && (!failed ==> Valid())
    {
      hp := nHpRecords;
      nHpRecords := nHpRecords + 1;
      failed := nHpRecords >= MAX_HP_RECORDS;
    }

    /** ST_scan_thread_hp_records. */
    method ScanHpRecords(ptr: Address) returns (found: bool)
      requires Valid()
      ensures found <==> ptr in hpRecords[..nHpRecords]
    {
      var i := nHpRecords - 1;
      while i >= 0
        invariant -1 <= i < nHpRecords
        invariant ptr !in hpRecords[i + 1..nHpRecords]
      {
        if hpRecords[i] == ptr {
          return true;
        }
        i := i - 1;
      }
      return false;
    }

    /** ST_scan_thread_stack: byte by byte over every published hull. */
    method ScanStack(memory: seq<Byte>, ptr: nat) returns (found: bool)
      requires Valid() && AllMapped(memory, Hulls())
      ensures found <==> Appears(memory, Hulls(), ptr)
    {
      var i := nStacks - 1;
      while i >= 0
        invariant -1 <= i < nStacks
        invariant forall j, q :: i < j < nStacks && stacks[j].start <= q < stacks[j].end ==>
          0 <= q <= |memory| - WORD_SIZE && LoadWord(memory, q) != ptr
      {
        var start, end := stacks[i].start, stacks[i].end;
        assert Hulls()[i] == stacks[i] && Mapped(memory, stacks[i]);
        var p := start;
        while p < end
          invariant start <= p && (start < end ==> p <= end)
          invariant forall q :: start <= q < p && q < end ==> 0 <= q <= |memory| - WORD_SIZE && LoadWord(memory, q) != ptr
        {
          if LoadWord(memory, p) == ptr {
            assert AppearsIn(memory, Hulls()[i], ptr);
            return true;
          }
          p := p + 1;
        }
        i := i - 1;
      }
      return false;
    }

    /** ST_scan_thread: a pointer is found exactly if a record holds it, on the slow path, or the scan of the stacks
        reads it. */
    method ScanThread(memory: seq<Byte>, ptr: nat, isSlowPath: bool) returns (found: bool)
      requires Valid() && AllMapped(memory, Hulls())
      ensures found <==> (isSlowPath && ptr in hpRecords[..nHpRecords]) || ptr in Words(memory, Hulls())
    {
      found := false;
      if isSlowPath {
        found := ScanHpRecords(ptr);
      }
      if !found {
        found := ScanStack(memory, ptr);
      }
      WordsAppear(memory, Hulls(), ptr);
    }

    /** Any series of ranges, then publish: a pointer stored inside any of them is found. */
    method PublishRanges(ranges: seq<Range>)
      requires Valid() && nStacks < MAX_STACKS && forall r :: r in ranges ==> 0 <= r.start
      modifies this`nStacks, this`nNextStack, stacks, this`registered
      ensures Valid() && nStacks == old(nStacks) + 1 && registered[old(nStacks)] == ranges
      ensures Hulls()[..old(nStacks)] == old(Hulls()) && Covers(Hulls()[old(nStacks)], ranges)
      ensures Hulls()[old(nStacks)] == HullOf(ranges)
    {
      StackInit();
      var i := 0;
      while i < |ranges|
        invariant 0 <= i <= |ranges| && Valid() && nStacks == old(nStacks)
        invariant registered[nStacks] == ranges[..i]
        invariant stacks[nStacks] == HullOf(ranges[..i])
        invariant stacks[..nStacks] == old(Hulls())
      {
        AddRange(ranges[i].start, ranges[i].size);
        assert ranges[..i + 1] == ranges[..i] + [ranges[i]];
        assert stacks[nStacks] == HullOf(ranges[..i + 1]);
        i := i + 1;
      }
      assert ranges[..|ranges|] == ranges;
      Publish();
    }
  }

  /** The hull of a series of ranges: the least start and the greatest end, within the two initial values. */
  function HullOf(ranges: seq<Range>): Hull {
    if ranges == [] then Hull(FAR, NULL)
    else
      var h, r := HullOf(ranges[..|ranges| - 1]), ranges[|ranges| - 1];
      Hull(if r.start < h.start then r.start else h.start, if r.start + r.size > h.end then r.start + r.size else h.end)
  }

  /** The hull covers every range and is no larger than the ranges and the initial values make it. */
  lemma {:induction false} HullIsTight(ranges: seq<Range>)
    ensures Covers(HullOf(ranges), ranges)
    ensures HullOf(ranges).start == FAR || exists r :: r in ranges && HullOf(ranges).start == r.start
    ensures HullOf(ranges).end == NULL || exists r :: r in ranges && HullOf(ranges).end == r.start + r.size
  {
    if ranges != [] {
      HullIsTight(ranges[..|ranges| - 1]);
      assert ranges[|ranges| - 1] in ranges;
    }
  }
}
