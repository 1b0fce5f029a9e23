/** The concurrent skip list of skip-list.c as a machine that takes one shared read,
    write or compare-and-swap per step, for any number of threads.

    The shared memory is a sequence of nodes that only grows: the pure variant never
    frees a node, so a reference is an index that is never reused.  Fields of a node or
    of a thread marked "history" record what has happened; no step reads them. */
module SkipListMachine {

  type Ref = int
  const NULL: Ref := -1
  const UNSET: Ref := -2   // a link slot malloc has handed out and nobody has written yet
  const HEAD: Ref := 0
  const TAIL: Ref := 1

  const MAX_LEVEL: nat := 10
  const MIN_KEY: int := 0
  const MAX_KEY: int := 0x1000_0000

  /** One reference per level: a p_next, p_preds or p_succs array. */
  type Row = s: seq<Ref> | |s| == MAX_LEVEL witness seq(MAX_LEVEL, _ => NULL)

  datatype Node = Node(
    key: int,
    topLevel: int,
    lock: bool,
    marked: bool,
    fullyLinked: bool,
    next: Row,
    ever: int,      // history: levels 0 .. ever-1 have been linked at some time
    now: int,       // history: levels 0 .. now-1 are linked now
    owner: int,     // history: the thread that set `lock`
    creator: int,   // history: the thread that allocated the node
    removing: bool, // history: marked by its owner, who has not let go of it yet
    bypass: Ref,    // history: the predecessor that was redirected around the node last
    taker: int,     // history: the thread that unlinked the node at level 0, or -1
    retired: bool)  // history: the node has been handed to ST_free

  type Heap = seq<Node>

  datatype Op = Contains | Insert | Remove

  /** The step a thread takes next, with the lines of skip-list.c it stands for.
      Numbers, so that a phase is a range. */
  type PC = int
  const IDLE: PC := 0           // between calls
  const F_START: PC := 1        // lines 115-131: start, read p_head->marked
  const F_NEXT: PC := 2         // lines 135, 142: read p_next
  const F_CHECK: PC := 3        // lines 136-154: read p_curr->marked, compare keys
  const C_FULLY: PC := 4        // line 382: read fullyLinked
  const C_MARKED: PC := 5       // line 382: read marked
  const I_FOUND_MARKED: PC := 6 // line 467: read marked
  const I_FOUND_FULLY: PC := 7  // line 468: read fullyLinked
  const I_LOCK: PC := 8         // lines 477-485: lock p_pred
  const I_PRED_MARKED: PC := 9  // line 488: read p_pred->marked
  const I_SUCC_MARKED: PC := 10 // line 488: read p_succ->marked
  const I_PRED_NEXT: PC := 11   // line 488: read p_pred->p_next
  const I_ALLOC: PC := 12       // lines 494-497: the new node
  const I_FILL: PC := 13        // line 499
  const I_LINK: PC := 14        // line 500
  const I_FULL: PC := 15        // line 502
  const R_LOCK: PC := 16        // lines 751-752: lock p_victim
  const R_CHECK: PC := 17       // line 753: read p_victim->marked
  const R_ABANDON: PC := 18     // lines 754-756: unlock p_victim
  const R_MARK: PC := 19        // line 759
  const R_GIVE_UP: PC := 20     // line 793: unlock p_victim
  const R_UNMARK: PC := 21      // line 791
  const R_LOCK_PRED: PC := 22   // lines 767-773: lock p_pred
  const R_PRED_MARKED: PC := 23 // line 774: read p_pred->marked
  const R_PRED_NEXT: PC := 24   // line 774: read p_pred->p_next
  const R_READ: PC := 25        // line 784: read p_victim->p_next
  const R_UNLINK: PC := 26      // line 784: write p_preds[level]->p_next
  const R_NULL: PC := 27        // line 785
  const R_RELEASE: PC := 28     // line 787: unlock p_victim
  const UNLOCK: PC := 29        // lines 507-512, 798-802: unlock the predecessors
  const DONE: PC := 30          // the call returns

  /** A search: what it looks for and the arrays it has filled in. */
  datatype Find = Find(
    key: int,
    lFound: int,
    preds: Row,
    succs: Row,
    start: int)     // history: the log index of the call

  datatype Thread = Thread(
    pc: PC,
    op: Op,
    find: Find,
    topLevel: int,
    level: int,
    pred: Ref,
    curr: Ref,
    highest: int,   // highestLocked
    valid: bool,
    victim: Ref,
    newNode: Ref,
    tmp: Ref,
    ret: bool,
    filling: bool,  // the call is one of the insertions that populate the set before the test
    filled: int,    // how many of those succeeded
    diff: int,      // the benchmark's diff
    retired: seq<Ref>, // the nodes given to ST_free, oldest first
    did: int,       // history: how often this call has changed the abstract set
    bal: int,       // history: level-0 links made minus level-0 links removed by this call
    viaMark: bool)  // history: contains answered 0 from the mark of a node that was still linked

  datatype State = State(heap: Heap, threads: seq<Thread>, log: seq<set<int>>)

  function RowOf(r: Ref): Row {
    seq(MAX_LEVEL, _ => r)
  }

  predicate ValidRef(heap: Heap, r: Ref) {
    0 <= r < |heap|
  }

  predicate ValidLevel(l: int) {
    0 <= l < MAX_LEVEL
  }

  /** The key of some level-0-linked node whose insertion is complete. */
  function Abs(heap: Heap): set<int> {
    set r | 2 <= r < |heap| && 0 < heap[r].now && heap[r].fullyLinked :: heap[r].key
  }

  /** `if (level == 0 || p_preds[level] != p_preds[level - 1])` */
  predicate FirstAt(th: Thread, level: int)
    requires ValidLevel(level)
  {
    level == 0 || th.find.preds[level] != th.find.preds[level - 1]
  }

  /** The pointers that the next step dereferences are nodes, and the link slot it reads has been written. */
  predicate Safe(heap: Heap, th: Thread) {
    if th.pc == IDLE || th.pc == DONE then true
    else if th.pc == F_START then ValidRef(heap, HEAD)
    else if th.pc == F_NEXT then
      ValidLevel(th.level) && ValidRef(heap, th.pred) && heap[th.pred].next[th.level] != UNSET
    else if th.pc == F_CHECK then ValidLevel(th.level) && ValidRef(heap, th.curr)
    else if th.pc == C_FULLY || th.pc == C_MARKED || th.pc == I_FOUND_MARKED || th.pc == I_FOUND_FULLY then
      ValidLevel(th.find.lFound) && ValidRef(heap, th.find.succs[th.find.lFound])
    else if th.pc == I_LOCK || th.pc == I_PRED_MARKED || th.pc == R_LOCK_PRED || th.pc == R_PRED_MARKED then
      ValidLevel(th.level) && ValidRef(heap, th.find.preds[th.level])
    else if th.pc == I_SUCC_MARKED then ValidLevel(th.level) && ValidRef(heap, th.find.succs[th.level])
    else if th.pc == I_PRED_NEXT || th.pc == R_PRED_NEXT then
      ValidLevel(th.level) && ValidRef(heap, th.find.preds[th.level]) && heap[th.find.preds[th.level]].next[th.level] != UNSET
    else if th.pc == I_ALLOC then true
    else if th.pc == I_FILL then ValidLevel(th.level) && ValidRef(heap, th.newNode)
    else if th.pc == I_LINK then
      ValidLevel(th.level) && ValidRef(heap, th.newNode) && ValidRef(heap, th.find.preds[th.level])
    else if th.pc == I_FULL then ValidRef(heap, th.newNode)
    else if th.pc == R_LOCK || th.pc == R_CHECK || th.pc == R_ABANDON || th.pc == R_MARK || th.pc == R_RELEASE
            || th.pc == R_UNMARK || th.pc == R_GIVE_UP then
      ValidRef(heap, th.victim)
    else if th.pc == R_READ then
      ValidLevel(th.level) && ValidRef(heap, th.victim) && heap[th.victim].next[th.level] != UNSET
    else if th.pc == R_UNLINK then
      ValidLevel(th.level) && ValidRef(heap, th.victim) && ValidRef(heap, th.find.preds[th.level])
    else if th.pc == R_NULL then ValidLevel(th.level) && ValidRef(heap, th.victim)
    else if th.pc == UNLOCK then ValidLevel(th.level) && ValidRef(heap, th.find.preds[th.level])
    else false
  }

  /** The node whose lock the next step takes, or NULL. */
  function Wants(th: Thread): Ref {
    if (th.pc == I_LOCK || th.pc == R_LOCK_PRED) && ValidLevel(th.level) && FirstAt(th, th.level) then th.find.preds[th.level]
    else if th.pc == R_LOCK then th.victim
    else NULL
  }

  /** sl_node_lock_slow_path keeps spinning. */
  predicate Blocked(heap: Heap, th: Thread) {
    ValidRef(heap, Wants(th)) && heap[Wants(th)].lock
  }

  // ----- writes to shared memory -----

  function SetLock(heap: Heap, r: Ref, t: int): Heap
    requires ValidRef(heap, r)
  {
    heap[r := heap[r].(lock := true, owner := t)]
  }

  function ClearLock(heap: Heap, r: Ref): Heap
    requires ValidRef(heap, r)
  {
    heap[r := heap[r].(lock := false, removing := false)]
  }

  function SetMark(heap: Heap, r: Ref): Heap
    requires ValidRef(heap, r)
  {
    heap[r := heap[r].(marked := true, removing := true)]
  }

  function ClearMark(heap: Heap, r: Ref): Heap
    requires ValidRef(heap, r)
  {
    heap[r := heap[r].(marked := false, removing := false)]
  }

  function Fresh(key: int, topLevel: int, t: int): Node {
    Node(key, topLevel, false, false, false, RowOf(UNSET), 0, 0, -1, t, false, NULL, -1, false)
  }

  function Fill(heap: Heap, n: Ref, level: int, succ: Ref): Heap
    requires ValidRef(heap, n) && ValidLevel(level)
  {
    heap[n := heap[n].(next := heap[n].next[level := succ])]
  }

  function Link(heap: Heap, p: Ref, n: Ref, level: int): Heap
    requires ValidRef(heap, p) && ValidRef(heap, n) && ValidLevel(level)
  {
    var heap1 := heap[n := heap[n].(now := level + 1, ever := level + 1)];
    heap1[p := heap1[p].(next := heap1[p].next[level := n])]
  }

  function SetFully(heap: Heap, n: Ref): Heap
    requires ValidRef(heap, n)
  {
    heap[n := heap[n].(fullyLinked := true)]
  }

  function Unlinked(heap: Heap, p: Ref, v: Ref, level: int, succ: Ref, t: int): Heap
    requires ValidRef(heap, p) && ValidRef(heap, v) && ValidLevel(level)
  {
    var heap1 := heap[v := heap[v].(now := level, bypass := p, taker := if level == 0 then t else heap[v].taker)];
    heap1[p := heap1[p].(next := heap1[p].next[level := succ])]
  }

  function Nulled(heap: Heap, v: Ref, level: int): Heap
    requires ValidRef(heap, v) && ValidLevel(level)
  {
    heap[v := heap[v].(next := heap[v].next[level := NULL])]
  }

  function Handed(heap: Heap, v: Ref): Heap
    requires ValidRef(heap, v)
  {
    heap[v := heap[v].(retired := true)]
  }

  // ----- sl_find_pure -----

  function DoFStart(heap: Heap, th: Thread): Thread
    requires ValidRef(heap, HEAD)
  {
    if heap[HEAD].marked then th
    else th.(pc := F_NEXT, find := th.find.(lFound := -1), pred := HEAD, level := MAX_LEVEL - 1)
  }

  function DoFNext(heap: Heap, th: Thread): Thread
    requires ValidLevel(th.level) && ValidRef(heap, th.pred)
  {
    var c := heap[th.pred].next[th.level];
    if c == NULL then th.(pc := F_START) else th.(pc := F_CHECK, curr := c)
  }

  /** Lines 148-153: the level at which the key was first seen, and one more level of the arrays. */
  function Record(find: Find, level: int, pred: Ref, curr: Ref, key: int): Find
    requires ValidLevel(level)
  {
    Find(find.key, if find.lFound == -1 && find.key == key then level else find.lFound,
         find.preds[level := pred], find.succs[level := curr], find.start)
  }

  /** Reads p_curr->marked; the keys it compares never change. */
  function DoFCheck(heap: Heap, th: Thread): Thread
    requires ValidLevel(th.level) && ValidRef(heap, th.curr)
  {
    if heap[th.curr].marked then th.(pc := F_START)
    else if th.find.key > heap[th.curr].key then th.(pc := F_NEXT, pred := th.curr)
    else
      var th1 := th.(find := Record(th.find, th.level, th.pred, th.curr, heap[th.curr].key));
      if th.level > 0 then th1.(pc := F_NEXT, level := th.level - 1) else AfterFind(th1)
  }

  /** What the three operations do with the result of the search. */
  function AfterFind(th: Thread): Thread {
    match th.op
    case Contains =>
      if th.find.lFound == -1 then th.(pc := DONE, ret := false) else th.(pc := C_FULLY)
    case Insert =>
      if th.find.lFound == -1 then th.(pc := I_LOCK, level := 0, highest := -1, valid := true) else th.(pc := I_FOUND_MARKED)
    case Remove =>
      if ValidLevel(th.find.lFound) then th.(pc := R_LOCK, victim := th.find.succs[th.find.lFound]) else th.(pc := DONE, ret := false)
  }

  // ----- skiplist_contains_pure -----

  function DoCFully(heap: Heap, th: Thread): Thread
    requires ValidLevel(th.find.lFound) && ValidRef(heap, th.find.succs[th.find.lFound])
  {
    if heap[th.find.succs[th.find.lFound]].fullyLinked then th.(pc := C_MARKED) else th.(pc := DONE, ret := false)
  }

  function DoCMarked(heap: Heap, th: Thread): Thread
    requires ValidLevel(th.find.lFound) && ValidRef(heap, th.find.succs[th.find.lFound])
  {
    var n := heap[th.find.succs[th.find.lFound]];
    th.(pc := DONE, ret := !n.marked, viaMark := n.marked && 0 < n.now)
  }

  // ----- skiplist_insert_pure -----

  function DoIFoundMarked(heap: Heap, th: Thread): Thread
    requires ValidLevel(th.find.lFound) && ValidRef(heap, th.find.succs[th.find.lFound])
  {
    if heap[th.find.succs[th.find.lFound]].marked then th.(pc := F_START) else th.(pc := I_FOUND_FULLY)
  }

  function DoIFoundFully(heap: Heap, th: Thread): Thread
    requires ValidLevel(th.find.lFound) && ValidRef(heap, th.find.succs[th.find.lFound])
  {
    if heap[th.find.succs[th.find.lFound]].fullyLinked then th.(pc := DONE, ret := false) else th
  }

  function DoLockPred(th: Thread, pc: PC): Thread {
    th.(pc := pc, highest := th.level)
  }

  function DoIPredMarked(heap: Heap, th: Thread): Thread
    requires ValidLevel(th.level) && ValidRef(heap, th.find.preds[th.level])
  {
    if heap[th.find.preds[th.level]].marked then StartUnlock(th.(valid := false)) else th.(pc := I_SUCC_MARKED)
  }

  function DoISuccMarked(heap: Heap, th: Thread): Thread
    requires ValidLevel(th.level) && ValidRef(heap, th.find.succs[th.level])
  {
    if heap[th.find.succs[th.level]].marked then StartUnlock(th.(valid := false)) else th.(pc := I_PRED_NEXT)
  }

  function DoIPredNext(heap: Heap, th: Thread): Thread
    requires ValidLevel(th.level) && ValidRef(heap, th.find.preds[th.level])
  {
    if heap[th.find.preds[th.level]].next[th.level] != th.find.succs[th.level] then StartUnlock(th.(valid := false))
    else if th.level < th.topLevel then th.(pc := I_LOCK, level := th.level + 1)
    else th.(pc := I_ALLOC)
  }

  function DoIAlloc(heap: Heap, th: Thread): Thread {
    th.(pc := I_FILL, newNode := |heap|, level := 0)
  }

  function DoIFill(th: Thread): Thread {
    th.(pc := I_LINK)
  }

  function DoILink(th: Thread): Thread {
    var th1 := th.(bal := if th.level == 0 then th.bal + 1 else th.bal);
    if th.level < th.topLevel then th1.(pc := I_FILL, level := th.level + 1) else th1.(pc := I_FULL)
  }

  function DoIFull(th: Thread): Thread {
    StartUnlock(th.(did := th.did + 1))
  }

  function StartUnlock(th: Thread): Thread {
    th.(pc := UNLOCK, level := 0)
  }

  function DoUnlock(th: Thread): Thread {
    if th.level < th.highest then th.(level := th.level + 1)
    else if th.valid then th.(pc := DONE, ret := true)
    else th.(pc := F_START)
  }

  // ----- skiplist_remove_pure -----
  // isMarked is 0 whenever the loop starts over, so the test of lines 747-748 never looks past `!isMarked`.

  function DoRLock(heap: Heap, th: Thread): Thread
    requires ValidRef(heap, th.victim)
  {
    th.(pc := R_CHECK, topLevel := heap[th.victim].topLevel)
  }

  function DoRCheck(heap: Heap, th: Thread): Thread
    requires ValidRef(heap, th.victim)
  {
    th.(pc := if heap[th.victim].marked then R_ABANDON else R_MARK)
  }

  function DoRAbandon(th: Thread): Thread {
    th.(pc := DONE, ret := false)
  }

  function DoRMark(th: Thread): Thread {
    th.(pc := R_LOCK_PRED, level := 0, highest := -1, valid := true)
  }

  function DoRPredMarked(heap: Heap, th: Thread): Thread
    requires ValidLevel(th.level) && ValidRef(heap, th.find.preds[th.level])
  {
    if heap[th.find.preds[th.level]].marked then th.(pc := R_UNMARK, valid := false) else th.(pc := R_PRED_NEXT)
  }

  function DoRPredNext(heap: Heap, th: Thread): Thread
    requires ValidLevel(th.level) && ValidRef(heap, th.find.preds[th.level])
  {
    if heap[th.find.preds[th.level]].next[th.level] != th.victim then th.(pc := R_UNMARK, valid := false)
    else if th.level < th.topLevel then th.(pc := R_LOCK_PRED, level := th.level + 1)
    else th.(pc := R_READ, level := th.topLevel)
  }

  function DoRRead(heap: Heap, th: Thread): Thread
    requires ValidLevel(th.level) && ValidRef(heap, th.victim)
  {
    th.(pc := R_UNLINK, tmp := heap[th.victim].next[th.level])
  }

  function DoRUnlink(th: Thread): Thread {
    if th.level == 0 then th.(pc := R_NULL, did := th.did + 1, bal := th.bal - 1) else th.(pc := R_NULL)
  }

  function DoRNull(th: Thread): Thread {
    if th.level > 0 then th.(pc := R_READ, level := th.level - 1) else th.(pc := R_RELEASE)
  }

  function DoRUnmark(th: Thread): Thread {
    th.(pc := R_GIVE_UP)
  }

  // ----- the benchmark's calls and its accounting -----

  function DoCall(th: Thread, op: Op, key: int, height: int, filling: bool, now: int): Thread {
    th.(pc := F_START, op := op, find := Find(key, -1, RowOf(NULL), RowOf(NULL), now), topLevel := height,
        filling := filling, ret := false, did := 0, bal := 0, viaMark := false)
  }

  function DoReturn(th: Thread): Thread {
    var th1 := th.(pc := IDLE, did := 0, bal := 0);
    match th.op
    case Contains => th1
    case Insert =>
      if !th.ret then th1 else if th.filling then th1.(filled := th.filled + 1) else th1.(diff := th.diff + 1)
    case Remove =>
      if !th.ret then th1 else th1.(diff := th.diff - 1, retired := th.retired + [th.victim])
  }

  // ----- one step of thread t -----

  function ExecHeap(heap: Heap, th: Thread, t: int): Heap
    requires Safe(heap, th)
    requires th.pc == DONE && th.op.Remove? && th.ret ==> ValidRef(heap, th.victim)
  {
    if th.pc == I_LOCK || th.pc == R_LOCK_PRED then (if FirstAt(th, th.level) then SetLock(heap, th.find.preds[th.level], t) else heap)
    else if th.pc == R_LOCK then SetLock(heap, th.victim, t)
    else if th.pc == I_ALLOC then heap + [Fresh(th.find.key, th.topLevel, t)]
    else if th.pc == I_FILL then Fill(heap, th.newNode, th.level, th.find.succs[th.level])
    else if th.pc == I_LINK then Link(heap, th.find.preds[th.level], th.newNode, th.level)
    else if th.pc == I_FULL then SetFully(heap, th.newNode)
    else if th.pc == R_ABANDON || th.pc == R_RELEASE || th.pc == R_GIVE_UP then ClearLock(heap, th.victim)
    else if th.pc == R_MARK then SetMark(heap, th.victim)
    else if th.pc == R_UNMARK then ClearMark(heap, th.victim)
    else if th.pc == R_UNLINK then Unlinked(heap, th.find.preds[th.level], th.victim, th.level, th.tmp, t)
    else if th.pc == R_NULL then Nulled(heap, th.victim, th.level)
    else if th.pc == UNLOCK then (if FirstAt(th, th.level) then ClearLock(heap, th.find.preds[th.level]) else heap)
    else if th.pc == DONE then (if th.op.Remove? && th.ret then Handed(heap, th.victim) else heap)
    else heap
  }

  function ExecThread(heap: Heap, th: Thread): Thread
    requires Safe(heap, th)
  {
    if th.pc == IDLE then th
    else if th.pc == F_START then DoFStart(heap, th)
    else if th.pc == F_NEXT then DoFNext(heap, th)
    else if th.pc == F_CHECK then DoFCheck(heap, th)
    else if th.pc == C_FULLY then DoCFully(heap, th)
    else if th.pc == C_MARKED then DoCMarked(heap, th)
    else if th.pc == I_FOUND_MARKED then DoIFoundMarked(heap, th)
    else if th.pc == I_FOUND_FULLY then DoIFoundFully(heap, th)
    else if th.pc == I_LOCK then DoLockPred(th, I_PRED_MARKED)
    else if th.pc == I_PRED_MARKED then DoIPredMarked(heap, th)
    else if th.pc == I_SUCC_MARKED then DoISuccMarked(heap, th)
    else if th.pc == I_PRED_NEXT then DoIPredNext(heap, th)
    else if th.pc == I_ALLOC then DoIAlloc(heap, th)
    else if th.pc == I_FILL then DoIFill(th)
    else if th.pc == I_LINK then DoILink(th)
    else if th.pc == I_FULL then DoIFull(th)
    else if th.pc == R_LOCK then DoRLock(heap, th)
    else if th.pc == R_CHECK then DoRCheck(heap, th)
    else if th.pc == R_ABANDON then DoRAbandon(th)
    else if th.pc == R_MARK then DoRMark(th)
    else if th.pc == R_LOCK_PRED then DoLockPred(th, R_PRED_MARKED)
    else if th.pc == R_PRED_MARKED then DoRPredMarked(heap, th)
    else if th.pc == R_PRED_NEXT then DoRPredNext(heap, th)
    else if th.pc == R_READ then DoRRead(heap, th)
    else if th.pc == R_UNLINK then DoRUnlink(th)
    else if th.pc == R_NULL then DoRNull(th)
    else if th.pc == R_RELEASE then StartUnlock(th)
    else if th.pc == R_UNMARK then DoRUnmark(th)
    else if th.pc == R_GIVE_UP then StartUnlock(th)
    else if th.pc == UNLOCK then DoUnlock(th)
    else if th.pc == DONE then DoReturn(th)
    else th
  }

  datatype Action = Call(op: Op, key: int, height: int, filling: bool) | Go

  predicate Enabled(s: State, t: int, a: Action) {
    && 0 <= t < |s.threads|
    && var th := s.threads[t];
       match a
       case Call(op, key, height, filling) =>
         th.pc == IDLE && MIN_KEY < key < MAX_KEY && 0 <= height < MAX_LEVEL && (filling ==> op.Insert?)
       case Go =>
         && th.pc != IDLE && Safe(s.heap, th) && !Blocked(s.heap, th)
         && (th.pc == DONE && th.op.Remove? && th.ret ==> ValidRef(s.heap, th.victim))
  }

  function Apply(s: State, t: int, a: Action): State
    requires Enabled(s, t, a)
  {
    var th := s.threads[t];
    match a
    case Call(op, key, height, filling) =>
      State(s.heap, s.threads[t := DoCall(th, op, key, height, filling, |s.log|)], s.log + [Abs(s.heap)])
    case Go =>
      var heap := ExecHeap(s.heap, th, t);
      State(heap, s.threads[t := ExecThread(s.heap, th)], s.log + [Abs(heap)])
  }

  /** skiplist_init: head and tail, every level of the head linked to the tail. */
  const INITIAL_HEAP: Heap :=
    [ Node(MIN_KEY, MAX_LEVEL - 1, false, false, false, RowOf(TAIL), MAX_LEVEL, MAX_LEVEL, -1, -1, false, NULL, -1, false),
      Node(MAX_KEY, MAX_LEVEL - 1, false, false, false, RowOf(NULL), MAX_LEVEL, MAX_LEVEL, -1, -1, false, NULL, -1, false) ]

  const RESTING: Thread :=
    Thread(IDLE, Contains, Find(1, -1, RowOf(NULL), RowOf(NULL), 0), 0, 0, NULL, NULL, -1, true, NULL, NULL, NULL,
           false, false, 0, 0, [], 0, 0, false)

  predicate Init(s: State) {
    && s.heap == INITIAL_HEAP
    && (forall t :: 0 <= t < |s.threads| ==> s.threads[t] == RESTING)
    && s.log == [Abs(s.heap)]
  }

  ghost predicate Step(s: State, s': State) {
    exists t, a :: Enabled(s, t, a) && s' == Apply(s, t, a)
  }

  ghost predicate StepAt(run: seq<State>, i: nat)
    requires 0 < i < |run|
  {
    Step(run[i - 1], run[i])
  }

  /** A finite run: it begins in an initial state and each state is a step from the one before. */
  ghost predicate Run(run: seq<State>) {
    && |run| > 0
    && Init(run[0])
    && forall i :: 0 < i < |run| ==> StepAt(run, i)
  }

  /** A thread and what it does. */
  datatype Move = Move(thread: int, action: Action)

  ghost predicate MoveAt(run: seq<State>, moves: seq<Move>, i: nat)
    requires 0 < i < |run| && i < |moves|
  {
    var m := moves[i];
    Enabled(run[i - 1], m.thread, m.action) && run[i] == Apply(run[i - 1], m.thread, m.action)
  }

  /** A run together with its moves: moves[i] leads to state i (and moves[0] stands for nothing). */
  ghost predicate Trace(run: seq<State>, moves: seq<Move>) {
    && |moves| == |run| > 0 && Init(run[0])
    && forall i :: 0 < i < |run| ==> MoveAt(run, moves, i)
  }
}
