/** What holds of the heap and of every thread between any two steps. */
module SkipListInvariant {
  import opened SkipListMachine

  // ----- the heap -----

  /** Node r is linked at level l. */
  ghost predicate Linked(heap: Heap, r: Ref, l: int) {
    ValidRef(heap, r) && 0 <= l < heap[r].now
  }

  ghost predicate Held(heap: Heap, r: Ref, t: int) {
    ValidRef(heap, r) && heap[r].lock && heap[r].owner == t
  }

  ghost predicate Sentinels(heap: Heap) {
    && |heap| >= 2
    && heap[HEAD].key == MIN_KEY && heap[TAIL].key == MAX_KEY
    && (forall r :: r == HEAD || r == TAIL ==>
          && !heap[r].marked && !heap[r].removing && !heap[r].retired && heap[r].taker == -1 && heap[r].creator == -1
          && heap[r].now == MAX_LEVEL && heap[r].ever == MAX_LEVEL && heap[r].topLevel == MAX_LEVEL - 1)
    && (forall j :: 0 <= j < MAX_LEVEL ==> heap[HEAD].next[j] != NULL && heap[HEAD].next[j] != UNSET)
    && (forall j :: 0 <= j < MAX_LEVEL ==> heap[TAIL].next[j] == NULL)
  }

  /** A node of its own: how its marks, its links and its history fit together. */
  ghost predicate NodeOk(n: Node) {
    && MIN_KEY < n.key < MAX_KEY
    && 0 <= n.topLevel < MAX_LEVEL
    && 0 <= n.now <= n.ever <= n.topLevel + 1
    && (n.fullyLinked ==> n.ever == n.topLevel + 1)
    && (!n.fullyLinked ==> n.now == n.ever)
    && (!n.marked ==> n.now == n.ever)
    && (n.removing ==> n.lock && n.marked)
    && (n.marked && !n.removing ==> n.now == 0 && n.fullyLinked)
    && (n.taker >= 0 <==> n.fullyLinked && n.now == 0)
    && (n.retired ==> n.taker >= 0)
    && (forall j :: 0 <= n.topLevel < j < MAX_LEVEL ==> n.next[j] == UNSET)
    && (forall j :: 0 <= j < n.ever ==>
          && n.next[j] != UNSET
          && (j < n.now ==> n.next[j] != NULL)
          && (n.now < j ==> n.next[j] == NULL)
          && (n.now == j && n.next[j] != NULL ==> n.removing))
  }

  ghost predicate Nodes(heap: Heap) {
    forall r :: 2 <= r < |heap| ==> NodeOk(heap[r])
  }

  /** No node linked at level j has a key strictly between a and b. */
  ghost predicate Gap(heap: Heap, a: int, b: int, j: int) {
    forall z :: Linked(heap, z, j) ==> heap[z].key <= a || heap[z].key >= b
  }

  /** A link that has been part of level j leads to the next linked node in key order. */
  ghost predicate LinkOk(heap: Heap, r: Ref, j: int)
    requires ValidRef(heap, r) && ValidLevel(j)
  {
    heap[r].next[j] != NULL ==>
      && Linked(heap, heap[r].next[j], j)
      && heap[r].key < heap[heap[r].next[j]].key
      && Gap(heap, heap[r].key, heap[heap[r].next[j]].key, j)
  }

  ghost predicate Links(heap: Heap) {
    forall r, j :: ValidRef(heap, r) && ValidLevel(j) && j < heap[r].ever ==> LinkOk(heap, r, j)
  }

  /** Between lines 784 and 785 the victim still shows its old successor; the remover holds the bypassing predecessor. */
  ghost predicate DanglingOk(heap: Heap, r: Ref)
    requires ValidRef(heap, r)
  {
    0 <= heap[r].now < heap[r].ever && heap[r].now < MAX_LEVEL && heap[r].next[heap[r].now] != NULL ==>
      && Linked(heap, heap[r].bypass, heap[r].now)
      && heap[heap[r].bypass].next[heap[r].now] == heap[r].next[heap[r].now]
      && heap[heap[r].bypass].key < heap[r].key
      && Held(heap, heap[r].bypass, heap[r].owner)
  }

  ghost predicate Dangling(heap: Heap) {
    forall r :: ValidRef(heap, r) ==> DanglingOk(heap, r)
  }

  /** Keys identify the level-0-linked nodes. */
  ghost predicate Unique(heap: Heap) {
    forall x, z :: Linked(heap, x, 0) && Linked(heap, z, 0) && heap[x].key == heap[z].key ==> x == z
  }

  /** Until an insertion is complete its thread holds the level-0 predecessor of the new node. */
  ghost predicate GuardedOk(heap: Heap, p: Ref) {
    Linked(heap, p, 0) && 2 <= heap[p].next[0] < |heap| && !heap[heap[p].next[0]].fullyLinked ==>
      Held(heap, p, heap[heap[p].next[0]].creator)
  }

  ghost predicate Guarded(heap: Heap) {
    forall p :: ValidRef(heap, p) ==> GuardedOk(heap, p)
  }

  ghost predicate HeapInv(heap: Heap) {
    Sentinels(heap) && Nodes(heap) && Links(heap) && Dangling(heap) && Unique(heap) && Guarded(heap)
  }

  // ----- a thread -----

  ghost predicate SawAbsent(log: seq<set<int>>, start: int, key: int) {
    exists i :: 0 <= start <= i < |log| && key !in log[i]
  }

  ghost predicate SawPresent(log: seq<set<int>>, start: int, key: int) {
    exists i :: 0 <= start <= i < |log| && key in log[i]
  }

  /** Level l of p_preds and p_succs brackets the key. */
  ghost predicate Brackets(heap: Heap, find: Find, l: int)
    requires ValidLevel(l)
  {
    && ValidRef(heap, find.preds[l]) && ValidRef(heap, find.succs[l])
    && l < heap[find.preds[l]].ever && l < heap[find.succs[l]].ever
    && heap[find.preds[l]].key < find.key <= heap[find.succs[l]].key
    && (find.lFound == -1 ==> find.key < heap[find.succs[l]].key)
  }

  ghost predicate KeyBelow(heap: Heap, a: Ref, b: Ref) {
    ValidRef(heap, a) && ValidRef(heap, b) && heap[a].key < heap[b].key
  }

  /** Levels lo and above are filled in, and the predecessors descend in key order as the level rises. */
  ghost predicate RowOk(heap: Heap, find: Find, lo: int) {
    && (forall l :: 0 <= lo <= l < MAX_LEVEL ==> Brackets(heap, find, l))
    && (forall i, j :: 0 <= lo <= i < j < MAX_LEVEL ==>
          find.preds[i] == find.preds[j] || KeyBelow(heap, find.preds[j], find.preds[i]))
  }

  ghost predicate SawNode(heap: Heap, find: Find, log: seq<set<int>>, r: Ref) {
    && 2 <= r < |heap| && heap[r].key == find.key && 0 < heap[r].ever
    && (0 < heap[r].now || SawAbsent(log, find.start, find.key))
  }

  ghost predicate FoundOk(heap: Heap, find: Find, log: seq<set<int>>, lo: int) {
    find.lFound != -1 ==> 0 <= lo <= find.lFound < MAX_LEVEL && SawNode(heap, find, log, find.succs[find.lFound])
  }

  /** The predecessors recorded above a level do not lie beyond the node the search is at. */
  ghost predicate Above(heap: Heap, preds: Row, level: int, pred: Ref) {
    forall j :: 0 <= level < j < MAX_LEVEL ==> preds[j] == pred || KeyBelow(heap, preds[j], pred)
  }

  ghost predicate Searching(heap: Heap, th: Thread, log: seq<set<int>>) {
    && ValidLevel(th.level)
    && ValidRef(heap, th.pred) && th.level < heap[th.pred].ever && heap[th.pred].key < th.find.key
    && RowOk(heap, th.find, th.level + 1)
    && Above(heap, th.find.preds, th.level, th.pred)
    && FoundOk(heap, th.find, log, th.level + 1)
  }

  ghost predicate AtNode(heap: Heap, th: Thread, log: seq<set<int>>) {
    && ValidRef(heap, th.curr) && th.level < heap[th.curr].ever
    && KeyBelow(heap, th.pred, th.curr)
    && (heap[th.curr].key == th.find.key ==> SawNode(heap, th.find, log, th.curr))
    && (th.level == 0 && th.find.key < heap[th.curr].key ==> SawAbsent(log, th.find.start, th.find.key))
  }

  /** The search is over. */
  ghost predicate Searched(heap: Heap, find: Find, log: seq<set<int>>) {
    && RowOk(heap, find, 0)
    && FoundOk(heap, find, log, 0)
    && (find.lFound == -1 ==> SawAbsent(log, find.start, find.key))
  }

  /** Levels below n: the predecessor is unmarked and leads to the recorded successor. */
  ghost predicate Validated(heap: Heap, find: Find, n: int) {
    forall j :: 0 <= j < n && j < MAX_LEVEL ==>
      ValidRef(heap, find.preds[j]) && !heap[find.preds[j]].marked && heap[find.preds[j]].next[j] == find.succs[j]
  }

  ghost predicate Inserting(heap: Heap, th: Thread, log: seq<set<int>>) {
    && th.op.Insert? && th.find.lFound == -1 && th.valid && Searched(heap, th.find, log)
    && 0 <= th.level <= th.topLevel < MAX_LEVEL
  }

  ghost predicate PredUnmarked(heap: Heap, find: Find, level: int) {
    ValidLevel(level) && ValidRef(heap, find.preds[level]) && !heap[find.preds[level]].marked
  }

  /** Below level n the predecessors lead to the new node, from n to topLevel to the recorded successors. */
  ghost predicate Spliced(heap: Heap, find: Find, topLevel: int, newNode: Ref, n: int) {
    forall j :: 0 <= j <= topLevel ==>
      && j < MAX_LEVEL && ValidRef(heap, find.preds[j]) && !heap[find.preds[j]].marked
      && heap[find.preds[j]].next[j] == if j < n then newNode else find.succs[j]
  }

  /** The new node is linked below level n and nowhere else. */
  ghost predicate Linking(heap: Heap, th: Thread, t: int, n: int) {
    && th.highest == th.topLevel && 0 <= n <= th.topLevel + 1
    && 2 <= th.newNode < |heap|
    && heap[th.newNode].key == th.find.key && heap[th.newNode].topLevel == th.topLevel
    && heap[th.newNode].creator == t && !heap[th.newNode].fullyLinked
    && heap[th.newNode].now == n && heap[th.newNode].ever == n
    && Spliced(heap, th.find, th.topLevel, th.newNode, n)
  }

  ghost predicate Untouched(heap: Heap, n: Ref, lo: int)
    requires ValidRef(heap, n)
  {
    forall j :: 0 <= lo <= j < MAX_LEVEL ==> heap[n].next[j] == UNSET
  }

  ghost predicate Victim(heap: Heap, th: Thread, log: seq<set<int>>) {
    && th.op.Remove? && Searched(heap, th.find, log) && SawNode(heap, th.find, log, th.victim)
  }

  ghost predicate RValidated(heap: Heap, find: Find, victim: Ref, n: int) {
    && (forall j :: 0 <= j < n && j < MAX_LEVEL ==>
          ValidRef(heap, find.preds[j]) && !heap[find.preds[j]].marked && heap[find.preds[j]].next[j] == victim)
    && (0 < n ==> ValidRef(heap, victim) && heap[victim].fullyLinked)
  }

  ghost predicate MarkedVictim(heap: Heap, th: Thread, log: seq<set<int>>) {
    && Victim(heap, th, log)
    && heap[th.victim].topLevel == th.topLevel < MAX_LEVEL
    && heap[th.victim].removing
  }

  ghost predicate Validating(heap: Heap, th: Thread, log: seq<set<int>>) {
    && MarkedVictim(heap, th, log) && th.valid && 0 <= th.level <= th.topLevel
    && heap[th.victim].now == heap[th.victim].ever
    && RValidated(heap, th.find, th.victim, th.level)
  }

  /** The victim is linked below level n only; its links above n are NULL. */
  ghost predicate Unlinking(heap: Heap, th: Thread, log: seq<set<int>>, n: int) {
    && MarkedVictim(heap, th, log) && th.valid && th.highest == th.topLevel
    && 0 <= th.level <= th.topLevel
    && heap[th.victim].fullyLinked && heap[th.victim].now == n
    && RValidated(heap, th.find, th.victim, n)
  }

  /** t has unlinked v and not yet handed it to ST_free. */
  ghost predicate Owned(heap: Heap, v: Ref, t: int) {
    ValidRef(heap, v) && heap[v].taker == t && !heap[v].retired
  }

  ghost predicate SearchPhase(heap: Heap, th: Thread, log: seq<set<int>>) {
    && Searching(heap, th, log)
    && (th.pc == F_CHECK ==> AtNode(heap, th, log))
  }

  ghost predicate FoundPhase(heap: Heap, th: Thread, log: seq<set<int>>) {
    && th.find.lFound != -1 && Searched(heap, th.find, log)
    && th.op == (if th.pc == C_FULLY || th.pc == C_MARKED then Contains else Insert)
    && (th.pc == C_MARKED ==> heap[th.find.succs[th.find.lFound]].fullyLinked)
    && (th.pc == I_FOUND_FULLY ==> SawPresent(log, th.find.start, th.find.key) || !heap[th.find.succs[th.find.lFound]].fullyLinked)
  }

  ghost predicate LockPhase(heap: Heap, th: Thread, log: seq<set<int>>) {
    && Inserting(heap, th, log)
    && th.highest == (if th.pc == I_LOCK then th.level - 1 else if th.pc == I_ALLOC then th.topLevel else th.level)
    && Validated(heap, th.find, if th.pc == I_ALLOC then th.topLevel + 1 else th.level)
    && (th.pc == I_SUCC_MARKED || th.pc == I_PRED_NEXT ==> PredUnmarked(heap, th.find, th.level))
  }

  /** How many levels of the new node are linked. */
  ghost function LinkedSoFar(th: Thread): int {
    if th.pc == I_FULL then th.topLevel + 1 else th.level
  }

  ghost predicate LinkPhase(heap: Heap, th: Thread, t: int, log: seq<set<int>>) {
    && Inserting(heap, th, log)
    && Linking(heap, th, t, LinkedSoFar(th))
    && Untouched(heap, th.newNode, if th.pc == I_LINK then th.level + 1 else LinkedSoFar(th))
    && (th.pc == I_LINK ==> heap[th.newNode].next[th.level] == th.find.succs[th.level])
  }

  ghost predicate VictimPhase(heap: Heap, th: Thread, log: seq<set<int>>) {
    && Victim(heap, th, log)
    && (th.pc == R_CHECK || th.pc == R_MARK ==> heap[th.victim].topLevel == th.topLevel)
    && (th.pc == R_ABANDON ==> heap[th.victim].marked && heap[th.victim].now == 0)
    && (th.pc == R_MARK || th.pc == R_GIVE_UP ==> !heap[th.victim].marked)
    && (th.pc == R_UNMARK ==> MarkedVictim(heap, th, log) && heap[th.victim].now == heap[th.victim].ever)
    && (th.pc == R_UNMARK || th.pc == R_GIVE_UP ==> !th.valid && 0 <= th.highest <= th.topLevel < MAX_LEVEL)
  }

  ghost predicate CheckPhase(heap: Heap, th: Thread, log: seq<set<int>>) {
    && Validating(heap, th, log)
    && th.highest == (if th.pc == R_LOCK_PRED then th.level - 1 else th.level)
    && (th.pc == R_PRED_NEXT ==> PredUnmarked(heap, th.find, th.level))
  }

  /** How many levels of the victim are still linked. */
  ghost function LinkedStill(th: Thread): int {
    if th.pc == R_READ || th.pc == R_UNLINK then th.level + 1 else if th.pc == R_NULL then th.level else 0
  }

  ghost predicate UnlinkPhase(heap: Heap, th: Thread, t: int, log: seq<set<int>>) {
    && Unlinking(heap, th, log, LinkedStill(th))
    && ((th.pc == R_READ || th.pc == R_UNLINK) && th.level < th.topLevel ==> heap[th.victim].next[th.level + 1] == NULL)
    && (th.pc == R_UNLINK ==> th.tmp == heap[th.victim].next[th.level])
    && (th.pc == R_RELEASE ==> heap[th.victim].next[0] == NULL)
    && (HasTaken(th) ==> Owned(heap, th.victim, t))
  }

  ghost predicate FinishPhase(heap: Heap, th: Thread, t: int, log: seq<set<int>>) {
    && (HasTaken(th) ==> Owned(heap, th.victim, t))
    && (th.pc == UNLOCK ==>
          !th.op.Contains? && RowOk(heap, th.find, 0) && 0 <= th.level <= th.highest <= th.topLevel < MAX_LEVEL)
    && (th.pc == DONE ==> Answer(th, log))
  }

  ghost predicate FoundPC(pc: PC) {
    C_FULLY <= pc <= I_FOUND_FULLY
  }

  ghost predicate LockPC(pc: PC) {
    I_LOCK <= pc <= I_ALLOC
  }

  ghost predicate LinkPC(pc: PC) {
    I_FILL <= pc <= I_FULL
  }

  ghost predicate VictimPC(pc: PC) {
    R_LOCK <= pc <= R_UNMARK
  }

  ghost predicate CheckPC(pc: PC) {
    R_LOCK_PRED <= pc <= R_PRED_NEXT
  }

  ghost predicate UnlinkPC(pc: PC) {
    R_READ <= pc <= R_RELEASE
  }

  ghost predicate Phase(heap: Heap, th: Thread, t: int, log: seq<set<int>>) {
    if th.pc < F_NEXT then IDLE <= th.pc
    else if th.pc <= F_CHECK then SearchPhase(heap, th, log)
    else if FoundPC(th.pc) then FoundPhase(heap, th, log)
    else if LockPC(th.pc) then LockPhase(heap, th, log)
    else if LinkPC(th.pc) then LinkPhase(heap, th, t, log)
    else if VictimPC(th.pc) then VictimPhase(heap, th, log)
    else if CheckPC(th.pc) then CheckPhase(heap, th, log)
    else if UnlinkPC(th.pc) then UnlinkPhase(heap, th, t, log)
    else th.pc <= DONE && FinishPhase(heap, th, t, log)
  }

  /** What the answer of a finished call says about the instants between its call and now. */
  ghost predicate Answer(th: Thread, log: seq<set<int>>) {
    match th.op
    case Contains =>
      if th.ret then SawPresent(log, th.find.start, th.find.key) else th.viaMark || SawAbsent(log, th.find.start, th.find.key)
    case Insert => !th.ret ==> SawPresent(log, th.find.start, th.find.key)
    case Remove => !th.ret ==> SawAbsent(log, th.find.start, th.find.key)
  }

  ghost predicate HoldsVictim(pc: PC) {
    R_CHECK <= pc <= R_RELEASE
  }

  ghost predicate HoldsPreds(pc: PC) {
    I_LOCK <= pc <= I_FULL || R_GIVE_UP <= pc <= R_RELEASE
  }

  /** One of the predecessors from level lo up to highestLocked. */
  ghost predicate AmongPreds(preds: Row, lo: int, highest: int, r: Ref) {
    exists j :: 0 <= lo <= j <= highest && j < MAX_LEVEL && preds[j] == r
  }

  /** The locks a thread holds, read off its program counter. */
  ghost predicate Holds(th: Thread, r: Ref) {
    || (HoldsVictim(th.pc) && r == th.victim)
    || (HoldsPreds(th.pc) && AmongPreds(th.find.preds, 0, th.highest, r))
    || (th.pc == UNLOCK && ValidLevel(th.level) && AmongPreds(th.find.preds, th.level, th.highest, r)
        && (th.level == 0 || r != th.find.preds[th.level - 1]))
  }

  ghost predicate Locks(heap: Heap, th: Thread, t: int) {
    forall r :: ValidRef(heap, r) ==> (Held(heap, r, t) <==> Holds(th, r))
  }

  ghost predicate InRemoval(pc: PC) {
    R_UNMARK <= pc <= R_RELEASE
  }

  /** A node in the middle of being inserted or removed by t is the one t works on. */
  ghost predicate Working(heap: Heap, th: Thread, t: int) {
    && (forall r :: ValidRef(heap, r) && heap[r].removing && heap[r].owner == t ==> InRemoval(th.pc) && r == th.victim)
    && (forall r :: ValidRef(heap, r) && heap[r].creator == t && !heap[r].fullyLinked ==>
          LinkPC(th.pc) && r == th.newNode)
  }

  ghost predicate HasTaken(th: Thread) {
    || (th.pc == R_NULL && th.level == 0) || th.pc == R_RELEASE
    || (th.pc == UNLOCK && th.op.Remove? && th.valid) || (th.pc == DONE && th.op.Remove? && th.ret)
  }

  /** Each node t has unlinked is on its list of retired nodes, once, or still in its hands. */
  ghost predicate Retirement(heap: Heap, th: Thread, t: int) {
    && (forall i :: 0 <= i < |th.retired| ==>
          ValidRef(heap, th.retired[i]) && heap[th.retired[i]].taker == t && heap[th.retired[i]].retired)
    && (forall i, j :: 0 <= i < j < |th.retired| ==> th.retired[i] != th.retired[j])
    && (forall r :: ValidRef(heap, r) && heap[r].taker == t ==>
          if heap[r].retired then r in th.retired else HasTaken(th) && r == th.victim)
  }

  ghost function DidSoFar(th: Thread): int {
    if (th.pc == UNLOCK && th.op.Insert? && th.valid) || (th.pc == DONE && th.op.Insert? && th.ret) || HasTaken(th)
    then 1 else 0
  }

  ghost function BalanceSoFar(th: Thread): int {
    if HasTaken(th) then -1
    else if ((th.pc == I_FILL || th.pc == I_LINK) && 0 < th.level) || th.pc == I_FULL
         || (th.pc == UNLOCK && th.op.Insert? && th.valid) || (th.pc == DONE && th.op.Insert? && th.ret) then 1
    else 0
  }

  ghost predicate CallOk(th: Thread, log: seq<set<int>>) {
    && th.did == DidSoFar(th) && th.bal == BalanceSoFar(th)
    && (th.pc != IDLE ==> MIN_KEY < th.find.key < MAX_KEY && 0 <= th.find.start < |log|)
    && (th.pc != IDLE && th.op.Insert? ==> 0 <= th.topLevel < MAX_LEVEL)
  }

  ghost predicate ThreadInv(heap: Heap, th: Thread, t: int, log: seq<set<int>>) {
    && CallOk(th, log)
    && Phase(heap, th, t, log)
    && Locks(heap, th, t)
    && Working(heap, th, t)
    && Retirement(heap, th, t)
  }

  // ----- the whole state -----

  /** Every lock, every unfinished insertion and every removal belongs to one of the n threads. */
  ghost predicate Owners(heap: Heap, n: int) {
    && (forall r :: ValidRef(heap, r) && heap[r].lock ==> 0 <= heap[r].owner < n)
    && (forall r :: 2 <= r < |heap| ==> 0 <= heap[r].creator < n)
    && (forall r :: ValidRef(heap, r) ==> heap[r].taker < n)
  }

  ghost predicate Inv(s: State) {
    && HeapInv(s.heap)
    && Owners(s.heap, |s.threads|)
    && (forall t :: 0 <= t < |s.threads| ==> ThreadInv(s.heap, s.threads[t], t, s.log))
    && |s.log| > 0 && s.log[|s.log| - 1] == Abs(s.heap)
  }

  /** What a step of thread t may do to one node. */
  ghost predicate NodeGuarantee(a: Node, b: Node, t: int) {
    && b.key == a.key && b.topLevel == a.topLevel && b.creator == a.creator
    && a.ever <= b.ever && (a.fullyLinked ==> b.fullyLinked)
    && (a.lock && a.owner == t ==> b.lock ==> b.owner == t)
    && (!(a.lock && a.owner == t) ==>
          && b.marked == a.marked && b.removing == a.removing && b.bypass == a.bypass
          && ((b.lock == a.lock && b.owner == a.owner) || (!a.lock && b.lock && b.owner == t))
          && (forall j :: 0 <= j < a.ever && j < MAX_LEVEL ==> b.next[j] == a.next[j])
          && (a.fullyLinked ==> b.now == a.now && b.ever == a.ever)
          && (a.now == a.ever ==> b.now == b.ever))
    && (a.creator != t && !a.fullyLinked ==>
          && !b.fullyLinked && b.now == a.now && b.ever == a.ever
          && (forall j :: 0 <= a.ever <= j < MAX_LEVEL ==> b.next[j] == a.next[j]))
    && (b.taker == a.taker || (b.taker == t && a.taker < 0))
    && (a.taker != t ==> b.retired == a.retired)
  }

  /** What a step of thread t may do to the heap: the other threads rely on it. */
  ghost predicate Guarantee(heap: Heap, heap': Heap, t: int) {
    && |heap| <= |heap'|
    && (forall r :: 0 <= r < |heap| ==> NodeGuarantee(heap[r], heap'[r], t))
    && (forall r :: |heap| <= r < |heap'| ==> heap'[r].creator == t && !heap'[r].lock && !heap'[r].removing && heap'[r].taker == -1)
    && (forall r {:trigger heap'[r].now} :: 2 <= r < |heap| && 0 < heap[r].now && heap'[r].now == 0 ==> heap[r].key !in Abs(heap'))
    && (forall r {:trigger heap'[r].fullyLinked} :: 2 <= r < |heap| && !heap[r].fullyLinked && heap'[r].fullyLinked ==> heap[r].key in Abs(heap'))
  }
}
