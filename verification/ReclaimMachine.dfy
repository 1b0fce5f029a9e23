/** The reclamation protocol of stack-track.c as a machine: any number of threads run operations, retire nodes and
    scan each other before they free.  The scanner takes one read of another thread's record, or one free, per step.

    A fast operation runs in transactions: what it keeps in its published stack ranges, its writes and its
    split_counter change together, at a commit.  A slow operation is not transactional and relies on hazard-pointer
    records instead.  An operation is fast or slow from beginning to end.  All threads are registered.  Freed
    addresses may be allocated again. */
module ReclaimMachine {

  type Ptr = int
  const NULL: Ptr := 0
  const MAX_HP_RECORDS: nat := 100

  /** A memory word that holds a pointer: field `field` of node `node`. */
  datatype Slot = Slot(node: Ptr, field: int)

  datatype Entry = Entry(found: bool, ptr: Ptr)

  // The scanner's program counter, with the lines of stack-track.c.
  type ScanPC = int
  const NOT_SCANNING: ScanPC := 0
  const COUNTERS: ScanPC := 1       // lines 380-386: read one stack_counter; after the last, clear is_found
  const NEXT_ENTRY: ScanPC := 2     // lines 388-394: the loop heads and the is_found test
  const STACK_COUNTER: ScanPC := 3  // line 396
  const SPLIT_COUNTER: ScanPC := 4  // line 400
  const SLOW_PATH: ScanPC := 5      // line 355
  const N_RECORDS: ScanPC := 6      // line 310: read n_hp_records
  const RECORD: ScanPC := 7         // line 311: read one record
  const N_WORDS: ScanPC := 8        // lines 327-329: read n_stacks and the range bounds
  const WORD: ScanPC := 9           // line 334: read one word
  const RECHECK: ScanPC := 10       // line 407
  const FREEING: ScanPC := 11       // lines 417-430: one turn of the compaction loop

  datatype Scan = Scan(
    pc: ScanPC,
    th: nat,              // th_id
    i: nat,
    counters: seq<nat>,   // local_stack_counters
    split: nat,           // local_split_counter
    j: int,               // the record or the word to be read next
    n: nat,               // how many words the ranges hold
    work: Work)

  /** History of one scan, for the bound on its work. */
  datatype Work = Work(
    size: nat,            // free_list_size when the scan began
    iters: nat,           // turns of the inner loop (line 390) taken
    base: seq<nat>,       // every thread's split_counter when the scan began
    retries: seq<nat>)    // for every thread, how often `i--` (line 408) was taken

  /** An ST_HP_init under way: the next access is the read of line 290, its write, or the test of line 293. */
  datatype HpInit =
    | Idle
    | Reading(rec: nat, slot: Slot)
    | Loaded(rec: nat, slot: Slot, ptr: Ptr)
    | Published(rec: nat, slot: Slot)

  // Where a thread is in its operation.
  type Stage = int
  const OUTSIDE: Stage := 0
  const STARTING: Stage := 1   // in ST_init, lines 91-92 are next
  const RESETTING: Stage := 2  // in ST_init, line 93 is next
  const READY: Stage := 3      // ST_init has returned; a fast operation calls ST_split_start (lines 159-161)
  const INSIDE: Stage := 4
  const CLEARING: Stage := 5   // in ST_finish, line 100 is next
  const COUNTING: Stage := 6   // in ST_finish, line 102 is next
  const LEAVING: Stage := 7    // in ST_finish, lines 104-106 are next

  datatype Worker = Worker(
    stage: Stage,
    slow: bool,           // is_slow_path
    stackCounter: nat,
    splitCounter: nat,
    hp: seq<Ptr>,
    nHp: nat,
    init: HpInit,
    words: seq<Ptr>,      // what line 334 reads, in order, from the published ranges
    list: seq<Entry>,     // free_list[0..free_list_size)
    scan: Scan,
    sure: set<nat>,       // history: records whose ST_HP_init has returned and that have not been written since
    live: set<Ptr>)       // history: the pointers a fast operation still uses after its last commit

  datatype State = State(workers: seq<Worker>, slots: map<Slot, Ptr>, mem: set<Ptr>)

  ghost predicate InRecord(hp: seq<Ptr>, sure: set<nat>, p: Ptr) {
    exists k :: k in sure && k < |hp| && hp[k] == p
  }

  /** The pointer is protected by a returned ST_HP_init, or a live root of a fast operation. */
  ghost predicate Holds(w: Worker, p: Ptr) {
    p in w.live || InRecord(w.hp, w.sure, p)
  }

  ghost predicate OnList(list: seq<Entry>, p: Ptr) {
    exists e :: 0 <= e < |list| && list[e].ptr == p
  }

  /** p waits on some thread's free list. */
  ghost predicate Retired(s: State, p: Ptr) {
    exists t :: 0 <= t < |s.workers| && OnList(s.workers[t].list, p)
  }

  ghost predicate Named(slots: map<Slot, Ptr>, p: Ptr) {
    exists x :: x in slots && slots[x] == p
  }

  datatype Action =
    | Begin                                        // ST_init, line 90
    | Enter(slow: bool)                            // ST_init has returned; ST_split_start if fast
    | Stage                                        // the next assignment of ST_init or ST_finish
    | Arrange(words: seq<Ptr>)                     // ST_stack_*, or stack writes outside transactions
    | Commit(words: seq<Ptr>, live: set<Ptr>, writes: map<Slot, Ptr>)   // ST_split_segment_finish
    | HpAlloc | HpReset
    | HpStart(rec: nat, slot: Slot) | HpLoad | HpPublish | HpCheck
    | Retire(ptr: Ptr)                             // ST_free, lines 449-450
    | StartScan | ScanStep
    | Write(slot: Slot, ptr: Ptr)                  // a slow operation's write
    | Alloc(ptr: Ptr, fields: set<Slot>)   // malloc

  // ----- ST_scan_and_free -----

  const NO_SCAN: Scan := Scan(NOT_SCANNING, 0, 0, [], 0, 0, 0, Work(0, 0, [], []))

  function Cleared(list: seq<Entry>): seq<Entry> {
    seq(|list|, e requires 0 <= e < |list| => Entry(false, list[e].ptr))
  }

  function Turn(k: Work): Work {
    k.(iters := k.iters + 1)
  }

  function Retry(k: Work, th: nat): Work
    requires th < |k.retries|
  {
    k.(retries := k.retries[th := k.retries[th] + 1])
  }

  /** Every thread and array index the scanner is about to use is in range. */
  predicate ScanSafe(workers: seq<Worker>, t: int)
    requires 0 <= t < |workers|
  {
    var sc, list := workers[t].scan, workers[t].list;
    && NOT_SCANNING < sc.pc <= FREEING
    && (sc.pc == COUNTERS ==> |sc.counters| < |workers|)
    && (STACK_COUNTER <= sc.pc <= RECHECK ==>
          sc.th < |workers| && sc.th < |sc.counters| && sc.th < |sc.work.retries| && sc.i < |list|)
    && (sc.pc == RECORD && 0 <= sc.j ==> sc.j < |workers[sc.th].hp|)
    && (sc.pc == WORD ==> 0 <= sc.j)
  }

  /** One step of the scan of thread t. */
  function DoScan(workers: seq<Worker>, t: int): Worker
    requires 0 <= t < |workers| && ScanSafe(workers, t)
  {
    var w := workers[t];
    var sc := w.scan;
    if sc.pc == COUNTERS then
      var read := sc.counters + [workers[|sc.counters|].stackCounter];
      if |read| == |workers| then w.(scan := sc.(counters := read, pc := NEXT_ENTRY), list := Cleared(w.list))
      else w.(scan := sc.(counters := read))
    else if sc.pc == NEXT_ENTRY then
      if sc.th >= |workers| then w.(scan := sc.(pc := FREEING, i := 0))
      else if sc.i >= |w.list| then w.(scan := sc.(th := sc.th + 1, i := 0))
      else if w.list[sc.i].found then w.(scan := sc.(i := sc.i + 1, work := Turn(sc.work)))
      else w.(scan := sc.(pc := STACK_COUNTER, work := Turn(sc.work)))
    else if sc.pc == FREEING then
      if sc.i >= |w.list| then w.(scan := NO_SCAN)
      else if w.list[sc.i].found then w.(scan := sc.(i := sc.i + 1))
      else w.(list := w.list[sc.i := w.list[|w.list| - 1]][..|w.list| - 1])
    else
      ScanThread(w, workers[sc.th])
  }

  /** Scanning thread u for one entry: lines 396-409 and ST_scan_thread. */
  function ScanThread(w: Worker, u: Worker): Worker
    requires STACK_COUNTER <= w.scan.pc <= RECHECK
    requires w.scan.th < |w.scan.counters| && w.scan.th < |w.scan.work.retries| && w.scan.i < |w.list|
    requires w.scan.pc == RECORD && 0 <= w.scan.j ==> w.scan.j < |u.hp|
    requires w.scan.pc == WORD ==> 0 <= w.scan.j
  {
    var sc := w.scan;
    var p := w.list[sc.i].ptr;
    var hit := w.(scan := sc.(pc := NEXT_ENTRY, i := sc.i + 1), list := w.list[sc.i := Entry(true, p)]);
    if sc.pc == STACK_COUNTER then
      if sc.counters[sc.th] != u.stackCounter then w.(scan := sc.(pc := NEXT_ENTRY, th := sc.th + 1, i := 0))
      else w.(scan := sc.(pc := SPLIT_COUNTER))
    else if sc.pc == SPLIT_COUNTER then w.(scan := sc.(pc := SLOW_PATH, split := u.splitCounter))
    else if sc.pc == SLOW_PATH then w.(scan := sc.(pc := if u.slow then N_RECORDS else N_WORDS))
    else if sc.pc == N_RECORDS then w.(scan := sc.(pc := RECORD, j := u.nHp - 1))
    else if sc.pc == RECORD then
      if sc.j < 0 then w.(scan := sc.(pc := N_WORDS))
      else if u.hp[sc.j] == p then hit
      else w.(scan := sc.(j := sc.j - 1))
    else if sc.pc == N_WORDS then w.(scan := sc.(pc := WORD, j := 0, n := |u.words|))
    else if sc.pc == WORD then
      if sc.j >= sc.n then w.(scan := sc.(pc := RECHECK))
      else if sc.j < |u.words| && u.words[sc.j] == p then hit
      else w.(scan := sc.(j := sc.j + 1))
    else
      if sc.split != u.splitCounter then w.(scan := sc.(pc := NEXT_ENTRY, work := Retry(sc.work, sc.th)))
      else w.(scan := sc.(pc := NEXT_ENTRY, i := sc.i + 1))
  }

  /** The scan frees the entry it is looking at. */
  predicate Frees(w: Worker) {
    w.scan.pc == FREEING && w.scan.i < |w.list| && !w.list[w.scan.i].found
  }

  // ----- steps -----

  /** A pointer that code may store: NULL, or a node that has not been retired. */
  ghost predicate Storable(s: State, p: Ptr) {
    p == NULL || (p in s.mem && !Retired(s, p))
  }

  ghost predicate CommitOk(s: State, w: Worker, words: seq<Ptr>, live: set<Ptr>, writes: map<Slot, Ptr>) {
    && w.stage == INSIDE && !w.slow
    && (forall p :: p in live ==> p in words && (p in w.live || (p != NULL && Storable(s, p))))
    && (forall x :: x in writes ==> x in s.slots && Storable(s, writes[x]))
  }

  ghost predicate RetireOk(s: State, w: Worker, p: Ptr) {
    w.stage == OUTSIDE && w.scan.pc == NOT_SCANNING && p in s.mem && !Retired(s, p) && !Named(s.slots, p)
  }

  ghost predicate Enabled(s: State, t: int, a: Action) {
    && 0 <= t < |s.workers|
    && var w := s.workers[t];
       match a
       case Begin => w.stage == OUTSIDE && w.scan.pc == NOT_SCANNING
       case Enter(_) => w.stage == READY
       case Stage => (w.stage == STARTING || w.stage == RESETTING || INSIDE <= w.stage <= LEAVING) && w.init == Idle
       case Arrange(words) => w.stage == READY || (w.stage == INSIDE && (w.slow || w.live == {}))
       case Commit(words, live, writes) => CommitOk(s, w, words, live, writes)
       case HpAlloc => w.stage == INSIDE && w.slow && w.init == Idle && w.nHp + 1 < MAX_HP_RECORDS
       case HpReset => w.stage == INSIDE && w.slow && w.init == Idle
       case HpStart(rec, slot) => w.stage == INSIDE && w.slow && w.init == Idle && rec < w.nHp
       case HpLoad => w.init.Reading? && w.init.slot in s.slots
       case HpPublish => w.init.Loaded? && w.init.rec < |w.hp|
       case HpCheck => w.init.Published? && w.init.rec < |w.hp| && w.init.slot in s.slots
       case Retire(ptr) => RetireOk(s, w, ptr)
       case StartScan => w.stage == OUTSIDE && w.scan.pc == NOT_SCANNING
       case ScanStep => ScanSafe(s.workers, t)
       case Write(slot, ptr) => w.stage == INSIDE && w.slow && slot in s.slots && Storable(s, ptr)
       case Alloc(ptr, fields) =>
         w.stage == INSIDE && ptr != NULL && ptr !in s.mem && (forall x :: x in fields ==> x.node == ptr)
  }

  function NextStage(w: Worker): Worker {
    if w.stage == STARTING then w.(stage := RESETTING, words := [])
    else if w.stage == RESETTING then w.(stage := READY, nHp := 0)
    else if w.stage == INSIDE then w.(stage := CLEARING, words := [], live := {}, sure := {})
    else if w.stage == CLEARING then w.(stage := COUNTING, nHp := 0)
    else if w.stage == COUNTING then w.(stage := LEAVING, stackCounter := w.stackCounter + 1)
    else w.(stage := OUTSIDE, slow := false)
  }

  function Checked(w: Worker, seen: Ptr): Worker
    requires w.init.Published? && w.init.rec < |w.hp|
  {
    if w.hp[w.init.rec] == seen then w.(init := Idle, sure := w.sure + {w.init.rec})
    else w.(init := Reading(w.init.rec, w.init.slot))
  }

  function Splits(workers: seq<Worker>): seq<nat> {
    seq(|workers|, h requires 0 <= h < |workers| => workers[h].splitCounter)
  }

  function Zeros(n: nat): seq<nat> {
    seq(n, _ => 0)
  }

  function FirstScan(w: Worker, workers: seq<Worker>): Scan {
    NO_SCAN.(pc := COUNTERS, work := Work(|w.list|, 0, Splits(workers), Zeros(|workers|)))
  }

  /** What thread t's action makes of its own record. */
  ghost function Moved(s: State, t: int, a: Action): Worker
    requires Enabled(s, t, a)
  {
    var w := s.workers[t];
    match a
    case Begin => w.(stage := STARTING, slow := true)
    case Enter(slow) => w.(stage := INSIDE, slow := slow)
    case Stage => NextStage(w)
    case Arrange(words) => w.(words := words)
    case Commit(words, live, _) => w.(words := words, live := live, splitCounter := w.splitCounter + 1)
    case HpAlloc => w.(nHp := w.nHp + 1)
    case HpReset => w.(nHp := 0, sure := {})
    case HpStart(rec, slot) => w.(init := Reading(rec, slot))
    case HpLoad => w.(init := Loaded(w.init.rec, w.init.slot, s.slots[w.init.slot]))
    case HpPublish =>
      w.(init := Published(w.init.rec, w.init.slot), hp := w.hp[w.init.rec := w.init.ptr], sure := w.sure - {w.init.rec})
    case HpCheck => Checked(w, s.slots[w.init.slot])
    case Retire(ptr) => w.(list := w.list + [Entry(false, ptr)])
    case StartScan => w.(scan := FirstScan(w, s.workers))
    case ScanStep => DoScan(s.workers, t)
    case Write(_, _) => w
    case Alloc(_, _) => w
  }

  function NewSlots(fields: set<Slot>): map<Slot, Ptr> {
    map x | x in fields :: NULL
  }

  function DropNode(slots: map<Slot, Ptr>, p: Ptr): map<Slot, Ptr> {
    map x | x in slots && x.node != p :: slots[x]
  }

  ghost function SlotsAfter(s: State, t: int, a: Action): map<Slot, Ptr>
    requires Enabled(s, t, a)
  {
    var w := s.workers[t];
    match a
    case ScanStep => if Frees(w) then DropNode(s.slots, w.list[w.scan.i].ptr) else s.slots
    case Commit(_, _, writes) => s.slots + writes
    case Write(slot, ptr) => s.slots[slot := ptr]
    case Alloc(ptr, fields) => s.slots + NewSlots(fields)
    case _ => s.slots
  }

  ghost function MemAfter(s: State, t: int, a: Action): set<Ptr>
    requires Enabled(s, t, a)
  {
    var w := s.workers[t];
    if a.ScanStep? && Frees(w) then s.mem - {w.list[w.scan.i].ptr}
    else if a.Alloc? then s.mem + {a.ptr}
    else s.mem
  }

  ghost function Apply(s: State, t: int, a: Action): State
    requires Enabled(s, t, a)
  {
    State(s.workers[t := Moved(s, t, a)], SlotsAfter(s, t, a), MemAfter(s, t, a))
  }

  ghost predicate NewWorker(w: Worker) {
    && w.stage == OUTSIDE && w.init == Idle && w.scan == NO_SCAN && w.words == [] && w.list == []
    && |w.hp| == MAX_HP_RECORDS && w.nHp == 0 && w.sure == {} && w.live == {}
    && w.stackCounter == 0 && w.splitCounter == 0 && !w.slow
  }

  ghost predicate Init(s: State) {
    && (forall t :: 0 <= t < |s.workers| ==> NewWorker(s.workers[t]))
    && NULL !in s.mem
    && (forall x :: x in s.slots ==> s.slots[x] == NULL || s.slots[x] in s.mem)
  }

  ghost predicate Step(s: State, s': State) {
    exists t, a :: Enabled(s, t, a) && s' == Apply(s, t, a)
  }

  ghost predicate StepAt(run: seq<State>, i: nat)
    requires 0 < i < |run|
  {
    Step(run[i - 1], run[i])
  }

  ghost predicate Run(run: seq<State>) {
    && |run| > 0 && Init(run[0])
    && forall i :: 0 < i < |run| ==> StepAt(run, i)
  }
}
