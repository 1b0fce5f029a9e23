/** The segment controller of stack-track.c: it splits an operation into hardware transactions and adapts their length
    to the outcomes of earlier ones.

    The hardware is nondeterministic: `env` says how each attempt to start a transaction ends.  A transaction that
    aborts later has all its effects undone and continues as a failed HTM_start, so such an abort is one of the failed
    attempts of `env`. */
module SegmentController {

  const MAX_OPS: nat := 20
  const MAX_SEGMENTS: nat := 1000
  const MAX_HTM_ABORTS: nat := 50
  const MIN_LENGTH: int := 5
  const LEN_DELTA: int := 5
  const MAX_CAPACITY_ABORTS_FOR_DEC: int := 4
  const MIN_SUCCESS_FOR_INC: int := 4

  /** What _xbegin returns: started, or the abort status with its six bits. */
  datatype Outcome =
    | Started
    | Aborted(explicit: bool, retry: bool, conflict: bool, capacity: bool, debug: bool, nested: bool)

  /** The answers to the next attempts, as many as one segment start can need. */
  type Env = s: seq<Outcome> | |s| == MAX_HTM_ABORTS + 1 witness seq(MAX_HTM_ABORTS + 1, _ => Started)

  datatype Segment = Segment(
    limit: int,    // n_limit
    saved: int,    // saved_n_htm_success
    success: int,  // n_htm_success
    incs: int,     // history: how often the limit was raised
    decs: int,     // history: how often the limit was lowered
    caps: int)     // history: capacity aborts at this segment

  /** The limit differs from max_segment_len by five for each change; five commits paid for every raise and five
      capacity aborts for every cut. */
  ghost predicate SegmentOk(g: Segment, maxLen: int) {
    && g.limit == maxLen + LEN_DELTA * (g.incs - g.decs)
    && g.limit <= maxLen && (1 <= maxLen ==> 1 <= g.limit)
    && 0 <= g.incs && 5 * g.incs <= g.saved <= g.success
    && 0 <= g.decs && 5 * g.decs <= g.caps
  }

  /** The bounds that the counting gives, for every reachable segment. */
  lemma LimitBounds(g: Segment, maxLen: int)
    requires SegmentOk(g, maxLen)
    ensures g.limit % 5 == maxLen % 5
    ensures 1 <= maxLen ==> 1 <= g.limit <= maxLen
    ensures g.saved <= g.success && 5 * g.incs <= g.success && 5 * g.decs <= g.caps
    ensures g.incs <= g.decs
  {
  }

  // ----- what a series of attempts amounts to -----

  /** How many attempts fail before one starts. */
  function Failures(env: seq<Outcome>): (k: nat)
    ensures k <= |env|
    ensures forall j :: 0 <= j < k ==> env[j].Aborted?
    ensures k < |env| ==> env[k].Started?
  {
    if env == [] || env[0].Started? then 0 else 1 + Failures(env[1..])
  }

  lemma {:induction false} FailuresAre(env: seq<Outcome>, k: nat)
    requires k <= |env| && (forall j :: 0 <= j < k ==> env[j].Aborted?) && (k < |env| ==> env[k].Started?)
    ensures Failures(env) == k
  {
    if k > 0 {
      FailuresAre(env[1..], k - 1);
    }
  }

  /** After a segment start is_htm_active (set exactly if no attempt failed) tells whether a transaction runs (exactly if
      fewer than 51 attempts failed) if and only if the first attempt starts or every attempt fails: after one abort and
      a successful retry the flag is wrong. */
  lemma FlagTellsTransaction(env: Env)
    ensures (Failures(env) == 0 <==> Failures(env) <= MAX_HTM_ABORTS)
       <==> env[0].Started? || forall j :: 0 <= j < |env| ==> env[j].Aborted?
  {
    var k := Failures(env);
    if k <= MAX_HTM_ABORTS {
      assert env[k].Started?;
    }
    if env[0].Started? {
      FailuresAre(env, 0);
    }
  }

  /** One aborted attempt followed by a successful one is such a case. */
  lemma FlagMisreports(env: Env)
    requires env[0].Aborted? && env[1].Started?
    ensures Failures(env) != 0 && Failures(env) <= MAX_HTM_ABORTS
  {
    FailuresAre(env, 1);
  }

  /** Capacity aborts among the first n attempts. */
  function Capacity(env: seq<Outcome>, n: nat): (c: nat)
    requires n <= |env|
    ensures c <= n
  {
    if n == 0 then 0 else Capacity(env, n - 1) + (if env[n - 1].Aborted? && env[n - 1].capacity then 1 else 0)
  }

  function Min(a: int, b: int): int {
    if a <= b then a else b
  }

  function Max(a: int, b: int): int {
    if a <= b then b else a
  }

  /** Capacity aborts since the last multiple of five. */
  function Since(c: nat): (r: nat)
    ensures r < 5
  {
    if c == 0 then 0 else if Since(c - 1) == 4 then 0 else Since(c - 1) + 1
  }

  /** How many cuts c capacity aborts cause, counted abort by abort. */
  function Cuts(limit: int, c: nat): (d: nat)
    ensures 1 <= limit ==> 1 <= limit - LEN_DELTA * d
    ensures d > 0 ==> limit > MIN_LENGTH
    ensures 5 * d + Since(c) <= c
  {
    if c == 0 then 0
    else
      var d := Cuts(limit, c - 1);
      if Since(c - 1) == 4 && limit - LEN_DELTA * d > MIN_LENGTH then d + 1 else d
  }

  /** In closed form: one cut for every five capacity aborts, as long as the limit exceeds five. */
  lemma {:induction false} CutsInClosedForm(limit: int, c: nat)
    ensures Since(c) == c % 5
    ensures Cuts(limit, c) == Min(c / 5, Max(0, (limit - 1) / 5))
  {
    if c > 0 {
      CutsInClosedForm(limit, c - 1);
    }
  }

  /** A segment after failed attempts of which c were capacity aborts. */
  function AfterAborts(g: Segment, c: nat): Segment {
    Segment(g.limit - LEN_DELTA * Cuts(g.limit, c), if c > 0 then g.success else g.saved, g.success,
            g.incs, g.decs + Cuts(g.limit, c), g.caps + c)
  }

  /** One failed attempt, with the capacity aborts since the last cut: lines 191-203. */
  function Adapted(g: Segment, newCapacity: int, hit: bool): Segment {
    var cut := newCapacity > MAX_CAPACITY_ABORTS_FOR_DEC && g.limit > MIN_LENGTH;
    Segment(if cut then g.limit - LEN_DELTA else g.limit, if newCapacity > 0 then g.success else g.saved, g.success,
            g.incs, if cut then g.decs + 1 else g.decs, if hit then g.caps + 1 else g.caps)
  }

  /** Attempt by attempt the code arrives at the closed form. */
  lemma AdaptedIsAfterAborts(g: Segment, c: nat, hit: bool)
    ensures var later := if hit then c + 1 else c;
      Adapted(AfterAborts(g, c), Since(c) + (if hit then 1 else 0), hit) == AfterAborts(g, later)
  {
  }

  lemma AfterAbortsOk(g: Segment, c: nat, maxLen: int)
    requires SegmentOk(g, maxLen)
    ensures SegmentOk(AfterAborts(g, c), maxLen)
  {
  }

  /** A segment after a commit. */
  function AfterCommit(g: Segment, maxLen: int): Segment {
    var raise := g.success + 1 - g.saved > MIN_SUCCESS_FOR_INC && g.limit < maxLen;
    Segment(if raise then g.limit + LEN_DELTA else g.limit, if raise then g.success + 1 else g.saved, g.success + 1,
            if raise then g.incs + 1 else g.incs, g.decs, g.caps)
  }

  /** A segment after n commits in a row. */
  function AfterCommits(g: Segment, n: nat, maxLen: int): Segment {
    if n == 0 then g else AfterCommit(AfterCommits(g, n - 1, maxLen), maxLen)
  }

  /** How many raises lead from a limit to the greatest one. */
  function Room(limit: int, maxLen: int): nat {
    if limit < maxLen then (maxLen - limit + 4) / 5 else 0
  }

  /** In closed form: every fifth commit that the last raise or cut has not paid for raises the limit by five, until the
      limit is max_segment_len; commits that came in while there was no room pay for one raise only. */
  lemma {:induction false} RaisesInClosedForm(g: Segment, n: nat, maxLen: int)
    requires g.saved <= g.success
    ensures var h, paid := AfterCommits(g, n, maxLen), Min(g.success - g.saved, 4);
      var raises := Min((n + paid) / 5, Room(g.limit, maxLen));
      && h.success == g.success + n
      && h.limit == g.limit + 5 * raises && h.incs == g.incs + raises
      && h.saved == (if raises == 0 then g.saved else g.success - paid + 5 * raises)
      && h.decs == g.decs && h.caps == g.caps
  {
    if n > 0 {
      RaisesInClosedForm(g, n - 1, maxLen);
    }
  }

  lemma AfterCommitOk(g: Segment, maxLen: int)
    requires SegmentOk(g, maxLen)
    ensures SegmentOk(AfterCommit(g, maxLen), maxLen)
  {
  }

  // ----- the thread record -----

  class Controller {
    var opIndex: int
    var splitIndex: int
    var splitIndexSaved: int
    var isHtmActive: bool
    var isSlowPath: bool
    var splitCounter: int
    var curLen: int
    var curLimit: int
    const maxLen: int
    var nCapacity: int         // n_xabort_capacity
    const segments: array2<Segment>
    var nOps: int
    var nSplits: int
    var nSplitLength: int
    var nSlowPathSegments: int
    var inTransaction: bool    // the hardware's state

    ghost predicate Valid()
      reads this, segments
    {
      && segments.Length0 == MAX_OPS && segments.Length1 == MAX_SEGMENTS
      && (forall i, j :: 0 <= i < MAX_OPS && 0 <= j < MAX_SEGMENTS ==> SegmentOk(segments[i, j], maxLen))
      && splitCounter == nSplits
      && (isHtmActive ==> inTransaction)
      && !(inTransaction && isSlowPath)
      && 0 <= splitIndexSaved < MAX_SEGMENTS
    }

    /** The indices that the code uses without a check. */
    ghost predicate InRange()
      reads this
    {
      0 <= opIndex < MAX_OPS && 0 <= splitIndex < MAX_SEGMENTS
    }

    /** Exactly one of the two ways to run a segment. */
    ghost predicate Running()
      reads this
    {
      inTransaction != isSlowPath
    }

    /** Every segment but the current one is as it was. */
    twostate predicate OthersSame()
      requires segments.Length0 == MAX_OPS && segments.Length1 == MAX_SEGMENTS
      reads this`opIndex, this`splitIndex, segments
    {
      forall i, j :: 0 <= i < MAX_OPS && 0 <= j < MAX_SEGMENTS && (i != opIndex || j != splitIndex) ==>
        segments[i, j] == old(segments[i, j])
    }

    /** ST_thread_init, lines 51-66. */
    constructor (maxSegmentLen: int)
      ensures Valid() && fresh(segments) && maxLen == maxSegmentLen
      ensures opIndex == 0 && splitIndex == 0 && !inTransaction && !isSlowPath && splitCounter == 0
    {
      maxLen := maxSegmentLen;
      segments := new Segment[MAX_OPS, MAX_SEGMENTS]((i, j) => Segment(maxSegmentLen, 0, 0, 0, 0, 0));
      opIndex, splitIndex, splitIndexSaved := 0, 0, 0;
      isHtmActive, isSlowPath, inTransaction := false, false, false;
      splitCounter, curLen, curLimit, nCapacity := 0, 0, 0, 0;
      nOps, nSplits, nSplitLength, nSlowPathSegments := 0, 0, 0, 0;
    }

    /** HTM_start with the part of HTM_status_collect that the controller reads. */
    method HtmStart(outcome: Outcome) returns (started: bool)
      requires !inTransaction
      modifies this`inTransaction, this`nCapacity
      ensures started == inTransaction == outcome.Started?
      ensures nCapacity == old(nCapacity) + if outcome.Aborted? && outcome.capacity then 1 else 0
    {
      if outcome.Aborted? {
        if outcome.capacity {
          nCapacity := nCapacity + 1;
        }
        return false;
      }
      inTransaction := true;
      return true;
    }

    /** HTM_commit: _xend outside a transaction is a fault. */
    method HtmCommit()
      requires inTransaction
      modifies this`inTransaction
      ensures !inTransaction
    {
      inTransaction := false;
    }

    /** A failed attempt: the adjustment of lines 189-205. */
    method OnAbort(savedCapacity: int, hit: bool, ghost g: Segment, ghost c: nat) returns (saved: int)
      requires segments.Length0 == MAX_OPS && segments.Length1 == MAX_SEGMENTS && InRange()
      requires segments[opIndex, splitIndex] == AfterAborts(g, c) && curLimit == segments[opIndex, splitIndex].limit
      requires nCapacity - savedCapacity == Since(c) + if hit then 1 else 0
      modifies this`curLimit, this`curLen, segments
      ensures segments[opIndex, splitIndex] == AfterAborts(g, if hit then c + 1 else c)
      ensures nCapacity - saved == Since(if hit then c + 1 else c)
      ensures curLen == 0 && curLimit == segments[opIndex, splitIndex].limit
      ensures OthersSame()
    {
      AdaptedIsAfterAborts(g, c, hit);
      var newCapacity := nCapacity - savedCapacity;
      saved := savedCapacity;
      if newCapacity > 0 {
        segments[opIndex, splitIndex] := segments[opIndex, splitIndex].(saved := segments[opIndex, splitIndex].success);
      }
      if newCapacity > MAX_CAPACITY_ABORTS_FOR_DEC {
        var g := segments[opIndex, splitIndex];
        if g.limit > MIN_LENGTH {
          segments[opIndex, splitIndex] := g.(limit := g.limit - LEN_DELTA, decs := g.decs + 1);
        }
        saved := nCapacity;
        curLimit := segments[opIndex, splitIndex].limit;
      }
      curLen := 0;
      if hit {
        segments[opIndex, splitIndex] := segments[opIndex, splitIndex].(caps := segments[opIndex, splitIndex].caps + 1);
      }
    }
  
    /** The attempts of lines 184-214: at most 51. */
    method Attempt(env: Env) returns (n: nat)
      requires segments.Length0 == MAX_OPS && segments.Length1 == MAX_SEGMENTS && InRange()
      requires !inTransaction && !isSlowPath && isHtmActive
      requires curLimit == segments[opIndex, splitIndex].limit && curLen == 0
      modifies this`curLimit, this`curLen, this`isHtmActive, this`inTransaction, this`nCapacity,
               this`isSlowPath, this`nSlowPathSegments, segments
      ensures n <= MAX_HTM_ABORTS + 1 && (forall j :: 0 <= j < n ==> env[j].Aborted?)
      ensures n <= MAX_HTM_ABORTS ==> env[n].Started?
      ensures inTransaction == (n <= MAX_HTM_ABORTS) && isSlowPath == !inTransaction && isHtmActive == (n == 0)
      ensures nCapacity == old(nCapacity) + Capacity(env, n)
      ensures segments[opIndex, splitIndex] == AfterAborts(old(segments[opIndex, splitIndex]), Capacity(env, n))
      ensures curLimit == segments[opIndex, splitIndex].limit && curLen == 0
      ensures nSlowPathSegments == old(nSlowPathSegments) + if isSlowPath then 1 else 0
      ensures OthersSame()
    {
      ghost var g := segments[opIndex, splitIndex];
      var savedCapacity := nCapacity;
      n := 0;
      var started := HtmStart(env[0]);
      while !started
        invariant n <= MAX_HTM_ABORTS && (forall j :: 0 <= j < n ==> env[j].Aborted?)
        invariant started == inTransaction == env[n].Started?
        invariant !isSlowPath && nSlowPathSegments == old(nSlowPathSegments) && isHtmActive == (n == 0)
        invariant curLen == 0 && curLimit == segments[opIndex, splitIndex].limit
        invariant nCapacity == old(nCapacity) + Capacity(env, if started then n else n + 1)
        invariant old(nCapacity) + Capacity(env, n) - savedCapacity == Since(Capacity(env, n))
        invariant segments[opIndex, splitIndex] == AfterAborts(g, Capacity(env, n))
        invariant OthersSame()
        decreases if started then 0 else MAX_HTM_ABORTS + 1 - n
      {
        isHtmActive := false;
        savedCapacity := OnAbort(savedCapacity, env[n].capacity, g, Capacity(env, n));
        n := n + 1;
        if n > MAX_HTM_ABORTS {
          isSlowPath := true;
          nSlowPathSegments := nSlowPathSegments + 1;
          return;
        }
        started := HtmStart(env[n]);
      }
    }

    /** ST_split_segment_start: at most 51 attempts, after which the segment runs on the slow path.  The limit is cut by
        five for every five capacity aborts while it exceeds five.  is_htm_active is right about the transaction exactly
        if the first attempt starts or all of them fail: line 185 clears the flag and nothing sets it again. */
    method SegmentStart(env: Env)
      requires Valid() && InRange() && !inTransaction && !isSlowPath
      modifies this`curLimit, this`curLen, this`isHtmActive, this`inTransaction, this`nCapacity,
               this`isSlowPath, this`nSlowPathSegments, segments
      ensures Valid() && Running() && curLen == 0
      ensures var k := Failures(env);
        && inTransaction == (k <= MAX_HTM_ABORTS)
        && isHtmActive == (k == 0)
        && nCapacity == old(nCapacity) + Capacity(env, k)
        && segments[opIndex, splitIndex] == AfterAborts(old(segments[opIndex, splitIndex]), Capacity(env, k))
      ensures isHtmActive == inTransaction <==> env[0].Started? || forall j :: 0 <= j < |env| ==> env[j].Aborted?
      ensures var g, h, c := old(segments[opIndex, splitIndex]), segments[opIndex, splitIndex], nCapacity - old(nCapacity);
        && h.limit == g.limit - LEN_DELTA * Min(c / 5, Max(0, (g.limit - 1) / 5))
        && h.saved == (if c > 0 then g.success else g.saved) && h.success == g.success
      ensures curLimit == segments[opIndex, splitIndex].limit
      ensures nSlowPathSegments == old(nSlowPathSegments) + if isSlowPath then 1 else 0
      ensures OthersSame()
    {
      FlagTellsTransaction(env);
      curLimit := segments[opIndex, splitIndex].limit;
      curLen := 0;
      isHtmActive := true;
      assert SegmentOk(segments[opIndex, splitIndex], maxLen);
      var n := Attempt(env);
      FailuresAre(env, n);
      AfterAbortsOk(old(segments[opIndex, splitIndex]), Capacity(env, n), maxLen);
      CutsInClosedForm(old(segments[opIndex, splitIndex]).limit, Capacity(env, n));
    }

    /** One aborted attempt and then a successful one: the segment runs in a transaction and the flag denies it. */
    method MisreportedStart(env: Env)
      requires Valid() && InRange() && !inTransaction && !isSlowPath
      requires env[0].Aborted? && env[1].Started?
      modifies this`curLimit, this`curLen, this`isHtmActive, this`inTransaction, this`nCapacity,
               this`isSlowPath, this`nSlowPathSegments, segments
      ensures Valid() && inTransaction && !isHtmActive
    {
      FlagMisreports(env);
      SegmentStart(env);
    }

    /** ST_split_segment_finish.  Every segment that finishes bumps split_counter, committed or not.  With the indices
        in range the check of line 250 never fires; yet the index is in range again exactly if it was not the last one. */
    method SegmentFinish() returns (failed: bool)
      requires Valid() && InRange() && Running()
      modifies this`splitCounter, this`isSlowPath, this`isHtmActive, this`inTransaction,
               this`nSplits, this`nSplitLength, this`splitIndex, segments
      ensures Valid() && !inTransaction && !isSlowPath && !failed
      ensures splitCounter == old(splitCounter) + 1 && splitIndex == old(splitIndex) + 1
      ensures InRange() <==> old(splitIndex) + 1 < MAX_SEGMENTS
      ensures nSplitLength == old(nSplitLength) + curLen
      ensures segments[opIndex, old(splitIndex)] ==
        if old(inTransaction) then AfterCommit(old(segments[opIndex, splitIndex]), maxLen)
        else old(segments[opIndex, splitIndex])
      ensures old(inTransaction) ==>
        var g, h := old(segments[opIndex, splitIndex]), segments[opIndex, old(splitIndex)];
        && h.success == g.success + 1
        && (h.limit == g.limit + 5 && h.saved == h.success <==> h.success - g.saved > 4 && g.limit < maxLen)
        && (h.limit == g.limit && h.saved == g.saved <==> h.success - g.saved <= 4 || g.limit >= maxLen)
      ensures forall i, j :: 0 <= i < MAX_OPS && 0 <= j < MAX_SEGMENTS && (i != opIndex || j != old(splitIndex)) ==>
        segments[i, j] == old(segments[i, j])
    {
      splitCounter := splitCounter + 1;
      if isSlowPath {
        nSplits := nSplits + 1;
        nSplitLength := nSplitLength + curLen;
        splitIndex := splitIndex + 1;
        isSlowPath := false;
        return false;
      }
      HtmCommit();
      isHtmActive := false;
      var g := segments[opIndex, splitIndex];
      AfterCommitOk(g, maxLen);
      g := g.(success := g.success + 1);
      nSplits := nSplits + 1;
      nSplitLength := nSplitLength + curLen;
      var newSuccess := g.success - g.saved;
      if newSuccess > MIN_SUCCESS_FOR_INC {
        if g.limit < maxLen {
          g := g.(limit := g.limit + LEN_DELTA, incs := g.incs + 1);
          g := g.(saved := g.success);
        }
      }
      segments[opIndex, splitIndex] := g;
      splitIndex := splitIndex + 1;
      failed := splitIndex > MAX_SEGMENTS;
    }

    /** At the last index the check passes and the next segment's index is outside the array. */
    method FinishLastSegment() returns (failed: bool)
      requires Valid() && InRange() && Running() && splitIndex == 999
      modifies this`splitCounter, this`isSlowPath, this`isHtmActive, this`inTransaction,
               this`nSplits, this`nSplitLength, this`splitIndex, segments
      ensures Valid() && !failed && splitIndex == 1000 && !InRange()
    {
      failed := SegmentFinish();
    }

    /** ST_split_start. */
    method SplitStart(op: int, env: Env)
      requires Valid() && !inTransaction && 0 <= op < MAX_OPS
      modifies this`opIndex, this`splitIndex, this`curLimit, this`curLen, this`isHtmActive, this`inTransaction,
               this`nCapacity, this`isSlowPath, this`nSlowPathSegments, segments
      ensures Valid() && InRange() && Running() && opIndex == op && splitIndex == 0 && curLen == 0
      ensures inTransaction == (Failures(env) <= MAX_HTM_ABORTS)
    {
      opIndex := op;
      splitIndex := 0;
      if isSlowPath {
        isSlowPath := false;
      }
      SegmentStart(env);
    }

    /** ST_SPLIT: a checkpoint.  Either the running segment goes on, one longer but within its limit, or it finishes and
        the next one starts. */
    method Split(env: Env)
      requires Valid() && InRange() && Running() && (curLen >= curLimit ==> splitIndex + 1 < MAX_SEGMENTS)
      modifies this`splitIndex, this`curLimit, this`curLen, this`isHtmActive, this`inTransaction, this`nCapacity,
               this`isSlowPath, this`nSlowPathSegments, this`splitCounter, this`nSplits, this`nSplitLength, segments
      ensures Valid() && InRange() && Running()
      ensures old(curLen) < old(curLimit) ==>
        && curLen == old(curLen) + 1 <= curLimit == old(curLimit)
        && splitCounter == old(splitCounter) && splitIndex == old(splitIndex) && inTransaction == old(inTransaction)
        && nSplitLength == old(nSplitLength)
      ensures old(curLen) >= old(curLimit) ==>
        && curLen == 0 && splitCounter == old(splitCounter) + 1 && splitIndex == old(splitIndex) + 1
        && inTransaction == (Failures(env) <= MAX_HTM_ABORTS)
        && nSplitLength == old(nSplitLength) + old(curLen) + 1
    {
      curLen := curLen + 1;
      if curLen > curLimit {
        var failed := SegmentFinish();
        SegmentStart(env);
      }
    }

    /** ST_split_finish. */
    method SplitFinish()
      requires Valid() && InRange() && Running()
      modifies this`splitCounter, this`isSlowPath, this`isHtmActive, this`inTransaction,
               this`nSplits, this`nSplitLength, this`splitIndex, this`nOps, segments
      ensures Valid() && !inTransaction && !isSlowPath
      ensures splitCounter == old(splitCounter) + 1 && nOps == old(nOps) + 1
      ensures splitIndex == old(splitIndex) + 1 && nSplitLength == old(nSplitLength) + curLen
    {
      var failed := SegmentFinish();
      nOps := nOps + 1;
    }

    method SplitSave()
      requires Valid() && InRange()
      modifies this`splitIndexSaved
      ensures Valid() && splitIndexSaved == splitIndex
    {
      splitIndexSaved := splitIndex;
    }

    method SplitRestore()
      requires Valid() && 0 <= opIndex < MAX_OPS
      modifies this`splitIndex
      ensures Valid() && InRange() && splitIndex == splitIndexSaved
    {
      splitIndex := splitIndexSaved;
    }

    /** Any operation: a start, any sequence of checkpoints, saves and restores with any outcomes of the hardware, and a
        finish.  Every commit happens inside a transaction, every index is in range, one split is counted for every
        segment, and every checkpoint is counted once in the length of a segment.  The one way not to finish is a
        checkpoint that would start a segment beyond the last one; nothing in the code prevents it, and it takes more
        events than segments are left. */
    method Operation(op: int, first: Env, events: seq<Event>) returns (finished: bool)
      requires Valid() && !inTransaction && 0 <= op < MAX_OPS
      modifies this, segments
      ensures Valid()
      ensures finished ==>
        && !inTransaction && !isSlowPath && nOps == old(nOps) + 1
        && old(splitCounter) < splitCounter <= old(splitCounter) + |events| + 1
        && nSplitLength == old(nSplitLength) + Checkpoints(events)
        && (events != [] && !events[|events| - 1].SplitHere? ==> splitIndex == splitIndexSaved + 1)
        && ((forall i :: 0 <= i < |events| ==> !events[i].Save?) ==> splitIndexSaved == old(splitIndexSaved))
      ensures !finished ==> Running() && nOps == old(nOps) && splitIndex + 1 == MAX_SEGMENTS && curLen >= curLimit
      ensures old(splitIndexSaved) + |events| < MAX_SEGMENTS ==> finished
    {
      SplitStart(op, first);
      var i := 0;
      while i < |events|
        invariant 0 <= i <= |events| && Valid() && InRange() && Running()
        invariant nOps == old(nOps) && old(splitCounter) <= splitCounter <= old(splitCounter) + i
        invariant splitIndex <= old(splitIndexSaved) + i && 0 <= splitIndexSaved <= old(splitIndexSaved) + i
        invariant nSplitLength + curLen == old(nSplitLength) + Checkpoints(events[..i])
        invariant 0 < i && !events[i - 1].SplitHere? ==> splitIndex == splitIndexSaved
        invariant (forall j :: 0 <= j < i ==> !events[j].Save?) ==> splitIndexSaved == old(splitIndexSaved)
        decreases |events| - i
      {
        assert events[..i + 1] == events[..i] + [events[i]];
        match events[i] {
          case SplitHere(env) =>
            if curLen >= curLimit && splitIndex + 1 >= MAX_SEGMENTS {
              return false;
            }
            Split(env);
          case Save => SplitSave();
          case Restore => SplitRestore();
        }
        i := i + 1;
      }
      assert events[..|events|] == events;
      SplitFinish();
      finished := true;
    }
  }

  datatype Event = SplitHere(env: Env) | Save | Restore

  function Checkpoints(events: seq<Event>): nat {
    if events == [] then 0
    else Checkpoints(events[..|events| - 1]) + if events[|events| - 1].SplitHere? then 1 else 0
  }
}
