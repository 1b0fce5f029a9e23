/** The skip list run by one thread, as imperative code on a heap of nodes, proved against one sequence of nodes per
    level.  With a single thread every validation succeeds and every lock is free; the branches that wait for another
    thread are never taken. */
module SequentialSkipList {

  const MAX_LEVEL: nat := 10
  const MIN_KEY: int := 0
  const MAX_KEY: int := 0x1000_0000

  class Node {
    const key: int
    const topLevel: int
    var lock: bool
    var marked: bool
    var fullyLinked: bool
    var next: seq<Node?>

    /** sl_node_alloc and sl_node_init; the links start as NULL. */
    constructor (key: int, height: int)
      ensures this.key == key && topLevel == height && !lock && !marked && !fullyLinked
      ensures |next| == MAX_LEVEL && forall l :: 0 <= l < MAX_LEVEL ==> next[l] == null
    {
      this.key, topLevel := key, height;
      lock, marked, fullyLinked := false, false, false;
      next := seq(MAX_LEVEL, _ => null);
    }

    /** Lines 366-368, the loop of skiplist_init. */
    method LinkAll(to: Node)
      requires |next| == MAX_LEVEL
      modifies this`next
      ensures |next| == MAX_LEVEL && forall l :: 0 <= l < MAX_LEVEL ==> next[l] == to
    {
      var i := 0;
      while i < MAX_LEVEL
        invariant 0 <= i <= MAX_LEVEL && |next| == MAX_LEVEL
        invariant forall l :: 0 <= l < i ==> next[l] == to
        decreases MAX_LEVEL - i
      {
        next := next[i := to];
        i := i + 1;
      }
    }

    /** sl_node_lock: with no other thread the lock must be free, or the loop of line 31 would spin for ever. */
    method Lock()
      requires !lock
      modifies this`lock
      ensures lock
    {
      lock := true;
    }

    method Unlock()
      modifies this`lock
      ensures !lock
    {
      lock := false;
    }
  }

  // ----- sequences of nodes -----

  ghost predicate Increasing(c: seq<Node>) {
    forall i, j :: 0 <= i < j < |c| ==> c[i].key < c[j].key
  }

  /** A linear scan: the index of the first node whose key is not below the given one. */
  ghost function Position(c: seq<Node>, key: int): (i: nat)
    ensures i <= |c|
    ensures forall j :: 0 <= j < i ==> c[j].key < key
    ensures i < |c| ==> key <= c[i].key
  {
    if c == [] || key <= c[0].key then 0
    else
      var i := Position(c[1..], key);
      assert forall j :: 0 < j < i + 1 ==> c[j] == c[1..][j - 1];
      1 + i
  }

  lemma IncreasingTail(c: seq<Node>)
    requires Increasing(c) && c != []
    ensures Increasing(c[1..])
  {
  }

  /** Between its neighbours a key has only one position. */
  lemma {:induction false} PositionIs(c: seq<Node>, key: int, i: nat)
    requires Increasing(c) && i <= |c| && (0 < i ==> c[i - 1].key < key) && (i < |c| ==> key <= c[i].key)
    ensures Position(c, key) == i
  {
    if 0 < i {
      assert c[0].key <= c[i - 1].key;
      IncreasingTail(c);
      PositionIs(c[1..], key, i - 1);
    }
  }

  ghost predicate HasKey(c: seq<Node>, key: int) {
    exists i :: 0 <= i < |c| && c[i].key == key
  }

  ghost function NodesOf(c: seq<Node>): set<Node> {
    set n | n in c
  }

  ghost function KeysOf(c: seq<Node>): set<int> {
    set n | n in c :: n.key
  }

  /** The sequence with n at its place in key order. */
  ghost function Inserted(c: seq<Node>, n: Node): seq<Node> {
    InsertAt(c, Position(c, n.key), n)
  }

  /** The sequence without the node that has n's key. */
  ghost function Deleted(c: seq<Node>, n: Node): seq<Node> {
    var i := Position(c, n.key);
    if i < |c| && c[i].key == n.key then RemoveAt(c, i) else c
  }

  ghost function InsertAt(c: seq<Node>, i: nat, n: Node): seq<Node>
    requires i <= |c|
  {
    c[..i] + [n] + c[i..]
  }

  ghost function RemoveAt(c: seq<Node>, i: nat): seq<Node>
    requires i < |c|
  {
    c[..i] + c[i + 1..]
  }

  lemma InsertAtMembers(c: seq<Node>, i: nat, n: Node)
    requires i <= |c|
    ensures forall m :: m in InsertAt(c, i, n) <==> m in c || m == n
  {
    assert c == c[..i] + c[i..];
  }

  lemma RemoveAtMembers(c: seq<Node>, i: nat)
    requires Increasing(c) && i < |c|
    ensures forall m :: m in RemoveAt(c, i) <==> m in c && m.key != c[i].key
  {
    assert c == c[..i] + [c[i]] + c[i + 1..];
    assert forall m :: m in c[..i] ==> m.key < c[i].key;
    assert forall m :: m in c[i + 1..] ==> c[i].key < m.key;
  }

  lemma InsertAtIncreasing(c: seq<Node>, i: nat, n: Node)
    requires Increasing(c) && i <= |c| && (0 < i ==> c[i - 1].key < n.key) && (i < |c| ==> n.key < c[i].key)
    ensures Increasing(InsertAt(c, i, n))
  {
    var d := InsertAt(c, i, n);
    forall j | 0 <= j < i ensures c[j].key < n.key {
      assert c[j].key <= c[i - 1].key;
    }
    forall j | i <= j < |c| ensures n.key < c[j].key {
      assert c[i].key <= c[j].key;
    }
    assert forall j :: 0 <= j < |d| ==> d[j] == if j < i then c[j] else if j == i then n else c[j - 1];
  }

  /** Insertion is set insertion. */
  lemma InsertedIsInsert(c: seq<Node>, n: Node)
    requires Increasing(c) && !HasKey(c, n.key)
    ensures Increasing(Inserted(c, n))
    ensures forall m :: m in Inserted(c, n) <==> m in c || m == n
    ensures KeysOf(Inserted(c, n)) == KeysOf(c) + {n.key}
  {
    InsertAtMembers(c, Position(c, n.key), n);
    InsertAtIncreasing(c, Position(c, n.key), n);
  }

  lemma AbsentAway(c: seq<Node>, key: int)
    requires Increasing(c) && (Position(c, key) < |c| ==> c[Position(c, key)].key != key)
    ensures forall m :: m in c ==> m.key != key
  {
    var i := Position(c, key);
    forall j | 0 <= j < |c| ensures c[j].key != key {
      assert i < j ==> c[i].key < c[j].key;
    }
  }

  lemma RemoveAtIncreasing(c: seq<Node>, i: nat)
    requires Increasing(c) && i < |c|
    ensures Increasing(RemoveAt(c, i))
  {
    var d := RemoveAt(c, i);
    assert forall j :: 0 <= j < |d| ==> d[j] == if j < i then c[j] else c[j + 1];
  }

  lemma KeysMinus(c: seq<Node>, d: seq<Node>, key: int)
    requires forall m :: m in d <==> m in c && m.key != key
    ensures KeysOf(d) == KeysOf(c) - {key}
  {
  }

  /** Deletion is set deletion. */
  lemma DeletedIsDelete(c: seq<Node>, n: Node)
    requires Increasing(c)
    ensures Increasing(Deleted(c, n))
    ensures forall m :: m in Deleted(c, n) <==> m in c && m.key != n.key
    ensures KeysOf(Deleted(c, n)) == KeysOf(c) - {n.key}
  {
    var i := Position(c, n.key);
    if i < |c| && c[i].key == n.key {
      RemoveAtMembers(c, i);
      RemoveAtIncreasing(c, i);
    } else {
      AbsentAway(c, n.key);
    }
    KeysMinus(c, Deleted(c, n), n.key);
  }

  /** Deleting what has been inserted restores the sequence. */
  lemma DeletedInserted(c: seq<Node>, n: Node, m: Node)
    requires Increasing(c) && !HasKey(c, n.key) && m.key == n.key
    ensures Deleted(Inserted(c, n), m) == c
  {
    var i := Position(c, n.key);
    InsertAtIncreasing(c, i, n);
    PositionIs(InsertAt(c, i, n), m.key, i);
    RemoveInserted(c, i, n);
  }

  lemma RemoveInserted(c: seq<Node>, i: nat, n: Node)
    requires i <= |c|
    ensures RemoveAt(InsertAt(c, i, n), i) == c && InsertAt(c, i, n)[i] == n
  {
  }

  // ----- the search's result -----

  /** The predecessor and the successor that a linear scan of the level finds. */
  ghost predicate Brackets(c: seq<Node>, key: int, pred: Node?, succ: Node?) {
    var i := Position(c, key);
    0 < i < |c| && pred == c[i - 1] && succ == c[i]
  }

  /** The search agrees with a linear scan of every level; lFound is the topLevel of the node with the key, or -1. */
  ghost predicate Searched(levels: seq<seq<Node>>, key: int, preds: seq<Node?>, succs: seq<Node?>, lFound: int) {
    Bracketed(levels, key, preds, succs) && lFound == FoundAt(levels[0], key)
  }

  ghost predicate Bracketed(levels: seq<seq<Node>>, key: int, preds: seq<Node?>, succs: seq<Node?>) {
    && |levels| == |preds| == |succs| == MAX_LEVEL
    && (forall l :: 0 <= l < MAX_LEVEL ==> Brackets(levels[l], key, preds[l], succs[l]))
  }

  /** What the search returns, by a linear scan of level 0. */
  ghost function FoundAt(c: seq<Node>, key: int): int {
    var i := Position(c, key);
    if i < |c| && c[i].key == key then c[i].topLevel else -1
  }

  /** Which nodes each level holds. */
  ghost predicate Nested(levels: seq<seq<Node>>) {
    && |levels| == MAX_LEVEL
    && (forall l, n :: 0 <= l < MAX_LEVEL && n in levels[l] ==> n in levels[0] && l <= n.topLevel)
    && (forall n :: n in levels[0] ==> 0 <= n.topLevel < MAX_LEVEL)
    && (forall n, l :: n in levels[0] && 0 <= l <= n.topLevel ==> n in levels[l])
  }

  ghost predicate InRepr(c: seq<Node>, repr: set<Node>) {
    forall i :: 0 <= i < |c| ==> c[i] in repr
  }

  ghost predicate Inside(levels: seq<seq<Node>>, repr: set<Node>) {
    forall l :: 0 <= l < |levels| ==> InRepr(levels[l], repr)
  }

  /** One level: from the head to the tail in key order. */
  ghost predicate LevelOk(c: seq<Node>, head: Node, tail: Node) {
    |c| >= 2 && c[0] == head && c[|c| - 1] == tail && Increasing(c)
  }

  ghost predicate Sorted(levels: seq<seq<Node>>, head: Node, tail: Node) {
    && |levels| == MAX_LEVEL && (forall l :: 0 <= l < MAX_LEVEL ==> LevelOk(levels[l], head, tail))
    && head.key == MIN_KEY && tail.key == MAX_KEY
  }

  ghost function Prefix(preds: seq<Node?>, k: nat): (s: set<Node>)
    requires k <= |preds|
    ensures forall n :: n in s ==> n in preds[..k]
    ensures forall j :: 0 <= j < k && preds[j] != null ==> preds[j] in s
  {
    set n: Node | n in preds[..k]
  }

  /** lFound is the highest level above `level` at which the search met the key. */
  ghost predicate FirstSeen(succs: seq<Node?>, key: int, level: int, lFound: int) {
    && -1 <= level < |succs| == MAX_LEVEL
    && (forall l :: level < l < MAX_LEVEL ==> succs[l] != null && (lFound < l ==> succs[l].key != key))
    && (lFound == -1 || (level < lFound < MAX_LEVEL && succs[lFound].key == key))
  }

  /** The levels above `level` are searched. */
  ghost predicate Recorded(levels: seq<seq<Node>>, key: int, preds: seq<Node?>, succs: seq<Node?>, level: int, lFound: int) {
    && |levels| == |preds| == MAX_LEVEL && FirstSeen(succs, key, level, lFound)
    && (forall l :: level < l < MAX_LEVEL ==> Brackets(levels[l], key, preds[l], succs[l]))
  }

  lemma RecordsOneMore(levels: seq<seq<Node>>, key: int, preds: seq<Node?>, succs: seq<Node?>, level: int, lFound: int,
                       pred: Node, curr: Node)
    requires Recorded(levels, key, preds, succs, level, lFound) && 0 <= level
    requires Brackets(levels[level], key, pred, curr)
    ensures Recorded(levels, key, preds[level := pred], succs[level := curr], level - 1,
                     if lFound == -1 && key == curr.key then level else lFound)
  {
  }

  lemma KeyAtPosition(c: seq<Node>, n: Node)
    requires Increasing(c) && n in c
    ensures Position(c, n.key) < |c| && c[Position(c, n.key)] == n
  {
    var i := IndexOf(c, n);
    PositionIs(c, n.key, i);
  }

  lemma FirstSeenIsTop(levels: seq<seq<Node>>, key: int, preds: seq<Node?>, succs: seq<Node?>, lFound: int)
    requires Nested(levels) && (forall l :: 0 <= l < MAX_LEVEL ==> Increasing(levels[l]))
    requires Recorded(levels, key, preds, succs, -1, lFound)
    ensures Searched(levels, key, preds, succs, lFound)
  {
    assert Brackets(levels[0], key, preds[0], succs[0]);
    if lFound != -1 {
      var n := succs[lFound];
      assert Brackets(levels[lFound], key, preds[lFound], n);
      assert n in levels[lFound] && n in levels[0];
      KeyAtPosition(levels[0], n);
      assert n in levels[n.topLevel];
      KeyAtPosition(levels[n.topLevel], n);
      assert Brackets(levels[n.topLevel], key, preds[n.topLevel], succs[n.topLevel]);
    }
  }

  /** Every level of the empty list leads from the head to the tail. */
  ghost function EmptyLevels(head: Node, tail: Node): (levels: seq<seq<Node>>)
    ensures |levels| == MAX_LEVEL && forall l :: 0 <= l < MAX_LEVEL ==> levels[l] == [head, tail]
  {
    seq(MAX_LEVEL, _ => [head, tail])
  }

  /** The levels below k with n inserted. */
  ghost function InsertedBelow(levels: seq<seq<Node>>, n: Node, k: nat): (after: seq<seq<Node>>)
    ensures |after| == |levels|
    ensures forall l :: 0 <= l < |levels| ==> after[l] == if l < k then Inserted(levels[l], n) else levels[l]
  {
    seq(|levels|, l requires 0 <= l < |levels| => if l < k then Inserted(levels[l], n) else levels[l])
  }

  /** Levels lo to hi without n. */
  ghost function DeletedBetween(levels: seq<seq<Node>>, n: Node, lo: int, hi: int): (after: seq<seq<Node>>)
    ensures |after| == |levels|
    ensures forall l :: 0 <= l < |levels| ==> after[l] == if lo <= l <= hi then Deleted(levels[l], n) else levels[l]
  {
    seq(|levels|, l requires 0 <= l < |levels| => if lo <= l <= hi then Deleted(levels[l], n) else levels[l])
  }

  /** Chained, for links that have been recorded. */
  ghost predicate ChainedIn(c: seq<Node>, l: int, links: map<Node, seq<Node?>>)
    requires 0 <= l < MAX_LEVEL
  {
    forall i :: 0 <= i < |c| - 1 ==> c[i] in links && |links[c[i]]| == MAX_LEVEL && links[c[i]][l] == c[i + 1]
  }

  ghost predicate OnlyAt(level: int, next: seq<Node?>, before: seq<Node?>) {
    |before| == MAX_LEVEL ==> |next| == MAX_LEVEL && forall j :: 0 <= j < MAX_LEVEL && j != level ==> next[j] == before[j]
  }

  class SkipList {
    const head: Node
    const tail: Node
    ghost var levels: seq<seq<Node>>   // the nodes of each level, from head to tail
    ghost var repr: set<Node>

    /** The links of the nodes of c lead from each to the next. */
    ghost predicate Chained(c: seq<Node>, l: int)
      requires 0 <= l < MAX_LEVEL
      reads c`next
    {
      forall i :: 0 <= i < |c| - 1 ==> |c[i].next| == MAX_LEVEL && c[i].next[l] == c[i + 1]
    }

    ghost predicate Linked()
      reads this`levels, this`repr, repr`next
    {
      && Inside(levels, repr)
      && Sorted(levels, head, tail)
      && (forall l :: 0 <= l < MAX_LEVEL ==> Chained(levels[l], l))
    }

    /** The locks held are those of the given nodes. */
    ghost predicate Locked(held: set<Node>)
      reads this`repr, repr`lock
    {
      forall n :: n in repr ==> (n.lock <==> n in held)
    }

    /** The nodes marked are the given ones. */
    ghost predicate Marked(marked: set<Node>)
      reads this`repr, repr`marked
    {
      forall n :: n in repr ==> (n.marked <==> n in marked)
    }

    /** The insertion of every node but the pending ones is complete. */
    ghost predicate Complete(pending: set<Node>)
      reads this`repr, repr`fullyLinked
    {
      forall n :: n in repr && n != head && n != tail && n !in pending ==> n.fullyLinked && MIN_KEY < n.key < MAX_KEY
    }

    ghost predicate TailEnds()
      reads tail`next
    {
      |tail.next| == MAX_LEVEL && forall l :: 0 <= l < MAX_LEVEL ==> tail.next[l] == null
    }

    /** The links, flags and locks, without what relates the levels to each other. */
    ghost predicate Steady(held: set<Node>, marked: set<Node>, pending: set<Node>)
      reads this`levels, this`repr, repr, tail`next
    {
      Linked() && Sized() && Complete(pending) && Locked(held) && Marked(marked) && TailEnds() && tail in repr
    }

    ghost predicate Sized()
      reads this`repr, repr`next
    {
      forall n :: n in repr ==> |n.next| == MAX_LEVEL
    }

    /** Valid, but for the locks that this thread holds and the marks that it has set. */
    ghost predicate ValidBut(held: set<Node>, marked: set<Node>)
      reads this`levels, this`repr, repr, tail`next
    {
      Steady(held, marked, {}) && Nested(levels) && repr == NodesOf(levels[0])
    }

    ghost predicate Valid()
      reads this`levels, this`repr, repr, tail`next
    {
      ValidBut({}, {})
    }

    /** skiplist_init. */
    constructor ()
      ensures Valid() && fresh(repr) && levels == EmptyLevels(head, tail)
    {
      var h := new Node(MIN_KEY, MAX_LEVEL - 1);
      var t := new Node(MAX_KEY, MAX_LEVEL - 1);
      head, tail := h, t;
      levels := EmptyLevels(h, t);
      repr := {h, t};
      new;
      h.LinkAll(t);
      EmptyIsValid();
    }

    lemma EmptyIsValid()
      requires levels == EmptyLevels(head, tail) && repr == {head, tail}
      requires head.key == MIN_KEY && tail.key == MAX_KEY && head.topLevel == tail.topLevel == MAX_LEVEL - 1
      requires !head.lock && !head.marked && !tail.lock && !tail.marked && |head.next| == |tail.next| == MAX_LEVEL
      requires forall l :: 0 <= l < MAX_LEVEL ==> head.next[l] == tail && tail.next[l] == null
      ensures Valid()
    {
      FirstLevels(head, tail);
      assert NodesOf([head, tail]) == {head, tail};
    }

    /** The inner loop of sl_find_pure: along one level, from a node before the key.  With one thread no node on the way is
        marked and no link is NULL, so the search does not restart. */
    method Walk(level: int, start: Node, key: int) returns (pred: Node, curr: Node?, restart: bool)
      requires Linked() && Marked({}) && 0 <= level < MAX_LEVEL
      requires start in levels[level] && start.key < key < MAX_KEY
      ensures !restart && curr != null
      ensures Brackets(levels[level], key, pred, curr) && pred in levels[level] && pred.key < key
    {
      ghost var c := levels[level];
      ghost var i := IndexOf(c, start);
      assert Chained(c, level) && LevelOk(c, head, tail) && InRepr(c, repr);
      pred := start;
      assert i < |c| - 1 && c[i].next[level] == c[i + 1];
      curr := pred.next[level];
      restart := curr == null || curr.marked;
      while !restart && key > curr.key
        invariant 0 <= i < |c| - 1 && c[i] == pred && c[i + 1] == curr && pred.key < key && c == levels[level]
        invariant !restart
        decreases |c| - i
      {
        pred := curr;
        assert c[i + 1].next[level] == c[i + 2];
        curr := pred.next[level];
        restart := curr == null || curr.marked;
        i := i + 1;
      }
      PositionIs(c, key, i + 1);
    }

    /** sl_find_pure. */
    method Find(key: int) returns (lFound: int, preds: seq<Node?>, succs: seq<Node?>)
      requires Valid() && MIN_KEY < key < MAX_KEY
      ensures Searched(levels, key, preds, succs, lFound)
    {
      lFound, preds, succs := -1, seq(MAX_LEVEL, _ => null), seq(MAX_LEVEL, _ => null);
      var restart := true;
      while restart
        invariant |preds| == |succs| == MAX_LEVEL
        invariant !restart ==> Searched(levels, key, preds, succs, lFound)
        decreases restart
      {
        lFound, preds, succs, restart := Descend(key, preds, succs);
      }
    }

    /** The outer loop of sl_find_pure, from the top level down. */
    method Descend(key: int, oldPreds: seq<Node?>, oldSuccs: seq<Node?>)
      returns (lFound: int, preds: seq<Node?>, succs: seq<Node?>, restart: bool)
      requires Valid() && MIN_KEY < key < MAX_KEY && |oldPreds| == |oldSuccs| == MAX_LEVEL
      ensures !restart && Searched(levels, key, preds, succs, lFound)
    {
      lFound, preds, succs := -1, oldPreds, oldSuccs;
      var pred := head;
      restart := pred.marked;
      var level := MAX_LEVEL - 1;
      while level >= 0 && !restart
        invariant -1 <= level < MAX_LEVEL && !restart
        invariant 0 <= level ==> pred in levels[level] && pred.key < key
        invariant Recorded(levels, key, preds, succs, level, lFound)
        decreases level
      {
        var curr;
        pred, curr, restart := Walk(level, pred, key);
        RecordsOneMore(levels, key, preds, succs, level, lFound, pred, curr);
        if lFound == -1 && key == curr.key {
          lFound := level;
        }
        preds := preds[level := pred];
        succs := succs[level := curr];
        LowerLevel(levels, level, pred);
        level := level - 1;
      }
      FirstSeenIsTop(levels, key, preds, succs, lFound);
    }

    /** skiplist_contains_pure. */
    method Contains(key: int) returns (ret: bool)
      requires Valid() && MIN_KEY < key < MAX_KEY
      ensures ret <==> key in KeysOf(levels[0])
    {
      var lFound, preds, succs := Find(key);
      FoundIffKey(levels[0], key);
      if lFound != -1 {
        FoundIsSucc(levels, key, preds, succs, lFound);
      }
      ret := lFound != -1 && succs[lFound].fullyLinked && !succs[lFound].marked;
    }

    // ----- skiplist_insert_pure -----

    /** Lines 481-484 and 770-772: lock the predecessor at one level unless the level below has it. */
    method LockAt(preds: seq<Node?>, level: int, ghost held: set<Node>)
      requires 0 <= level < |preds| && preds[level] != null && preds[level] in repr && Locked(held)
      requires preds[level] in held <==> 0 < level && preds[level] == preds[level - 1]
      modifies repr`lock
      ensures Locked(held + {preds[level]})
    {
      if level == 0 || preds[level] != preds[level - 1] {
        preds[level].Lock();
      }
    }

    ghost predicate LeadsTo(pred: Node, succ: Node, l: int)
      reads pred`next
    {
      |pred.next| == MAX_LEVEL && 0 <= l < MAX_LEVEL && pred.next[l] == succ
    }

    /** The predecessors lead to the successors. */
    ghost predicate Leading(preds: seq<Node?>, succs: seq<Node?>)
      reads this`repr, repr`next
    {
      && |preds| == |succs| == MAX_LEVEL
      && (forall l :: 0 <= l < MAX_LEVEL ==>
            && preds[l] != null && succs[l] != null && preds[l] in repr && succs[l] in repr
            && |preds[l].next| == MAX_LEVEL && preds[l].next[l] == succs[l])
    }

    /** Lines 474-489: with one thread every level is valid. */
    method LockForInsert(preds: seq<Node?>, succs: seq<Node?>, topLevel: int) returns (highestLocked: int, valid: bool)
      requires Leading(preds, succs) && Lockable(preds) && 0 <= topLevel < MAX_LEVEL && Locked({}) && Marked({})
      modifies repr`lock
      ensures highestLocked == topLevel && valid && Locked(Prefix(preds, topLevel + 1))
    {
      highestLocked := -1;
      valid := true;
      var level := 0;
      while valid && level <= topLevel
        invariant 0 <= level <= topLevel + 1 && highestLocked == level - 1 && valid
        invariant Locked(Prefix(preds, level))
        decreases topLevel - level
      {
        PrefixGrows(preds, level);
        LockAt(preds, level, Prefix(preds, level));
        highestLocked := level;
        var pred, succ := preds[level], succs[level];
        valid := !pred.marked && !succ.marked && pred.next[level] == succ;
        level := level + 1;
      }
    }

    lemma BracketsLead(key: int, preds: seq<Node?>, succs: seq<Node?>)
      requires Linked() && Nested(levels) && repr == NodesOf(levels[0]) && Bracketed(levels, key, preds, succs)
      ensures Leading(preds, succs) && Lockable(preds)
    {
      forall l | 0 <= l < MAX_LEVEL
        ensures preds[l] != null && (preds[l] in Prefix(preds, l) <==> 0 < l && preds[l] == preds[l - 1])
      {
        LockTarget(levels, key, preds, succs, l);
        NextIsSucc(l, key, preds, succs);
      }
      forall l | 0 <= l < MAX_LEVEL
        ensures preds[l] != null && succs[l] != null && preds[l] in repr && succs[l] in repr
        ensures |preds[l].next| == MAX_LEVEL && preds[l].next[l] == succs[l]
      {
        NextIsSucc(l, key, preds, succs);
      }
    }

    lemma NextIsSucc(level: int, key: int, preds: seq<Node?>, succs: seq<Node?>)
      requires Linked() && Nested(levels) && repr == NodesOf(levels[0]) && 0 <= level < MAX_LEVEL
      requires |preds| == |succs| == MAX_LEVEL && Brackets(levels[level], key, preds[level], succs[level])
      ensures preds[level] != null && succs[level] != null && preds[level] in repr && succs[level] in repr
      ensures |preds[level].next| == MAX_LEVEL && preds[level].next[level] == succs[level]
    {
      var c := levels[level];
      var i := Position(c, key);
      assert Chained(c, level);
      assert c[i - 1].next[level] == c[i - 1 + 1];
      assert c[i - 1] in levels[level] && c[i] in levels[level];
    }

    /** The links as they are now. */
    ghost function Links(): map<Node, seq<Node?>>
      reads this`repr, repr`next
    {
      map n | n in repr :: n.next
    }

    lemma ChainInserted(c: seq<Node>, l: int, i: nat, n: Node, links: map<Node, seq<Node?>>)
      requires 0 <= l < MAX_LEVEL && 0 < i < |c| && Increasing(c) && n !in c && ChainedIn(c, l, links)
      requires forall m :: m in c && m in links && m != c[i - 1] ==> m.next == links[m]
      requires |c[i - 1].next| == MAX_LEVEL && c[i - 1].next[l] == n && |n.next| == MAX_LEVEL && n.next[l] == c[i]
      ensures Chained(InsertAt(c, i, n), l)
    {
      var d := InsertAt(c, i, n);
      forall j | 0 <= j < |d| - 1 ensures |d[j].next| == MAX_LEVEL && d[j].next[l] == d[j + 1] {
        if j != i - 1 && j != i {
          var k := if j < i then j else j - 1;
          assert d[j] == c[k] && d[j + 1] == c[k + 1] && c[k].key != c[i - 1].key;
          assert links[c[k]][l] == c[k + 1];
        }
      }
    }

    /** A write to one level leaves the other levels' chains alone. */
    lemma OthersChained(level: int, links: map<Node, seq<Node?>>)
      requires |levels| == MAX_LEVEL && forall l :: 0 <= l < MAX_LEVEL ==> ChainedIn(levels[l], l, links)
      requires forall m :: m in links ==> OnlyAt(level, m.next, links[m])
      ensures forall l :: 0 <= l < MAX_LEVEL && l != level ==> Chained(levels[l], l)
    {
      forall l, i | 0 <= l < MAX_LEVEL && l != level && 0 <= i < |levels[l]| - 1
        ensures |levels[l][i].next| == MAX_LEVEL && levels[l][i].next[l] == levels[l][i + 1]
      {
        assert ChainedIn(levels[l], l, links);
        assert OnlyAt(level, levels[l][i].next, links[levels[l][i]]);
      }
    }

    /** One level is replaced, and the links are those of the new level. */
    lemma Relinked(level: int, c: seq<Node>, after: seq<seq<Node>>)
      requires Sorted(levels, head, tail) && Inside(levels, repr) && 0 <= level < MAX_LEVEL
      requires forall l :: 0 <= l < MAX_LEVEL && l != level ==> Chained(levels[l], l)
      requires LevelOk(c, head, tail) && InRepr(c, repr) && Chained(c, level) && after == levels[level := c]
      ensures Sorted(after, head, tail) && Inside(after, repr)
      ensures forall l :: 0 <= l < MAX_LEVEL ==> Chained(after[l], l)
    {
    }

    /** The links after n has been put between two nodes of one level. */
    lemma AfterLink(level: int, i: nat, n: Node, links: map<Node, seq<Node?>>)
      requires Sorted(levels, head, tail) && Inside(levels, repr) && 0 <= level < MAX_LEVEL && n in repr
      requires forall l :: 0 <= l < MAX_LEVEL ==> ChainedIn(levels[l], l, links)
      requires forall m :: m in links ==> OnlyAt(level, m.next, links[m])
      requires var c := levels[level];
        && 0 < i < |c| && c[i - 1].key < n.key < c[i].key && n !in c
        && (forall m :: m in links && m != c[i - 1] && m != n ==> m.next == links[m])
        && |c[i - 1].next| == MAX_LEVEL && c[i - 1].next[level] == n && |n.next| == MAX_LEVEL && n.next[level] == c[i]
      ensures var after := levels[level := InsertAt(levels[level], i, n)];
        && Sorted(after, head, tail) && Inside(after, repr)
        && forall l :: 0 <= l < MAX_LEVEL ==> Chained(after[l], l)
    {
      var c := levels[level];
      ChainInserted(c, level, i, n, links);
      OthersChained(level, links);
      InsertedLevel(c, i, head, tail, n, repr);
      Relinked(level, InsertAt(c, i, n), levels[level := InsertAt(c, i, n)]);
    }

    /** Lines 499-500: link the new node at one level. */
    method LinkLevel(level: int, pred: Node, n: Node, succ: Node)
      requires Linked() && Sized() && n in repr && pred in repr && 0 <= level < MAX_LEVEL && n !in levels[level]
      requires Brackets(levels[level], n.key, pred, succ) && n.key < succ.key
      modifies pred`next, n`next, this`levels
      ensures Linked() && Sized() && levels == old(levels)[level := Inserted(old(levels[level]), n)]
    {
      ghost var c := levels[level];
      ghost var i := Position(c, n.key);
      ghost var links := Links();
      assert forall l :: 0 <= l < MAX_LEVEL ==> ChainedIn(levels[l], l, links);
      n.next := n.next[level := succ];
      pred.next := pred.next[level := n];
      assert Sized();
      AfterLink(level, i, n, links);
      levels := levels[level := InsertAt(c, i, n)];
    }

    /** Lines 498-501: link the new node bottom-up. */
    method LinkNew(n: Node, preds: seq<Node?>, succs: seq<Node?>, topLevel: int)
      requires Linked() && Sized() && n in repr && 0 <= topLevel < MAX_LEVEL && Bracketed(levels, n.key, preds, succs)
      requires forall l :: 0 <= l < MAX_LEVEL ==> n !in levels[l] && n.key < succs[l].key
      requires n.key < MAX_KEY
      modifies this`levels, repr`next
      ensures Linked() && Sized() && levels == InsertedBelow(old(levels), n, topLevel + 1)
      ensures tail.next == old(tail.next)
    {
      var level := 0;
      while level <= topLevel
        invariant 0 <= level <= topLevel + 1 && Linked() && Sized() && repr == old(repr)
        invariant levels == InsertedBelow(old(levels), n, level) && tail.next == old(tail.next)
        decreases topLevel - level
      {
        assert levels[level] == old(levels)[level];
        assert Brackets(levels[level], n.key, preds[level], succs[level]);
        assert preds[level] in levels[level] && preds[level].key < MAX_KEY;
        LinkLevel(level, preds[level], n, succs[level]);
        assert levels == InsertedBelow(old(levels), n, level + 1);
        level := level + 1;
      }
    }

    /** Lines 507-512 and 798-802. */
    method UnlockPreds(preds: seq<Node?>, highestLocked: int)
      requires Lockable(preds) && -1 <= highestLocked < |preds| && (forall l :: 0 <= l < |preds| ==> preds[l] in repr)
      requires Locked(Prefix(preds, highestLocked + 1))
      modifies repr`lock
      ensures Locked({})
    {
      var level := 0;
      while level <= highestLocked
        invariant 0 <= level <= highestLocked + 1
        invariant Locked(Prefix(preds, highestLocked + 1) - Prefix(preds, level))
        decreases highestLocked - level
      {
        PrefixGrows(preds, level);
        if level == 0 || preds[level] != preds[level - 1] {
          preds[level].Unlock();
        }
        level := level + 1;
      }
    }

    /** Lines 494-497: a node of its own. */
    method AllocNode(key: int, topLevel: int, ghost held: set<Node>) returns (n: Node)
      requires Steady(held, {}, {}) && held <= repr
      modifies this`repr
      ensures Steady(held, {}, {n}) && repr == old(repr) + {n}
      ensures fresh(n) && n.key == key && n.topLevel == topLevel
    {
      n := new Node(key, topLevel);
      repr := repr + {n};
    }

    /** Line 502. */
    method CompleteNode(n: Node, ghost held: set<Node>)
      requires Steady(held, {}, {n}) && MIN_KEY < n.key < MAX_KEY
      modifies n`fullyLinked
      ensures Steady(held, {}, {})
    {
      n.fullyLinked := true;
    }

    /** Lines 494-502: the new node is allocated, linked and completed. */
    method AddNode(key: int, topLevel: int, preds: seq<Node?>, succs: seq<Node?>, ghost held: set<Node>)
      returns (n: Node)
      requires Steady(held, {}, {}) && MIN_KEY < key < MAX_KEY && 0 <= topLevel < MAX_LEVEL && held <= repr
      requires Bracketed(levels, key, preds, succs) && forall l :: 0 <= l < MAX_LEVEL ==> key < succs[l].key
      modifies this`levels, this`repr, repr`next
      ensures Steady(held, {}, {}) && fresh(n) && n.key == key && n.topLevel == topLevel
      ensures levels == InsertedBelow(old(levels), n, topLevel + 1) && repr == old(repr) + {n}
    {
      n := AllocNode(key, topLevel, held);
      LinkNew(n, preds, succs, topLevel);
      CompleteNode(n, held);
    }

    /** Lines 474-512: lock, validate, link, unlock. */
    method InsertBetween(key: int, topLevel: int, preds: seq<Node?>, succs: seq<Node?>)
      returns (done: bool, ret: Node?)
      requires Steady({}, {}, {}) && MIN_KEY < key < MAX_KEY && 0 <= topLevel < MAX_LEVEL
      requires Bracketed(levels, key, preds, succs) && forall l :: 0 <= l < MAX_LEVEL ==> key < succs[l].key
      requires Leading(preds, succs) && Lockable(preds)
      modifies this`levels, this`repr, repr
      ensures Steady({}, {}, {}) && done && ret != null && fresh(ret) && ret.key == key && ret.topLevel == topLevel
      ensures levels == InsertedBelow(old(levels), ret, topLevel + 1) && repr == old(repr) + {ret}
    {
      var highestLocked, valid := LockForInsert(preds, succs, topLevel);
      done, ret := false, null;
      if valid {
        ret := AddNode(key, topLevel, preds, succs, Prefix(preds, topLevel + 1));
        done := true;
      }
      UnlockPreds(preds, highestLocked);
    }

    lemma NestedAgain(before: seq<seq<Node>>, n: Node)
      requires Steady({}, {}, {}) && Nested(before) && n !in before[0] && 0 <= n.topLevel < MAX_LEVEL
      requires levels == InsertedBelow(before, n, n.topLevel + 1) && repr == NodesOf(before[0]) + {n}
      ensures Valid()
    {
      InsertedNested(before, n);
    }

    method InsertAbsent(key: int, topLevel: int, preds: seq<Node?>, succs: seq<Node?>)
      returns (done: bool, ret: Node?)
      requires Valid() && MIN_KEY < key < MAX_KEY && 0 <= topLevel < MAX_LEVEL
      requires Bracketed(levels, key, preds, succs) && key !in KeysOf(levels[0])
      modifies this`levels, this`repr, repr
      ensures Valid() && done && ret != null && fresh(ret) && ret.key == key && ret.topLevel == topLevel
      ensures levels == InsertedBelow(old(levels), ret, topLevel + 1)
    {
      ghost var before := levels;
      assert key !in KeysOf(before[0]) && repr == NodesOf(before[0]) && Nested(before);
      AbsentLeads(key, preds, succs);
      done, ret := InsertBetween(key, topLevel, preds, succs);
      NestedAgain(before, ret);
    }

    lemma AbsentLeads(key: int, preds: seq<Node?>, succs: seq<Node?>)
      requires Valid() && Bracketed(levels, key, preds, succs) && key !in KeysOf(levels[0])
      ensures Leading(preds, succs) && Lockable(preds)
      ensures forall l :: 0 <= l < MAX_LEVEL ==> key < succs[l].key
    {
      BracketsLead(key, preds, succs);
      StrictSuccs(levels, key, preds, succs);
    }

    /** skiplist_insert_pure.  A present key changes nothing and the answer is NULL; an absent key gets a new node,
        which goes to its place at every level up to its topLevel.  The node found is complete, so the spinning of line
        468 does not occur with one thread; nor does the retry of line 471. */
    method Insert(key: int, topLevel: int) returns (ret: Node?)
      requires Valid() && MIN_KEY < key < MAX_KEY && 0 <= topLevel < MAX_LEVEL
      modifies this`levels, this`repr, repr
      ensures Valid()
      ensures ret == null <==> key in KeysOf(old(levels)[0])
      ensures ret == null ==> levels == old(levels)
      ensures ret != null ==>
        && fresh(ret) && ret.key == key && ret.topLevel == topLevel
        && levels == InsertedBelow(old(levels), ret, topLevel + 1)
    {
      ret := null;
      var done := false;
      while !done
        invariant Valid()
        invariant ret == null ==> levels == old(levels) && repr == old(repr) && (done ==> key in KeysOf(old(levels)[0]))
        invariant ret != null ==>
          && done && key !in KeysOf(old(levels)[0]) && fresh(ret) && ret.key == key && ret.topLevel == topLevel
          && levels == InsertedBelow(old(levels), ret, topLevel + 1)
        decreases !done
      {
        var lFound, preds, succs := Find(key);
        FoundIffKey(levels[0], key);
        if lFound != -1 {
          FoundIsSucc(levels, key, preds, succs, lFound);
          var found := succs[lFound];
          assert found.fullyLinked;
          done := !found.marked;
        } else {
          done, ret := InsertAbsent(key, topLevel, preds, succs);
        }
      }
    }

    // ----- skiplist_remove_pure -----

    /** Lines 751-760: lock the victim and mark it, or let go of it if it is marked already. */
    method MarkVictim(victim: Node, ghost marked: set<Node>) returns (taken: bool)
      requires Steady({}, marked, {}) && victim in repr && marked <= {victim}
      modifies victim`lock, victim`marked
      ensures taken <==> victim !in marked
      ensures Steady(if taken then {victim} else {}, {victim}, {})
    {
      victim.Lock();
      taken := !victim.marked;
      if taken {
        victim.marked := true;
      } else {
        victim.Unlock();
      }
    }

    /** Lines 764-778: with one thread every level is valid. */
    method LockForRemove(preds: seq<Node?>, victim: Node, topLevel: int) returns (highestLocked: int, valid: bool)
      requires Lockable(preds) && 0 <= topLevel < MAX_LEVEL == |preds| && victim !in preds
      requires forall l :: 0 <= l <= topLevel ==> preds[l] != null && LeadsTo(preds[l], victim, l)
      requires forall l :: 0 <= l < |preds| ==> preds[l] in repr
      requires Locked({victim}) && Marked({victim})
      modifies repr`lock
      ensures highestLocked == topLevel && valid && Locked({victim} + Prefix(preds, topLevel + 1))
    {
      highestLocked := -1;
      valid := true;
      var level := 0;
      while valid && level <= topLevel
        invariant 0 <= level <= topLevel + 1 && highestLocked == level - 1 && valid
        invariant Locked({victim} + Prefix(preds, level))
        decreases topLevel - level
      {
        PrefixGrows(preds, level);
        LockAt(preds, level, {victim} + Prefix(preds, level));
        highestLocked := level;
        var pred := preds[level];
        assert LeadsTo(pred, victim, level);
        valid := !pred.marked && pred.next[level] == victim;
        level := level + 1;
      }
    }

    lemma ChainRemoved(c: seq<Node>, l: int, i: nat, links: map<Node, seq<Node?>>)
      requires 0 <= l < MAX_LEVEL && 0 < i < |c| - 1 && Increasing(c) && ChainedIn(c, l, links)
      requires forall m :: m in c && m in links && m != c[i - 1] && m != c[i] ==> m.next == links[m]
      requires |c[i - 1].next| == MAX_LEVEL && c[i - 1].next[l] == c[i + 1]
      ensures Chained(RemoveAt(c, i), l)
    {
      var d := RemoveAt(c, i);
      forall j | 0 <= j < |d| - 1 ensures |d[j].next| == MAX_LEVEL && d[j].next[l] == d[j + 1] {
        if j != i - 1 {
          var k := if j < i then j else j + 1;
          assert d[j] == c[k] && d[j + 1] == c[k + 1] && c[k].key != c[i - 1].key && c[k].key != c[i].key;
          assert links[c[k]][l] == c[k + 1];
        }
      }
    }

    /** The links after entry i of one level has been bypassed. */
    lemma AfterUnlink(level: int, i: nat, links: map<Node, seq<Node?>>)
      requires Sorted(levels, head, tail) && Inside(levels, repr) && 0 <= level < MAX_LEVEL
      requires forall l :: 0 <= l < MAX_LEVEL ==> ChainedIn(levels[l], l, links)
      requires forall m :: m in links ==> OnlyAt(level, m.next, links[m])
      requires var c := levels[level];
        && 0 < i < |c| - 1
        && (forall m :: m in links && m != c[i - 1] && m != c[i] ==> m.next == links[m])
        && |c[i - 1].next| == MAX_LEVEL && c[i - 1].next[level] == c[i + 1]
      ensures var after := levels[level := RemoveAt(levels[level], i)];
        && Sorted(after, head, tail) && Inside(after, repr)
        && forall l :: 0 <= l < MAX_LEVEL ==> Chained(after[l], l)
    {
      var c := levels[level];
      ChainRemoved(c, level, i, links);
      OthersChained(level, links);
      DeletedLevel(c, i, head, tail, repr);
      Relinked(level, RemoveAt(c, i), levels[level := RemoveAt(c, i)]);
    }

    /** Lines 784-785: unlink the victim at one level and set its link to NULL. */
    method UnlinkLevel(level: int, pred: Node, victim: Node)
      requires Linked() && Sized() && victim in repr && pred in repr && 0 <= level < MAX_LEVEL
      requires Brackets(levels[level], victim.key, pred, victim) && victim.key < MAX_KEY
      modifies pred`next, victim`next, this`levels
      ensures Linked() && Sized() && levels == old(levels)[level := Deleted(old(levels[level]), victim)]
      ensures victim.next == old(victim.next)[level := null]
    {
      ghost var c := levels[level];
      ghost var i := Position(c, victim.key);
      ghost var links := Links();
      assert forall l :: 0 <= l < MAX_LEVEL ==> ChainedIn(levels[l], l, links);
      assert victim.next[level] == c[i + 1];
      pred.next := pred.next[level := victim.next[level]];
      victim.next := victim.next[level := null];
      assert Sized();
      AfterUnlink(level, i, links);
      levels := levels[level := RemoveAt(c, i)];
    }

    /** Lines 783-786: unlink the victim top-down. */
    method UnlinkAll(victim: Node, preds: seq<Node?>, topLevel: int)
      requires Linked() && Sized() && victim in repr && victim.key < MAX_KEY && 0 <= topLevel < MAX_LEVEL == |preds|
      requires forall l :: 0 <= l <= topLevel ==>
        preds[l] != null && preds[l] in repr && Brackets(levels[l], victim.key, preds[l], victim)
      modifies this`levels, repr`next
      ensures Linked() && Sized() && levels == DeletedBetween(old(levels), victim, 0, topLevel)
      ensures tail.next == old(tail.next)
    {
      var level := topLevel;
      while level >= 0
        invariant -1 <= level <= topLevel && Linked() && Sized() && repr == old(repr)
        invariant levels == DeletedBetween(old(levels), victim, level + 1, topLevel) && tail.next == old(tail.next)
        decreases level
      {
        assert levels[level] == old(levels)[level];
        assert Brackets(levels[level], victim.key, preds[level], victim);
        assert preds[level].key < MAX_KEY;
        UnlinkLevel(level, preds[level], victim);
        assert levels == DeletedBetween(old(levels), victim, level, topLevel);
        level := level - 1;
      }
    }

    /** Lines 782-795: if every level is valid unlink the victim, otherwise clear its mark; in both cases let go of it. */
    method Detach(valid: bool, victim: Node, preds: seq<Node?>, topLevel: int, ghost held: set<Node>)
      requires Steady({victim} + held, {victim}, {}) && victim in repr && victim.key < MAX_KEY && victim !in held
      requires 0 <= topLevel < MAX_LEVEL == |preds|
      requires valid ==> forall l :: 0 <= l <= topLevel ==>
        preds[l] != null && preds[l] in repr && Brackets(levels[l], victim.key, preds[l], victim)
      modifies this`levels, repr`next, victim`lock, victim`marked
      ensures Steady(held, if valid then {victim} else {}, {})
      ensures levels == if valid then DeletedBetween(old(levels), victim, 0, topLevel) else old(levels)
    {
      if valid {
        UnlinkAll(victim, preds, topLevel);
      } else {
        victim.marked := false;
      }
      victim.Unlock();
    }

    /** Lines 750-802 with the victim found: mark, lock, validate, unlink, unlock. */
    method RemoveBetween(victim: Node, preds: seq<Node?>) returns (done: bool, ret: bool)
      requires Steady({}, {}, {}) && victim in repr && victim.key < MAX_KEY && 0 <= victim.topLevel < MAX_LEVEL == |preds|
      requires Lockable(preds) && victim !in preds && forall l :: 0 <= l < |preds| ==> preds[l] in repr
      requires forall l :: 0 <= l <= victim.topLevel ==>
        Brackets(levels[l], victim.key, preds[l], victim) && LeadsTo(preds[l], victim, l)
      modifies this`levels, repr
      ensures Steady({}, {victim}, {})
      ensures done && ret && levels == DeletedBetween(old(levels), victim, 0, victim.topLevel)
    {
      var topLevel := victim.topLevel;
      done, ret := true, false;
      var taken := MarkVictim(victim, {});
      if taken {
        var highestLocked, valid := LockForRemove(preds, victim, topLevel);
        Detach(valid, victim, preds, topLevel, Prefix(preds, topLevel + 1));
        done, ret := valid, valid;
        UnlockPreds(preds, highestLocked);
      }
    }

    lemma VictimFacts(key: int, preds: seq<Node?>, succs: seq<Node?>, lFound: int)
      requires Valid() && MIN_KEY < key < MAX_KEY && Searched(levels, key, preds, succs, lFound) && lFound != -1
      ensures Leading(preds, succs) && Lockable(preds) && 0 <= lFound < MAX_LEVEL
      ensures succs[lFound] in levels[0] && succs[lFound].key == key && succs[lFound].topLevel == lFound
      ensures succs[lFound] !in preds
      ensures forall l :: 0 <= l <= lFound ==>
        Brackets(levels[l], key, preds[l], succs[lFound]) && LeadsTo(preds[l], succs[lFound], l)
    {
      BracketsLead(key, preds, succs);
      FoundIsSucc(levels, key, preds, succs, lFound);
      forall l | 0 <= l < MAX_LEVEL ensures preds[l] != succs[lFound] {
        PredIn(levels, key, preds, succs, l);
      }
    }

    /** The victim is unlinked everywhere; the remover hands it to ST_free. */
    method Forget(victim: Node)
      requires Steady({}, {victim}, {}) && victim != tail
      requires Inside(levels, repr - {victim}) && Nested(levels) && repr - {victim} == NodesOf(levels[0])
      modifies this`repr
      ensures Valid()
    {
      repr := repr - {victim};
    }

    /** Lines 745-806 when the search has found the key. */
    method RemoveFound(key: int, preds: seq<Node?>, succs: seq<Node?>, lFound: int)
      returns (done: bool, ret: bool, victim: Node)
      requires Valid() && MIN_KEY < key < MAX_KEY && Searched(levels, key, preds, succs, lFound) && lFound != -1
      modifies this`levels, this`repr, repr
      ensures Valid() && done && ret && victim in old(levels)[0] && victim.key == key
      ensures levels == DeletedBetween(old(levels), victim, 0, MAX_LEVEL - 1)
    {
      ghost var before := levels;
      VictimFacts(key, preds, succs, lFound);
      victim := succs[lFound];
      DeletedEverywhere(before, victim);
      done, ret := RemoveBetween(victim, preds);
      VictimIsOut(before, victim, levels, repr);
      Forget(victim);
    }

    /** skiplist_remove_pure.  An absent key changes nothing; a present one leaves every level.  The victim is unmarked
        and every level is valid, so with one thread the loop of line 736 turns once. */
    method Remove(key: int) returns (ret: bool, victim: Node?)
      requires Valid() && MIN_KEY < key < MAX_KEY
      modifies this`levels, this`repr, repr
      ensures Valid()
      ensures ret <==> key in KeysOf(old(levels)[0])
      ensures !ret ==> levels == old(levels)
      ensures ret ==>
        && victim != null && victim in old(levels)[0] && victim.key == key
        && levels == DeletedBetween(old(levels), victim, 0, MAX_LEVEL - 1)
    {
      ret, victim := false, null;
      var done := false;
      while !done
        invariant Valid()
        invariant !ret ==> levels == old(levels) && repr == old(repr) && (done ==> key !in KeysOf(old(levels)[0]))
        invariant ret ==>
          && done && victim != null && victim in old(levels)[0] && victim.key == key && key in KeysOf(old(levels)[0])
          && levels == DeletedBetween(old(levels), victim, 0, MAX_LEVEL - 1)
        decreases !done
      {
        var lFound, preds, succs := Find(key);
        FoundIffKey(levels[0], key);
        if lFound == -1 {
          done := true;
        } else {
          done, ret, victim := RemoveFound(key, preds, succs, lFound);
        }
      }
    }

    /** An insertion of an absent key and its removal restore every level. */
    method InsertThenRemove(key: int, topLevel: int) returns (ret: bool)
      requires Valid() && MIN_KEY < key < MAX_KEY && 0 <= topLevel < MAX_LEVEL && key !in KeysOf(levels[0])
      modifies this`levels, this`repr, repr
      ensures Valid() && ret && levels == old(levels)
    {
      ghost var before := levels;
      var n := Insert(key, topLevel);
      InsertedLevelKeys(before, n, topLevel + 1, 0);
      var victim;
      ret, victim := Remove(key);
      InsertRemoveRestores(before, n, victim);
    }

    /** skiplist_size. */
    method Size() returns (nNodes: int)
      requires Valid()
      ensures nNodes == |levels[0]| - 2
    {
      ghost var c, i := levels[0], 0;
      assert Chained(c, 0);
      nNodes := 0;
      var node := head;
      while node.next[0] != null
        invariant 0 <= i < |c| && c == levels[0] && c[i] == node && nNodes == i && |node.next| == MAX_LEVEL
        invariant i == |c| - 1 ==> node.next[0] == null
        invariant i < |c| - 1 ==> node.next[0] == c[i + 1]
        decreases |c| - i
      {
        nNodes := nNodes + 1;
        node := node.next[0];
        i := i + 1;
        assert i < |c| - 1 ==> c[i].next[0] == c[i + 1];
      }
      nNodes := nNodes - 1;
    }
  }

  lemma FoundIffKey(c: seq<Node>, key: int)
    requires Increasing(c) && forall n :: n in c ==> 0 <= n.topLevel
    ensures FoundAt(c, key) != -1 <==> key in KeysOf(c)
  {
    if n :| n in c && n.key == key {
      KeyAtPosition(c, n);
    }
  }

  /** The node found is the one the linear scan of level 0 finds, at every level up to its topLevel. */
  lemma FoundIsSucc(levels: seq<seq<Node>>, key: int, preds: seq<Node?>, succs: seq<Node?>, lFound: int)
    requires Nested(levels) && (forall l :: 0 <= l < MAX_LEVEL ==> Increasing(levels[l]))
    requires Searched(levels, key, preds, succs, lFound) && lFound != -1
    ensures 0 <= lFound < MAX_LEVEL && succs[0] != null && succs[0].key == key && succs[0].topLevel == lFound
    ensures succs[0] in levels[0] && forall l :: 0 <= l <= lFound ==> succs[l] == succs[0]
  {
    var n := levels[0][Position(levels[0], key)];
    assert Brackets(levels[0], key, preds[0], succs[0]);
    forall l | 0 <= l <= lFound ensures succs[l] == n {
      assert n in levels[0] && n in levels[l];
      KeyAtPosition(levels[l], n);
      assert Brackets(levels[l], key, preds[l], succs[l]);
    }
  }

  lemma PrefixGrows(preds: seq<Node?>, k: nat)
    requires k < |preds| && preds[k] != null
    ensures Prefix(preds, k + 1) == Prefix(preds, k) + {preds[k]}
  {
    assert preds[..k + 1] == preds[..k] + [preds[k]];
  }

  lemma PredIn(levels: seq<seq<Node>>, key: int, preds: seq<Node?>, succs: seq<Node?>, l: int)
    requires 0 <= l < |levels| == |preds| == |succs| && Brackets(levels[l], key, preds[l], succs[l])
    ensures preds[l] != null && preds[l] in levels[l] && preds[l].key < key
  {
  }

  /** The predecessors' keys descend as the level rises. */
  lemma PredsDescend(levels: seq<seq<Node>>, key: int, preds: seq<Node?>, succs: seq<Node?>, i: int, j: int)
    requires Nested(levels) && |preds| == |succs| == MAX_LEVEL && 0 <= i <= j < MAX_LEVEL
    requires forall l :: 0 <= l < MAX_LEVEL ==> Brackets(levels[l], key, preds[l], succs[l]) && Increasing(levels[l])
    ensures preds[i] != null && preds[j] != null && preds[j].key <= preds[i].key
    ensures preds[i] in levels[0] && preds[j] in levels[0]
  {
    PredIn(levels, key, preds, succs, i);
    PredIn(levels, key, preds, succs, j);
    var c, n := levels[i], preds[j];
    assert n in levels[0] && n in c;
    var k := IndexOf(c, n);
    assert k < Position(c, key);
    assert c[k].key <= c[Position(c, key) - 1].key;
  }

  lemma SameKeySameNode(c: seq<Node>, m: Node, n: Node)
    requires Increasing(c) && m in c && n in c
    ensures m.key == n.key ==> m == n
  {
    KeyAtPosition(c, m);
    KeyAtPosition(c, n);
  }

  lemma EarlierPredDiffers(levels: seq<seq<Node>>, key: int, preds: seq<Node?>, succs: seq<Node?>, j: int, l: int)
    requires Nested(levels) && |preds| == |succs| == MAX_LEVEL && 0 <= j < l < MAX_LEVEL
    requires forall k :: 0 <= k < MAX_LEVEL ==> Brackets(levels[k], key, preds[k], succs[k]) && Increasing(levels[k])
    requires preds[l] != preds[l - 1]
    ensures preds[j] != preds[l]
  {
    PredsDescend(levels, key, preds, succs, j, l - 1);
    PredsDescend(levels, key, preds, succs, l - 1, l);
    SameKeySameNode(levels[0], preds[l], preds[l - 1]);
  }

  /** A predecessor that differs from the one below has not been locked yet. */
  lemma NewPred(levels: seq<seq<Node>>, key: int, preds: seq<Node?>, succs: seq<Node?>, l: int)
    requires Nested(levels) && |preds| == |succs| == MAX_LEVEL && 0 <= l < MAX_LEVEL
    requires forall j :: 0 <= j < MAX_LEVEL ==> Brackets(levels[j], key, preds[j], succs[j]) && Increasing(levels[j])
    requires l == 0 || preds[l] != preds[l - 1]
    ensures preds[l] !in preds[..l]
  {
    forall j | 0 <= j < l ensures preds[j] != preds[l] {
      EarlierPredDiffers(levels, key, preds, succs, j, l);
    }
  }

  /** A predecessor has been locked already exactly if the level below has the same one. */
  ghost predicate Lockable(preds: seq<Node?>) {
    forall l :: 0 <= l < |preds| ==>
      preds[l] != null && (preds[l] in Prefix(preds, l) <==> 0 < l && preds[l] == preds[l - 1])
  }

  lemma LockTarget(levels: seq<seq<Node>>, key: int, preds: seq<Node?>, succs: seq<Node?>, l: int)
    requires Nested(levels) && Bracketed(levels, key, preds, succs) && 0 <= l < MAX_LEVEL
    requires forall j :: 0 <= j < MAX_LEVEL ==> Increasing(levels[j])
    ensures preds[l] != null
    ensures preds[l] in Prefix(preds, l) <==> 0 < l && preds[l] == preds[l - 1]
  {
    PredIn(levels, key, preds, succs, l);
    if l == 0 || preds[l] != preds[l - 1] {
      NewPred(levels, key, preds, succs, l);
    }
  }

  lemma InsertAtIndex(c: seq<Node>, i: nat, n: Node)
    requires i <= |c|
    ensures |InsertAt(c, i, n)| == |c| + 1
    ensures forall j :: 0 <= j < |c| + 1 ==> InsertAt(c, i, n)[j] == if j < i then c[j] else if j == i then n else c[j - 1]
  {
  }

  lemma RemoveAtIndex(c: seq<Node>, i: nat)
    requires i < |c|
    ensures |RemoveAt(c, i)| == |c| - 1
    ensures forall j :: 0 <= j < |c| - 1 ==> RemoveAt(c, i)[j] == if j < i then c[j] else c[j + 1]
  {
  }

  lemma InsertedLevel(c: seq<Node>, i: nat, head: Node, tail: Node, n: Node, repr: set<Node>)
    requires LevelOk(c, head, tail) && InRepr(c, repr) && n in repr
    requires 0 < i < |c| && c[i - 1].key < n.key < c[i].key
    ensures LevelOk(InsertAt(c, i, n), head, tail) && InRepr(InsertAt(c, i, n), repr)
  {
    InsertAtIndex(c, i, n);
    InsertAtIncreasing(c, i, n);
  }

  lemma StrictSuccs(levels: seq<seq<Node>>, key: int, preds: seq<Node?>, succs: seq<Node?>)
    requires Nested(levels) && Bracketed(levels, key, preds, succs) && key !in KeysOf(levels[0])
    ensures forall l :: 0 <= l < MAX_LEVEL ==> succs[l] != null && key < succs[l].key
  {
    forall l | 0 <= l < MAX_LEVEL ensures succs[l] != null && key < succs[l].key {
      assert Brackets(levels[l], key, preds[l], succs[l]);
      assert succs[l] in levels[l] && succs[l] in levels[0];
    }
  }

  lemma InsertedNested(levels: seq<seq<Node>>, n: Node)
    requires Nested(levels) && n !in levels[0] && 0 <= n.topLevel < MAX_LEVEL
    ensures Nested(InsertedBelow(levels, n, n.topLevel + 1))
    ensures NodesOf(InsertedBelow(levels, n, n.topLevel + 1)[0]) == NodesOf(levels[0]) + {n}
  {
    var after := InsertedBelow(levels, n, n.topLevel + 1);
    forall l | 0 <= l < MAX_LEVEL
      ensures forall m :: m in after[l] <==> m in levels[l] || (l <= n.topLevel && m == n)
    {
      InsertAtMembers(levels[l], Position(levels[l], n.key), n);
    }
  }

  lemma DeletedLevel(c: seq<Node>, i: nat, head: Node, tail: Node, repr: set<Node>)
    requires LevelOk(c, head, tail) && InRepr(c, repr) && 0 < i < |c| - 1
    ensures LevelOk(RemoveAt(c, i), head, tail) && InRepr(RemoveAt(c, i), repr)
  {
    RemoveAtIndex(c, i);
    RemoveAtIncreasing(c, i);
  }

  lemma NestedMinus(levels: seq<seq<Node>>, after: seq<seq<Node>>, n: Node)
    requires Nested(levels) && |after| == MAX_LEVEL
    requires forall l, m :: 0 <= l < MAX_LEVEL && m in after[l] ==> m in levels[l] && m != n
    requires forall l, m :: 0 <= l < MAX_LEVEL && m in levels[l] && m != n ==> m in after[l]
    ensures Nested(after) && NodesOf(after[0]) == NodesOf(levels[0]) - {n}
  {
  }

  /** The victim leaves every level, and no level holds another node with its key. */
  lemma DeletedNested(levels: seq<seq<Node>>, n: Node)
    requires Nested(levels) && n in levels[0]
    requires forall l :: 0 <= l < MAX_LEVEL ==> Increasing(levels[l])
    ensures var after := DeletedBetween(levels, n, 0, n.topLevel);
      && Nested(after) && NodesOf(after[0]) == NodesOf(levels[0]) - {n} && forall l :: 0 <= l < MAX_LEVEL ==> n !in after[l]
  {
    var after := DeletedBetween(levels, n, 0, n.topLevel);
    forall l | 0 <= l < MAX_LEVEL
      ensures forall m :: m in after[l] <==> m in levels[l] && m != n
    {
      LeavesLevel(levels, l, n);
    }
    NestedMinus(levels, after, n);
  }

  lemma VictimIsOut(before: seq<seq<Node>>, n: Node, levels: seq<seq<Node>>, repr: set<Node>)
    requires Nested(before) && n in before[0] && levels == DeletedBetween(before, n, 0, n.topLevel)
    requires forall l :: 0 <= l < MAX_LEVEL ==> Increasing(before[l])
    requires Inside(levels, repr) && repr == NodesOf(before[0])
    ensures Inside(levels, repr - {n}) && Nested(levels) && repr - {n} == NodesOf(levels[0])
  {
    DeletedNested(before, n);
    forall l | 0 <= l < MAX_LEVEL ensures InRepr(levels[l], repr - {n}) {
      forall i | 0 <= i < |levels[l]| ensures levels[l][i] != n {
        assert levels[l][i] in levels[l];
      }
      assert InRepr(levels[l], repr);
    }
  }

  lemma DeletedEverywhere(levels: seq<seq<Node>>, n: Node)
    requires Nested(levels) && n in levels[0]
    requires forall l :: 0 <= l < MAX_LEVEL ==> Increasing(levels[l])
    ensures DeletedBetween(levels, n, 0, n.topLevel) == DeletedBetween(levels, n, 0, MAX_LEVEL - 1)
  {
    forall l | 0 <= l < MAX_LEVEL
      ensures DeletedBetween(levels, n, 0, n.topLevel)[l] == DeletedBetween(levels, n, 0, MAX_LEVEL - 1)[l]
    {
      LeavesLevel(levels, l, n);
    }
  }

  lemma OneNodePerKey(levels: seq<seq<Node>>, l: int, n: Node)
    requires Nested(levels) && n in levels[0] && 0 <= l < MAX_LEVEL && Increasing(levels[0])
    ensures forall m :: m in levels[l] && m.key == n.key ==> m == n
  {
    forall m | m in levels[l] ensures m.key == n.key ==> m == n {
      assert m in levels[0];
      SameKeySameNode(levels[0], m, n);
    }
  }

  lemma AboveTop(levels: seq<seq<Node>>, l: int, n: Node)
    requires Nested(levels) && n in levels[0] && n.topLevel < l < MAX_LEVEL && Increasing(levels[0])
    ensures n !in levels[l] && Deleted(levels[l], n) == levels[l]
  {
    OneNodePerKey(levels, l, n);
    var c, i := levels[l], Position(levels[l], n.key);
    assert i < |c| ==> c[i] in c;
  }

  lemma LeavesLevel(levels: seq<seq<Node>>, l: int, n: Node)
    requires Nested(levels) && n in levels[0] && 0 <= l < MAX_LEVEL
    requires forall j :: 0 <= j < MAX_LEVEL ==> Increasing(levels[j])
    ensures forall m :: m in Deleted(levels[l], n) <==> m in levels[l] && m != n
    ensures n.topLevel < l ==> n !in levels[l] && Deleted(levels[l], n) == levels[l]
  {
    DeletedIsDelete(levels[l], n);
    OneNodePerKey(levels, l, n);
    if n.topLevel < l {
      AboveTop(levels, l, n);
    }
  }

  /** Every level changes exactly as set insertion does, or not at all. */
  lemma InsertedLevelKeys(levels: seq<seq<Node>>, n: Node, k: int, l: int)
    requires Nested(levels) && 0 <= l < MAX_LEVEL && 0 <= k && n.key !in KeysOf(levels[0]) && Increasing(levels[l])
    ensures KeysOf(InsertedBelow(levels, n, k)[l]) == KeysOf(levels[l]) + if l < k then {n.key} else {}
  {
    assert forall m :: m in levels[l] ==> m in levels[0] && m.key in KeysOf(levels[0]);
    InsertedIsInsert(levels[l], n);
  }

  lemma DeletedLevelKeys(levels: seq<seq<Node>>, n: Node, l: int)
    requires |levels| == MAX_LEVEL && 0 <= l < MAX_LEVEL && Increasing(levels[l])
    ensures KeysOf(DeletedBetween(levels, n, 0, MAX_LEVEL - 1)[l]) == KeysOf(levels[l]) - {n.key}
  {
    DeletedIsDelete(levels[l], n);
  }

  /** Removing the key again restores every level. */
  lemma InsertRemoveRestores(levels: seq<seq<Node>>, n: Node, m: Node)
    requires Nested(levels) && n.key !in KeysOf(levels[0]) && m.key == n.key && 0 <= n.topLevel
    requires forall l :: 0 <= l < MAX_LEVEL ==> Increasing(levels[l])
    ensures DeletedBetween(InsertedBelow(levels, n, n.topLevel + 1), m, 0, MAX_LEVEL - 1) == levels
  {
    var inserted := InsertedBelow(levels, n, n.topLevel + 1);
    forall l | 0 <= l < MAX_LEVEL ensures Deleted(inserted[l], m) == levels[l] {
      RestoresLevel(levels, n, m, l);
    }
  }

  lemma RestoresLevel(levels: seq<seq<Node>>, n: Node, m: Node, l: int)
    requires Nested(levels) && 0 <= l < MAX_LEVEL && n.key !in KeysOf(levels[0]) && m.key == n.key && Increasing(levels[l])
    ensures Deleted(Inserted(levels[l], n), m) == levels[l] && Deleted(levels[l], m) == levels[l]
  {
    assert forall x :: x in levels[l] ==> x in levels[0] && x.key in KeysOf(levels[0]);
    DeletedInserted(levels[l], n, m);
  }

  lemma LowerLevel(levels: seq<seq<Node>>, l: int, n: Node)
    requires Nested(levels) && 0 <= l < MAX_LEVEL && n in levels[l]
    ensures 0 < l ==> n in levels[l - 1]
  {
    assert n in levels[0];
  }

  lemma FirstLevels(head: Node, tail: Node)
    requires head.key == MIN_KEY && tail.key == MAX_KEY && head.topLevel == tail.topLevel == MAX_LEVEL - 1
    ensures Sorted(EmptyLevels(head, tail), head, tail) && Nested(EmptyLevels(head, tail))
  {
  }

  ghost function IndexOf(c: seq<Node>, n: Node): (i: nat)
    requires n in c
    ensures i < |c| && c[i] == n
  {
    if c[0] == n then 0 else 1 + IndexOf(c[1..], n)
  }
}
