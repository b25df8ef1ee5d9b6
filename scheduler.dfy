/**
 * The priority queue of SudokuGame.java as a value: three buckets of cell
 * positions, by number of candidates (one, two, three or more).  The game
 * class holds such a value and its queue methods are specified by the
 * functions here.
 */
module Scheduler {
  import opened SudokuCell
  import opened Board

  const QUEUE_PRIORITY_LEVELS: int := 3

  /**
   * The bucket of a cell with `possibleNumbers` candidates: bucket 0 for one,
   * bucket 1 for two, bucket 2 for three or more; a count of zero or less
   * gives a negative level, which no bucket has.
   */
  function PossibleNumbersToQueueLevel(possibleNumbers: int): (level: int)
    ensures level == 0 <==> possibleNumbers == 1
    ensures level == 1 <==> possibleNumbers == 2
    ensures level == 2 <==> possibleNumbers >= 3
    ensures level < 0 <==> possibleNumbers <= 0
  {
    if possibleNumbers <= 2 then possibleNumbers - 1 else 2
  }

  type Queue = seq<seq<Pos>>

  predicate IsQueue(q: Queue)
  {
    |q| == QUEUE_PRIORITY_LEVELS
  }

  predicate Distinct(s: seq<Pos>)
  {
    forall i, j :: 0 <= i < j < |s| ==> s[i] != s[j]
  }

  /** Total number of queued cells (getQueueSize). */
  function QueueSize(q: Queue): int
    requires IsQueue(q)
  {
    |q[0]| + |q[1]| + |q[2]|
  }

  /** Some bucket holds `p` (isCellInQueue). */
  predicate InQueue(q: Queue, p: Pos)
    requires IsQueue(q)
  {
    p in q[0] || p in q[1] || p in q[2]
  }

  /** The bucket without any occurrence of `x`, order kept (removeIf). */
  function RemoveAll(s: seq<Pos>, x: Pos): (r: seq<Pos>)
    ensures forall y :: y in r <==> y in s && y != x
    ensures |r| <= |s|
  {
    if s == [] then []
    else if s[0] == x then RemoveAll(s[1..], x)
    else [s[0]] + RemoveAll(s[1..], x)
  }

  /** Removing what is not there changes nothing. */
  lemma {:induction false} RemoveAllAbsent(s: seq<Pos>, x: Pos)
    requires x !in s
    ensures RemoveAll(s, x) == s
  {
    if s != [] {
      assert s[0] != x;
      RemoveAllAbsent(s[1..], x);
      assert s == [s[0]] + s[1..];
    }
  }

  /** In a bucket without repetitions, removing a member shortens it by exactly one. */
  lemma {:induction false} RemoveAllOnce(s: seq<Pos>, x: Pos)
    requires Distinct(s) && x in s
    ensures |RemoveAll(s, x)| == |s| - 1
    ensures Distinct(RemoveAll(s, x))
  {
    var t := s[1..];
    assert Distinct(t) by {
      forall i, j | 0 <= i < j < |t| ensures t[i] != t[j] {
        assert t[i] == s[i + 1] && t[j] == s[j + 1];
      }
    }
    if s[0] == x {
      assert x !in t by {
        forall i | 0 <= i < |t| ensures t[i] != x {
          assert t[i] == s[i + 1];
        }
      }
      RemoveAllAbsent(t, x);
    } else {
      assert x in t;
      RemoveAllOnce(t, x);
      var r := RemoveAll(t, x);
      assert s[0] !in r by {
        forall i | 0 <= i < |t| ensures t[i] != s[0] {
          assert t[i] == s[i + 1];
        }
      }
      assert RemoveAll(s, x) == [s[0]] + r;
    }
  }

  /** Appending a new member keeps a bucket free of repetitions. */
  lemma AppendDistinct(s: seq<Pos>, x: Pos)
    requires Distinct(s) && x !in s
    ensures Distinct(s + [x])
  {
    var t := s + [x];
    forall i, j | 0 <= i < j < |t| ensures t[i] != t[j] {
      if j == |s| {
        assert t[i] == s[i];
      } else {
        assert t[i] == s[i] && t[j] == s[j];
      }
    }
  }

  /**
   * The queue after addToQueue(p, previous) for a cell that now has
   * `current` candidates: nothing moves when the count or the level is
   * unchanged; otherwise `p` leaves the bucket of the previous count (when
   * that count was positive) and joins the end of its new bucket.
   */
  function Relocated(q: Queue, p: Pos, previous: int, current: int): (r: Queue)
    requires IsQueue(q) && current >= 1
    ensures IsQueue(r)
    ensures r == q || p in r[PossibleNumbersToQueueLevel(current)]
  {
    var level := PossibleNumbersToQueueLevel(current);
    var previousLevel := PossibleNumbersToQueueLevel(previous);
    if current == previous || level == previousLevel then q
    else
      var q1 := if previous > 0 then q[previousLevel := RemoveAll(q[previousLevel], p)] else q;
      q1[level := q1[level] + [p]]
  }

  /** Every bucket is free of repetitions. */
  predicate DistinctBuckets(q: Queue)
    requires IsQueue(q)
  {
    forall l :: 0 <= l < QUEUE_PRIORITY_LEVELS ==> Distinct(q[l])
  }

  /**
   * Moving a queued cell: when `p` sits (once) in the bucket of its previous
   * positive count and in no other, after addToQueue it sits in the bucket of
   * its new count and in no other, every other cell keeps its bucket, and
   * the queue keeps its size.
   */
  lemma RelocatedMoves(q: Queue, p: Pos, previous: int, current: int)
    requires IsQueue(q) && DistinctBuckets(q) && previous >= 1 && current >= 1
    requires p in q[PossibleNumbersToQueueLevel(previous)]
    requires forall l :: 0 <= l < QUEUE_PRIORITY_LEVELS && l != PossibleNumbersToQueueLevel(previous) ==> p !in q[l]
    ensures var r := Relocated(q, p, previous, current);
      DistinctBuckets(r) && QueueSize(r) == QueueSize(q)
      && (forall l, y :: 0 <= l < QUEUE_PRIORITY_LEVELS && y != p ==> (y in r[l] <==> y in q[l]))
      && (forall l :: 0 <= l < QUEUE_PRIORITY_LEVELS ==> (p in r[l] <==> l == PossibleNumbersToQueueLevel(current)))
  {
    var level := PossibleNumbersToQueueLevel(current);
    var previousLevel := PossibleNumbersToQueueLevel(previous);
    if current != previous && level != previousLevel {
      RemoveAllOnce(q[previousLevel], p);
      var q1 := q[previousLevel := RemoveAll(q[previousLevel], p)];
      AppendDistinct(q1[level], p);
    }
  }

  /**
   * Enqueuing a cell that is in no bucket: addToQueue either leaves the queue
   * alone (count or level unchanged) or appends `p` to the bucket of its new
   * count, and the queue grows by one.
   */
  lemma RelocatedEnqueues(q: Queue, p: Pos, previous: int, current: int)
    requires IsQueue(q) && DistinctBuckets(q) && current >= 1 && !InQueue(q, p)
    ensures var r := Relocated(q, p, previous, current);
      var level := PossibleNumbersToQueueLevel(current);
      DistinctBuckets(r)
      && (r == q || r == q[level := q[level] + [p]])
      && (InQueue(r, p) <==> r != q)
      && (r != q ==> QueueSize(r) == QueueSize(q) + 1 && p in r[level])
      && (current != previous && level != PossibleNumbersToQueueLevel(previous) ==> r != q)
  {
    var level := PossibleNumbersToQueueLevel(current);
    var previousLevel := PossibleNumbersToQueueLevel(previous);
    if current != previous && level != previousLevel {
      if previous > 0 {
        RemoveAllAbsent(q[previousLevel], p);
        assert q[previousLevel := RemoveAll(q[previousLevel], p)] == q;
      }
      AppendDistinct(q[level], p);
      assert p in q[level] + [p];
    }
  }

  /** The queue after addTryCellBackToQueue: `p` goes to the front of bucket `level`. */
  function PushedFront(q: Queue, p: Pos, level: int): (r: Queue)
    requires IsQueue(q) && 0 <= level < QUEUE_PRIORITY_LEVELS
    ensures IsQueue(r) && QueueSize(r) == QueueSize(q) + 1 && r[level] != [] && r[level][0] == p
    ensures forall l, y :: 0 <= l < QUEUE_PRIORITY_LEVELS && y in q[l] ==> y in r[l]
  {
    q[level := [p] + q[level]]
  }

  /** The queue after popQueueLevel(level) on a non-empty bucket. */
  function PoppedFront(q: Queue, level: int): (r: Queue)
    requires IsQueue(q) && 0 <= level < QUEUE_PRIORITY_LEVELS && q[level] != []
    ensures IsQueue(r) && QueueSize(r) == QueueSize(q) - 1
    ensures forall l, y :: 0 <= l < QUEUE_PRIORITY_LEVELS && y in r[l] ==> y in q[l]
  {
    q[level := q[level][1..]]
  }

  /**
   * Putting a cell back at the front of the bucket it was popped from gives the
   * queue back exactly, and the next pop from that bucket returns that cell.
   */
  lemma PopPushRoundTrip(q: Queue, level: int)
    requires IsQueue(q) && 0 <= level < QUEUE_PRIORITY_LEVELS && q[level] != []
    ensures PushedFront(PoppedFront(q, level), q[level][0], level) == q
    ensures var r := PushedFront(q, q[level][0], level);
      r[level] != [] && r[level][0] == q[level][0] && PoppedFront(r, level) == q
  {
    assert [q[level][0]] + q[level][1..] == q[level];
  }

  /** The first non-empty bucket, or QUEUE_PRIORITY_LEVELS when all are empty (the order popQueue tries). */
  function FirstNonEmpty(q: Queue): (level: int)
    requires IsQueue(q)
    ensures 0 <= level <= QUEUE_PRIORITY_LEVELS
    ensures forall l :: 0 <= l < level ==> q[l] == []
    ensures level < QUEUE_PRIORITY_LEVELS ==> q[level] != []
    ensures level == QUEUE_PRIORITY_LEVELS <==> QueueSize(q) == 0
  {
    if q[0] != [] then 0 else if q[1] != [] then 1 else if q[2] != [] then 2 else 3
  }

  /**
   * The re-enqueuing at the first backtracking level as the source writes it:
   * addToQueue(cell, -1) whether or not the hidden-single pass has already
   * queued the cell.
   */
  function ReenqueueAsWritten(q: Queue, p: Pos, current: int): (r: Queue)
    requires IsQueue(q) && current >= 1
    ensures IsQueue(r) && QueueSize(r) == QueueSize(q) + 1 && p in r[PossibleNumbersToQueueLevel(current)]
  {
    Relocated(q, p, -1, current)
  }

  /** The intended re-enqueuing: only a cell that no bucket holds is added. */
  function Reenqueue(q: Queue, p: Pos, current: int): (r: Queue)
    requires IsQueue(q) && current >= 1
    ensures IsQueue(r) && InQueue(r, p) && (InQueue(q, p) ==> r == q)
  {
    if InQueue(q, p) then q else Relocated(q, p, -1, current)
  }

  /**
   * When the hidden-single pass has already put the cell in bucket 0, the
   * re-enqueuing as written puts it there a second time: the queue then holds
   * one entry more than there are free cells it stands for.
   */
  lemma ReenqueueAsWrittenDuplicates(q: Queue, p: Pos)
    requires IsQueue(q) && p in q[0]
    ensures var r := ReenqueueAsWritten(q, p, 1);
      QueueSize(r) == QueueSize(q) + 1 && !Distinct(r[0])
  {
    var r := ReenqueueAsWritten(q, p, 1);
    assert r[0] == q[0] + [p];
    var i :| 0 <= i < |q[0]| && q[0][i] == p;
    assert r[0][i] == r[0][|q[0]|];
  }

  /**
   * The intended re-enqueuing leaves every bucket free of repetitions and
   * leaves the cell queued, growing the queue only when the cell was missing.
   */
  lemma ReenqueueKeepsDistinct(q: Queue, p: Pos, current: int)
    requires IsQueue(q) && DistinctBuckets(q) && current >= 1
    ensures var r := Reenqueue(q, p, current);
      DistinctBuckets(r) && InQueue(r, p)
      && QueueSize(r) == QueueSize(q) + (if InQueue(q, p) then 0 else 1)
  {
    if !InQueue(q, p) {
      RelocatedEnqueues(q, p, -1, current);
    }
  }
}
