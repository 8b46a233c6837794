/** Orders of events: how the numbers that a reader picks out of a sequence relate to the positions they stand in. */
module EventOrder {
  import opened Arith

  /** Capacity of the ring, and of the broadcast channel. */
  const RING_CAP: nat := 256

  /** The events after `a` up to `b`. */
  function Range(a: nat, b: nat): (s: seq<nat>)
    ensures |s| == Max(b - a, 0)
    ensures forall i :: 0 <= i < |s| ==> s[i] == a + 1 + i
  {
    if b <= a then [] else Range(a, b - 1) + [b]
  }

  /** The numbers after `a`, one after the other. */
  ghost predicate Consecutive(s: seq<nat>, a: nat) {
    forall i :: 0 <= i < |s| ==> s[i] == a + 1 + i
  }

  lemma ConsecutiveMembers(s: seq<nat>, a: nat, e: nat)
    requires Consecutive(s, a)
    ensures e in s <==> a < e <= a + |s|
  {
    if a < e <= a + |s| {
      assert s[e - a - 1] == e;
    }
  }

  /** The elements after the cursor, in the order in which they stand. */
  function After(s: seq<nat>, cursor: nat): seq<nat> {
    if s == [] then []
    else
      var front, e := After(s[..|s| - 1], cursor), s[|s| - 1];
      if e > cursor then front + [e] else front
  }

  lemma {:induction false} AfterMembers(s: seq<nat>, cursor: nat)
    ensures forall e :: e in After(s, cursor) <==> e in s && e > cursor
  {
    if s != [] {
      var front, e := s[..|s| - 1], s[|s| - 1];
      assert s == front + [e];
      AfterMembers(front, cursor);
    }
  }

  lemma {:induction false} AfterAll(s: seq<nat>, cursor: nat)
    requires forall k :: 0 <= k < |s| ==> s[k] > cursor
    ensures After(s, cursor) == s
  {
    if s != [] {
      var front := s[..|s| - 1];
      AfterAll(front, cursor);
      assert s == front + [s[|s| - 1]];
    }
  }

  lemma AfterLast(s: seq<nat>, cursor: nat)
    requires s != [] && s[|s| - 1] > cursor
    ensures After(s, cursor) != [] && After(s, cursor)[|After(s, cursor)| - 1] == s[|s| - 1]
  {
  }

  /** What the ring holds when events have been appended in the given order. */
  function Ring(order: seq<nat>): seq<nat> { order[RingStart(|order|)..] }

  function RingStart(n: nat): (start: nat)
    ensures start <= n && (n <= 256 ==> start == 0) && (n >= 256 ==> n - start == 256)
  {
    if n > RING_CAP then n - RING_CAP else 0
  }

  ghost predicate StrictlyIncreasing(s: seq<nat>) {
    forall i, j :: 0 <= i < j < |s| ==> s[i] < s[j]
  }

  // ---- When a reader gets the next numbers, one after the other ----

  /** Event `i` stands before position `k`. */
  ghost predicate Before(order: seq<nat>, i: nat, k: nat)
    requires k <= |order|
  {
    i in order[..k]
  }

  /** A reader of positions `from` to `to` with this cursor meets an event that has overtaken an unread one, which
      stands later in the order or not in it at all yet. */
  ghost predicate Overtaken(order: seq<nat>, from: nat, to: nat, cursor: nat)
    requires to <= |order|
  {
    exists k: nat, i: nat :: from <= k < to && cursor < i < order[k] && !Before(order, i, k)
  }

  /** The reader meets an event although an unread one before it stands where the reader does not look any more. */
  ghost predicate Missed(order: seq<nat>, from: nat, to: nat, cursor: nat)
    requires from <= to <= |order|
  {
    exists k: nat, i: nat :: from <= k < to && cursor < i < order[k] && Before(order, i, from)
  }

  /** Every element above the cursor comes after all numbers between the cursor and it. */
  ghost predicate Gapless(s: seq<nat>, cursor: nat) {
    forall k: nat, i: nat :: k < |s| && cursor < i < s[k] ==> Before(s, i, k)
  }

  lemma GaplessSnoc(front: seq<nat>, e: nat, cursor: nat)
    ensures Gapless(front + [e], cursor)
       <==> Gapless(front, cursor) && forall i: nat :: cursor < i < e ==> i in front
  {
    var s := front + [e];
    assert forall k: nat :: k <= |front| ==> s[..k] == front[..k];
    assert front[..|front|] == front;
    if Gapless(s, cursor) {
      forall k: nat, i: nat | k < |front| && cursor < i < front[k] ensures Before(front, i, k) {
        assert Before(s, i, k);
      }
      forall i: nat | cursor < i < e ensures i in front {
        assert Before(s, i, |front|);
      }
    }
    if Gapless(front, cursor) && forall i: nat :: cursor < i < e ==> i in front {
      forall k: nat, i: nat | k < |s| && cursor < i < s[k] ensures Before(s, i, k) {
        if k < |front| {
          assert Before(front, i, k);
        }
      }
    }
  }

  /** A reader that skips what is not after its cursor gets exactly the next numbers if and only if there is no
      gap. */
  lemma {:induction false} GaplessIff(s: seq<nat>, cursor: nat)
    requires Distinct(s)
    ensures Consecutive(After(s, cursor), cursor) <==> Gapless(s, cursor)
  {
    if s != [] {
      var front, e := s[..|s| - 1], s[|s| - 1];
      assert s == front + [e];
      GaplessIff(front, cursor);
      GaplessSnoc(front, e, cursor);
      AfterMembers(front, cursor);
      if e > cursor {
        NextIff(After(front, cursor), e, front, cursor);
      }
    }
  }

  /** One more number continues a range if and only if all numbers before it are there. */
  lemma NextIff(read: seq<nat>, e: nat, front: seq<nat>, cursor: nat)
    requires e > cursor && e !in front
    requires forall i :: i in read <==> i in front && i > cursor
    ensures Consecutive(read + [e], cursor)
       <==> Consecutive(read, cursor) && forall i: nat :: cursor < i < e ==> i in front
  {
    var next := cursor + |read| + 1;
    if Consecutive(read + [e], cursor) {
      assert forall i :: 0 <= i < |read| ==> (read + [e])[i] == read[i];
      assert (read + [e])[|read|] == e == next;
      forall i: nat | cursor < i < e ensures i in front {
        ConsecutiveMembers(read, cursor, i);
      }
    }
    if Consecutive(read, cursor) && forall i: nat :: cursor < i < e ==> i in front {
      ConsecutiveMembers(read, cursor, e);
      ConsecutiveMembers(read, cursor, next);
      assert next < e ==> next in front;
    }
  }

  /** What causes a gap for a reader of positions `from` to `to`. */
  lemma GapCauses(order: seq<nat>, from: nat, to: nat, cursor: nat)
    requires Distinct(order) && from <= to <= |order|
    ensures Gapless(order[from..to], cursor)
       <==> !Overtaken(order, from, to, cursor) && !Missed(order, from, to, cursor)
  {
    var s := order[from..to];
    forall k: nat, i: nat | from <= k < to
      ensures Before(s, i, k - from) <==> Before(order, i, k) && !Before(order, i, from)
    {
      SplitBefore(order, from, k, i);
      assert s[..k - from] == order[from..k];
    }
    if Gapless(s, cursor) {
      forall k: nat, i: nat | from <= k < to && cursor < i < order[k]
        ensures Before(order, i, k) && !Before(order, i, from)
      {
        assert s[k - from] == order[k];
        assert Before(s, i, k - from);
      }
    } else {
      var k: nat, i: nat :| k < |s| && cursor < i < s[k] && !Before(s, i, k);
      assert order[from + k] == s[k];
      assert Before(s, i, from + k - from) <==> Before(order, i, from + k) && !Before(order, i, from);
    }
  }

  lemma SplitBefore(order: seq<nat>, from: nat, k: nat, i: nat)
    requires Distinct(order) && from <= k <= |order|
    ensures i in order[from..k] <==> i in order[..k] && i !in order[..from]
  {
    assert order[..k] == order[..from] + order[from..k];
  }

  /** The reader meets an event that is not after `found`. */
  ghost predicate Repeated(order: seq<nat>, from: nat, to: nat, found: nat)
    requires to <= |order|
  {
    exists k: nat :: from <= k < to && order[k] <= found
  }

  /** A reader that skips nothing gets exactly the next numbers if and only if nothing is repeated and there is no
      gap. */
  lemma StretchIff(order: seq<nat>, from: nat, to: nat, found: nat)
    requires Distinct(order) && from <= to <= |order|
    ensures Consecutive(order[from..to], found)
       <==> !Repeated(order, from, to, found) && !Overtaken(order, from, to, found) && !Missed(order, from, to, found)
  {
    var s := order[from..to];
    if Repeated(order, from, to, found) {
      var k: nat :| from <= k < to && order[k] <= found;
      assert s[k - from] == order[k];
    } else {
      LaterStretch(order, from, to, found);
      GaplessIff(s, found);
      GapCauses(order, from, to, found);
    }
  }

  lemma LaterStretch(order: seq<nat>, from: nat, to: nat, found: nat)
    requires Distinct(order) && from <= to <= |order| && !Repeated(order, from, to, found)
    ensures Distinct(order[from..to]) && After(order[from..to], found) == order[from..to]
  {
    var s := order[from..to];
    forall k | 0 <= k < |s| ensures s[k] > found {
      assert s[k] == order[from + k];
    }
    AfterAll(s, found);
  }

  lemma PartsInOrder(a: seq<nat>, b: seq<nat>, c: nat)
    ensures Consecutive(a + b, c) <==> Consecutive(a, c) && Consecutive(b, c + |a|)
  {
    if Consecutive(a + b, c) {
      assert forall i :: 0 <= i < |a| ==> (a + b)[i] == a[i];
      assert forall i :: 0 <= i < |b| ==> (a + b)[|a| + i] == b[i];
    }
  }

  /** A log is a prefix of the published events exactly when its numbers are consecutive. */
  lemma PrefixIff(log: seq<nat>, cursor: nat)
    requires cursor == if log == [] then 0 else log[|log| - 1]
    ensures log == Range(0, cursor) <==> Consecutive(log, 0)
    ensures Consecutive(log, 0) ==> cursor == |log|
  {
  }

  // ---- When a reader gets increasing numbers ----

  /** Between positions `from` and `to` an event after the cursor stands behind a later one. */
  ghost predicate Inverted(order: seq<nat>, from: nat, to: nat, cursor: nat)
    requires to <= |order|
  {
    exists j: nat, k: nat :: from <= j < k < to && cursor < order[k] < order[j]
  }

  lemma {:induction false} AscendingIff(order: seq<nat>, from: nat, to: nat, cursor: nat)
    requires Distinct(order) && from <= to <= |order|
    ensures StrictlyIncreasing(After(order[from..to], cursor)) <==> !Inverted(order, from, to, cursor)
    decreases (to)
  {
    if from < to {
      var s, front, e := order[from..to], order[from..to - 1], order[to - 1];
      assert s == front + [e] && s[..|s| - 1] == front;
      AscendingIff(order, from, to - 1, cursor);
      if e > cursor {
        LastIsLargest(order, from, to, cursor);
      }
      assert Inverted(order, from, to - 1, cursor) ==> Inverted(order, from, to, cursor);
    }
  }

  lemma LastIsLargest(order: seq<nat>, from: nat, to: nat, cursor: nat)
    requires Distinct(order) && from < to <= |order| && order[to - 1] > cursor
    ensures var read, e := After(order[from..to - 1], cursor), order[to - 1];
            && (StrictlyIncreasing(read + [e])
                <==> StrictlyIncreasing(read) && forall j: nat :: from <= j < to - 1 ==> order[j] <= e)
  {
    var front, e := order[from..to - 1], order[to - 1];
    var read := After(front, cursor);
    AfterMembers(front, cursor);
    IncreasingConcat(read, [e]);
    assert (forall x, y :: x in read && y in [e] ==> x < y) <==> forall x :: x in read ==> x < e by {
      assert e in [e];
    }
    if forall x :: x in read ==> x < e {
      forall j: nat | from <= j < to - 1 ensures order[j] <= e {
        assert front[j - from] == order[j];
        assert order[j] > cursor ==> order[j] in read;
      }
    }
    if forall j: nat :: from <= j < to - 1 ==> order[j] <= e {
      forall x | x in read ensures x < e {
        assert x in front;
        var j :| 0 <= j < |front| && front[j] == x;
        assert order[from + j] != order[to - 1];
      }
    }
  }

  lemma IncreasingConcat(a: seq<nat>, b: seq<nat>)
    ensures StrictlyIncreasing(a + b)
       <==> StrictlyIncreasing(a) && StrictlyIncreasing(b) && forall x, y :: x in a && y in b ==> x < y
  {
    var s := a + b;
    if StrictlyIncreasing(s) {
      forall i, j | 0 <= i < j < |a| ensures a[i] < a[j] {
        assert s[i] < s[j];
      }
      forall i, j | 0 <= i < j < |b| ensures b[i] < b[j] {
        assert s[|a| + i] < s[|a| + j];
      }
      forall x, y | x in a && y in b ensures x < y {
        var i :| 0 <= i < |a| && a[i] == x;
        var j :| 0 <= j < |b| && b[j] == y;
        assert s[i] < s[|a| + j];
      }
    }
    if StrictlyIncreasing(a) && StrictlyIncreasing(b) && forall x, y :: x in a && y in b ==> x < y {
      forall i, j | 0 <= i < j < |s| ensures s[i] < s[j] {
        if i < |a| <= j {
          assert a[i] in a && b[j - |a|] in b;
        }
      }
    }
  }

  lemma StandsIn(order: seq<nat>, from: nat, to: nat, k: nat)
    requires from <= k < to <= |order|
    ensures order[k] in order[from..to]
  {
    assert order[from..to][k - from] == order[k];
  }

  lemma PositionOf(order: seq<nat>, from: nat, to: nat, e: nat) returns (k: nat)
    requires from <= to <= |order| && e in order[from..to]
    ensures from <= k < to && order[k] == e
  {
    var i :| 0 <= i < to - from && order[from..to][i] == e;
    k := from + i;
  }
}
