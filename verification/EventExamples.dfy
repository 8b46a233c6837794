/** Runs of the long-poll on which the client does not get each event once and in order, although it never falls
    behind by more than the ring holds. */
module EventExamples {
  import opened Arith
  import opened EventOrder
  import opened EventPoll
  import opened EventEmission

  /** Reached by a client that keeps up, and, when `ordered`, by emissions that do not overtake each other. */
  ghost predicate Reached(w: World, ordered: bool) {
    exists acts :: Run(acts) == w && KeepsUp(acts) && (ordered ==> NoOvertaking(acts))
  }

  lemma Reach(w: World, ordered: bool, a: Action)
    requires Reached(w, ordered) && Collected(w)
    requires |Act(w, a).appended| <= Act(w, a).cursor + RING_CAP && (ordered ==> InNumberOrder(Act(w, a)))
    ensures Reached(Act(w, a), ordered)
  {
    var acts :| Run(acts) == w && KeepsUp(acts) && (ordered ==> NoOvertaking(acts));
    RunSnoc(acts, a);
    assert (acts + [a])[..|acts + [a]| - 1] == acts;
    assert KeepsUp(acts + [a]);
    assert ordered ==> NoOvertaking(acts + [a]);
  }

  // ---- Two emissions that overtake each other ----

  /** Two events are in the ring, in order; a call is waiting, and the second event has been broadcast first. */
  const OVERTAKEN := World(2, [1, 2], [2], 0, [], Waiting(0))

  lemma TwoNumbered(ordered: bool)
    ensures Reached(World(2, [], [], 0, [], Idle), ordered)
  {
    assert Run([]) == INITIALLY && KeepsUp([]) && NoOvertaking([]);
    Reach(INITIALLY, ordered, Number);
    Reach(World(1, [], [], 0, [], Idle), ordered, Number);
  }

  lemma WaitingIsReached()
    ensures Reached(World(2, [], [], 0, [], Waiting(0)), false)
  {
    TwoNumbered(false);
    Reach(World(2, [], [], 0, [], Idle), false, Call);
    Reach(World(2, [], [], 0, [], Subscribed(0)), false, DrainRing);
  }

  lemma OvertakenIsReached()
    ensures Reached(OVERTAKEN, false)
  {
    WaitingIsReached();
    var waiting := World(2, [], [], 0, [], Waiting(0));
    Reach(waiting, false, Push(1));
    assert [] + [1] == [1] && [1] + [2] == [1, 2];
    Reach(waiting.(appended := [1]), false, Push(2));
    assert 2 in [1, 2];
    Reach(waiting.(appended := [1, 2]), false, Send(2));
  }

  lemma OvertakenReceived()
    ensures Reached(OVERTAKEN.(phase := Coalescing(0, 1, [2], 0)), false)
  {
    OvertakenIsReached();
    Reach(OVERTAKEN, false, Receive);
  }

  lemma BackwardBatch()
    ensures Reached(World(2, [1, 2], [2, 1], 1, [2, 1], Idle), false)
  {
    OvertakenReceived();
    var w1 := OVERTAKEN.(phase := Coalescing(0, 1, [2], 0));
    assert 1 in w1.appended;
    Reach(w1, false, Send(1));
    var w2 := w1.(sent := [2, 1]);
    Reach(w2, false, Receive);
    Reach(w2.(phase := Coalescing(0, 2, [2, 1], 0)), false, Deliver);
  }

  /** When the first event is broadcast in time for the same batch, the client gets 2, 1 and 2 again. */
  lemma OvertakingCanRepeat()
    ensures exists w :: Reached(w, false) && w.log == [2, 1, 2] && |w.appended| == 2
  {
    BackwardBatch();
    var w3 := World(2, [1, 2], [2, 1], 1, [2, 1], Idle);
    Reach(w3, false, Call);
    var w4 := w3.(phase := Subscribed(2));
    SecondIsUnread(w4);
    Reach(w4, false, DrainRing);
    assert Act(w4, DrainRing).log == [2, 1, 2];
  }

  lemma SecondIsUnread(w: World)
    requires w.appended == [1, 2] && w.cursor == 1
    ensures Unread(w) == [2]
  {
    assert Ring(w.appended) == [1, 2] && [1, 2][..1] == [1] && [1][..0] == [];
    assert After([1], 1) == After([1][..0], 1) == [];
  }

  /** When it is broadcast later, the client never gets it, whatever happens afterwards. */
  lemma OvertakingCanLose()
    ensures exists acts ::
              && KeepsUp(acts) && |Run(acts).appended| == 2
              && forall more :: 1 !in Run(acts + more).log
  {
    OvertakenReceived();
    var w := OVERTAKEN.(phase := Coalescing(0, 1, [2], 0));
    Reach(w, false, Deliver);
    var w' := World(2, [1, 2], [2], 2, [2], Idle);
    assert Act(w, Deliver) == w';
    var acts :| Run(acts) == w' && KeepsUp(acts);
    forall more ensures 1 !in Run(acts + more).log {
      LostForEver(acts, more, 1);
    }
  }

  // ---- A lag ----

  lemma TwoAppended()
    ensures Reached(World(2, Range(0, 2), [], 0, [], Idle), true)
  {
    TwoNumbered(true);
    var w := World(2, [], [], 0, [], Idle);
    assert [] + [1] == Range(0, 1) && Range(0, 1) + [2] == Range(0, 2);
    Reach(w, true, Push(1));
    ConsecutiveMembers(Range(0, 1), 0, 2);
    Reach(w.(appended := Range(0, 1)), true, Push(2));
  }

  lemma ReachCall(w: World)
    requires Reached(w, true) && w.phase.Idle? && w.appended == Range(0, |w.appended|) && Consecutive(w.sent, 0)
    requires |w.appended| <= w.cursor + RING_CAP
    ensures Reached(Act(w.(phase := Subscribed(|w.sent|)), DrainRing), true)
  {
    Reach(w, true, Call);
    LastOnesUnread(w, |w.appended|);
    Reach(w.(phase := Subscribed(|w.sent|)), true, DrainRing);
  }

  lemma FirstTwo()
    ensures Reached(World(2, Range(0, 2), [], 2, Range(0, 2), Waiting(0)), true)
  {
    TwoAppended();
    var w := World(2, Range(0, 2), [], 0, [], Idle);
    ReachCall(w);
    LastOnesUnread(w.(phase := Subscribed(0)), 2);
    assert [] + Range(0, 2) == Range(0, 2);
    var w' := w.(cursor := 2, log := Range(0, 2));
    ReachCall(w');
    LastOnesUnread(w'.(phase := Subscribed(0)), 2);
  }

  lemma LastOnesUnread(w: World, n: nat)
    requires w.appended == Range(0, n) && n <= w.cursor + RING_CAP
    ensures Unread(w) == Range(w.cursor, n)
  {
    var start := RingStart(n);
    assert Ring(w.appended) == Range(start, n);
    AfterRange(start, n, w.cursor);
  }

  lemma {:induction false} AfterRange(a: nat, b: nat, cursor: nat)
    requires a <= cursor
    ensures After(Range(a, b), cursor) == Range(cursor, b)
  {
    if b > a {
      var front := Range(a, b - 1);
      assert Range(a, b) == front + [b] && (front + [b])[..|front|] == front;
      AfterRange(a, b - 1, cursor);
    }
  }

  /** Whole emissions, one after the other, while the call waits. */
  lemma {:induction false} ReachEmissions(n: nat)
    requires n <= RING_CAP
    ensures Reached(World(2 + n, Range(0, 2 + n), Range(0, 2 + n), 2, Range(0, 2), Waiting(0)), true)
  {
    var base := World(2, Range(0, 2), [], 2, Range(0, 2), Waiting(0));
    if n == 0 {
      FirstTwo();
      ReachSend(base, 0);
      ReachSend(base.(sent := Range(0, 1)), 1);
    } else {
      ReachEmissions(n - 1);
      var m := 1 + n;
      var w := World(m, Range(0, m), Range(0, m), 2, Range(0, 2), Waiting(0));
      ReachPush(w);
      ReachSend(w.(numbered := m + 1, appended := Range(0, m + 1)), m);
    }
  }

  lemma ReachSend(w: World, n: nat)
    requires Reached(w, true) && Collected(w) && |w.appended| <= w.cursor + RING_CAP
    requires w.appended == Range(0, |w.appended|) && w.sent == Range(0, n) && n < |w.appended|
    ensures Reached(w.(sent := Range(0, n + 1)), true)
  {
    ConsecutiveMembers(w.appended, 0, n + 1);
    ConsecutiveMembers(w.sent, 0, n + 1);
    Reach(w, true, Send(n + 1));
  }

  lemma ReachPush(w: World)
    requires Reached(w, true) && Collected(w) && |w.appended| < w.cursor + RING_CAP
    requires w.appended == Range(0, w.numbered) && w.sent == Range(0, |w.sent|)
    ensures Reached(w.(numbered := w.numbered + 1, appended := Range(0, w.numbered + 1)), true)
  {
    Reach(w, true, Number);
    ConsecutiveMembers(w.appended, 0, w.numbered + 1);
    Reach(w.(numbered := w.numbered + 1), true, Push(w.numbered + 1));
  }

  /** After 255 more emissions the receiver has lagged; one further event reaches the ring between the new
      subscription and the drain. */
  lemma LaggedDrain()
    ensures Reached(World(258, Range(0, 258), Range(0, 257), 2, Range(0, 2),
                          Coalescing(257, 257, Range(2, 258), 258)), true)
  {
    ReachEmissions(255);
    var w := World(257, Range(0, 257), Range(0, 257), 2, Range(0, 2), Waiting(0));
    Reach(w, true, Receive);
    var w1 := w.(phase := Resubscribed(257));
    ReachPush(w1);
    var w2 := w1.(numbered := 258, appended := Range(0, 258));
    LastOnesUnread(w2, 258);
    Reach(w2, true, DrainRing);
  }

  /** That event is delivered twice, although emissions did not overtake each other and none ever left the ring
      unread. */
  lemma LagCanRepeat()
    ensures exists w :: Reached(w, true) && !StrictlyIncreasing(w.log)
  {
    LaggedDrain();
    var w := World(258, Range(0, 258), Range(0, 257), 2, Range(0, 2), Coalescing(257, 257, Range(2, 258), 258));
    ReachSend(w, 257);
    var w1 := w.(sent := Range(0, 258));
    Reach(w1, true, Receive);
    var w2 := w1.(phase := Coalescing(257, 258, Range(2, 258) + [258], 258));
    Reach(w2, true, Deliver);
    var log := Act(w2, Deliver).log;
    assert log == Range(0, 2) + (Range(2, 258) + [258]);
    assert log[257] == 258 && log[258] == 258;
  }
}
