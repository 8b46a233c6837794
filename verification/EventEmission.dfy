/** The long-poll when emissions do not overtake each other, and what can happen when they do. */
module EventEmission {
  import opened Arith
  import opened EventOrder
  import opened EventPoll

  // ---- Emissions in the order of their numbers ----

  /** Events have reached the ring and the channel in the order of their numbers. */
  ghost predicate InNumberOrder(w: World) {
    Consecutive(w.appended, 0) && Consecutive(w.sent, 0)
  }

  /** At no time has an event overtaken another one. */
  ghost predicate NoOvertaking(acts: seq<Action>) {
    acts == [] || (NoOvertaking(acts[..|acts| - 1]) && InNumberOrder(Run(acts)))
  }

  ghost predicate OrderedInv(w: World) {
    && InNumberOrder(w) && |w.sent| <= |w.appended| && w.cursor <= |w.appended|
    && match w.phase
       case Waiting(pos) => pos <= w.cursor
       case Coalescing(start, pos, _, drained) =>
         if drained == 0 then start == w.cursor && start < pos
         else drained > w.cursor && start <= drained && (start < pos ==> start >= w.cursor)
       case _ => true
  }

  /** In number order an event was appended, and broadcast, if and only if its number does not exceed how many were. */
  lemma OrderedSizes(w: World)
    requires Inv(w) && InNumberOrder(w)
    ensures |w.sent| <= |w.appended| <= w.numbered && w.cursor <= |w.appended|
  {
    if w.appended != [] {
      assert w.appended[|w.appended| - 1] in w.appended;
    }
    if w.sent != [] {
      assert w.sent[|w.sent| - 1] in w.sent;
      ConsecutiveMembers(w.appended, 0, |w.sent|);
    }
    if w.log != [] {
      assert w.cursor in w.log;
      ConsecutiveMembers(w.appended, 0, w.cursor);
    }
  }

  /** In number order something is unread exactly when more events were appended than the cursor says. */
  lemma OrderedUnread(w: World)
    requires InNumberOrder(w)
    ensures Unread(w) != [] <==> |w.appended| > w.cursor
    ensures Unread(w) != [] ==> Unread(w)[|Unread(w)| - 1] == |w.appended|
  {
    var ring := Ring(w.appended);
    AfterMembers(ring, w.cursor);
    if |w.appended| > w.cursor {
      assert ring[|ring| - 1] == |w.appended|;
    }
    if Unread(w) != [] {
      var e := Unread(w)[0];
      assert e in Unread(w);
    }
  }

  lemma OrderedStep(w: World, a: Action)
    requires Inv(w) && OrderedInv(w) && InNumberOrder(Act(w, a))
    ensures OrderedInv(Act(w, a))
  {
    ActKeepsInv(w, a);
    OrderedSizes(Act(w, a));
    OrderedUnread(w);
  }

  lemma {:induction false} NoOvertakingInv(acts: seq<Action>)
    requires NoOvertaking(acts)
    ensures OrderedInv(Run(acts))
  {
    if acts != [] {
      var front := acts[..|acts| - 1];
      NoOvertakingInv(front);
      RunKeepsInv(front);
      OrderedStep(Run(front), acts[|acts| - 1]);
    }
  }

  // ---- What can go wrong then ----

  /** When the batch was drained, more unread events had been appended than the ring holds. */
  predicate Overrun(w: World) { ReadBy(w).drained > w.cursor + RING_CAP }

  /** After a lag the drain found an event that was still to be broadcast when the receiver was renewed, and the
      receiver has got it, too. */
  predicate Rereceived(w: World) {
    w.phase.Coalescing? && w.phase.start < w.phase.drained && w.phase.start < w.phase.pos
  }

  lemma OrderedNeverOvertakes(order: seq<nat>, from: nat, to: nat, cursor: nat)
    requires Consecutive(order, 0) && from <= to <= |order|
    ensures !Overtaken(order, from, to, cursor) && !Inverted(order, from, to, cursor)
  {
    forall k: nat, i: nat | from <= k < to && cursor < i < order[k] ensures Before(order, i, k) {
      assert order[..k][i - 1] == i;
    }
  }

  lemma OrderedMisses(order: seq<nat>, from: nat, to: nat, cursor: nat)
    requires Consecutive(order, 0) && from <= to <= |order|
    ensures Missed(order, from, to, cursor) <==> cursor < from < to
  {
    if cursor < from < to {
      assert order[..from][cursor] == cursor + 1;
      assert from <= from < to && cursor < cursor + 1 < order[from] && Before(order, cursor + 1, from);
    }
    if Missed(order, from, to, cursor) {
      var k: nat, i: nat :| from <= k < to && cursor < i < order[k] && Before(order, i, from);
      assert i in order[..from];
    }
  }

  lemma OrderedRepeats(order: seq<nat>, from: nat, to: nat, found: nat)
    requires Consecutive(order, 0) && from <= to <= |order|
    ensures Repeated(order, from, to, found) <==> from < to && from < found
  {
    if from < to && from < found {
      assert order[from] <= found;
    }
  }

  lemma OrderedFound(w: World, r: Reading)
    requires Inv(w) && InNumberOrder(w) && EventPoll.Covers(w, r) && !RingFault(w, r)
    requires r.drained == 0 || r.drained > w.cursor
    ensures Found(w, r) == Max(r.drained, w.cursor)
  {
    DrainInOrder(w, r);
    if r.drained > 0 {
      var s := Ring(w.appended[..r.drained]);
      AfterLast(s, w.cursor);
    }
  }

  /** In number order a batch is read with a fault exactly when the ring was overrun or an event was received again. */
  lemma OrderedFault(w: World, a: Action)
    requires Inv(w) && OrderedInv(w) && HandsOver(w, a)
    ensures Faulty(w, a) <==> Overrun(w) || Rereceived(w)
  {
    var r := ReadBy(w);
    StepEffect(w, a);
    OrderedUnread(w);
    OrderedNeverOvertakes(w.appended, RingStart(r.drained), r.drained, w.cursor);
    OrderedMisses(w.appended, RingStart(r.drained), r.drained, w.cursor);
    if !RingFault(w, r) {
      OrderedFound(w, r);
      OrderedNeverOvertakes(w.sent, r.start, r.pos, Found(w, r));
      OrderedMisses(w.sent, r.start, r.pos, Found(w, r));
      OrderedRepeats(w.sent, r.start, r.pos, Found(w, r));
    }
  }

  lemma OrderedMisordered(w: World, a: Action)
    requires Inv(w) && OrderedInv(w) && HandsOver(w, a)
    ensures Misordered(w, a) <==> Rereceived(w)
  {
    var r := ReadBy(w);
    StepEffect(w, a);
    OrderedNeverOvertakes(w.appended, RingStart(r.drained), r.drained, w.cursor);
    OrderedNeverOvertakes(w.sent, r.start, r.pos, w.cursor);
    if Rereceived(w) {
      assert w.cursor < w.sent[r.start] <= w.appended[r.drained - 1];
    }
  }

  /** In number order a batch that did not overrun passes no event over. */
  lemma OrderedPasses(w: World, a: Action, e: nat)
    requires Inv(w) && OrderedInv(w) && HandsOver(w, a) && !Overrun(w)
    ensures !Passes(w, a, e)
  {
    var r := ReadBy(w);
    StepEffect(w, a);
    OrderedUnread(w);
    OrderedLast(w, r);
    assert r.start <= Max(r.drained, w.cursor);
    if w.cursor < e <= Act(w, a).cursor {
      OrderedReads(w, r, e);
    }
  }

  lemma OrderedReads(w: World, r: Reading, e: nat)
    requires InNumberOrder(w) && EventPoll.Covers(w, r) && r.start <= Max(r.drained, w.cursor)
    requires r.drained <= w.cursor + RING_CAP && w.cursor < e <= Max(r.drained, r.pos)
    ensures e in w.appended[RingStart(r.drained)..r.drained] || e in w.sent[r.start..r.pos]
  {
    if e <= r.drained {
      StandsIn(w.appended, RingStart(r.drained), r.drained, e - 1);
    } else {
      StandsIn(w.sent, r.start, r.pos, e - 1);
    }
  }

  lemma OrderedLast(w: World, r: Reading)
    requires InNumberOrder(w) && EventPoll.Covers(w, r) && Batch(w, r) != []
    ensures Batch(w, r)[|Batch(w, r)| - 1] <= Max(r.drained, r.pos)
  {
    AfterMembers(Ring(w.appended[..r.drained]), w.cursor);
    var drain, rest := After(Ring(w.appended[..r.drained]), w.cursor), w.sent[r.start..r.pos];
    if rest == [] {
      assert drain[|drain| - 1] in drain;
    }
  }

  /** No batch was drained after unread events had left the ring. */
  ghost predicate NeverOverrun(acts: seq<Action>) {
    acts == [] ||
    (NeverOverrun(acts[..|acts| - 1])
     && (HandsOver(Run(acts[..|acts| - 1]), acts[|acts| - 1]) ==> !Overrun(Run(acts[..|acts| - 1]))))
  }

  /** No batch had a drained event received again. */
  ghost predicate NeverRereceived(acts: seq<Action>) {
    acts == [] ||
    (NeverRereceived(acts[..|acts| - 1])
     && (HandsOver(Run(acts[..|acts| - 1]), acts[|acts| - 1]) ==> !Rereceived(Run(acts[..|acts| - 1]))))
  }

  lemma {:induction false} OrderedFaults(acts: seq<Action>)
    requires NoOvertaking(acts)
    ensures Faultless(acts) <==> NeverOverrun(acts) && NeverRereceived(acts)
    ensures Ascending(acts) <==> NeverRereceived(acts)
  {
    if acts != [] {
      var front, a := acts[..|acts| - 1], acts[|acts| - 1];
      OrderedFaults(front);
      RunKeepsInv(front);
      NoOvertakingInv(front);
      if HandsOver(Run(front), a) {
        OrderedFault(Run(front), a);
        OrderedMisordered(Run(front), a);
      }
    }
  }

  lemma {:induction false} OrderedNotPassed(acts: seq<Action>, e: nat)
    requires NoOvertaking(acts) && NeverOverrun(acts)
    ensures !PassedOver(acts, e)
  {
    if acts != [] {
      var front, a := acts[..|acts| - 1], acts[|acts| - 1];
      OrderedNotPassed(front, e);
      RunKeepsInv(front);
      NoOvertakingInv(front);
      if HandsOver(Run(front), a) {
        OrderedPasses(Run(front), a, e);
      }
    }
  }

  /** When emissions do not overtake each other: the log is strictly increasing if and only if no drained event was
      received again; it is the published prefix if and only if, besides, no batch was drained after unread events had
      left the ring; and without such an overrun nothing is lost. */
  lemma OrderedDelivery(acts: seq<Action>)
    requires NoOvertaking(acts)
    ensures StrictlyIncreasing(Run(acts).log) <==> NeverRereceived(acts)
    ensures Run(acts).log == Range(0, Run(acts).cursor) <==> NeverOverrun(acts) && NeverRereceived(acts)
    ensures NeverOverrun(acts) ==> forall e: nat :: 1 <= e <= Run(acts).cursor ==> e in Run(acts).log
  {
    OrderedFaults(acts);
    ExactlyThePrefix(acts);
    EventPoll.IncreasingIff(acts);
    if NeverOverrun(acts) {
      forall e: nat | 1 <= e <= Run(acts).cursor ensures e in Run(acts).log {
        LostIff(acts, e);
        OrderedNotPassed(acts, e);
      }
    }
  }

  // ---- One emission at a time ----

  /** Each event has been broadcast before the next one gets its number. */
  ghost predicate Serial(acts: seq<Action>) {
    acts == [] ||
    (Serial(acts[..|acts| - 1])
     && (acts[|acts| - 1].Number? ==> |Run(acts[..|acts| - 1]).sent| == Run(acts[..|acts| - 1]).numbered))
  }

  ghost predicate SerialInv(w: World) {
    && InNumberOrder(w) && |w.sent| <= |w.appended| <= w.numbered <= |w.sent| + 1
    && w.cursor <= |w.appended|
    && match w.phase
       case Subscribed(pos) => pos + 1 >= w.cursor
       case Waiting(pos) => pos + 1 >= w.cursor
       case Resubscribed(pos) => pos >= w.cursor + RING_CAP
       case Coalescing(start, _, _, drained) => drained > 0 ==> start >= w.cursor + RING_CAP
       case _ => true
  }

  lemma SerialOrders(w: World, a: Action)
    requires Inv(w) && SerialInv(w) && (a.Number? ==> |w.sent| == w.numbered)
    ensures InNumberOrder(Act(w, a))
  {
    match a
    case Push(e) => ConsecutiveMembers(w.appended, 0, e);
    case Send(e) =>
      ConsecutiveMembers(w.appended, 0, e);
      ConsecutiveMembers(w.sent, 0, e);
    case _ =>
  }

  lemma SerialStep(w: World, a: Action)
    requires Inv(w) && SerialInv(w) && (a.Number? ==> |w.sent| == w.numbered)
    ensures SerialInv(Act(w, a))
  {
    SerialOrders(w, a);
    ActKeepsInv(w, a);
    OrderedSizes(Act(w, a));
  }

  lemma {:induction false} SerialKeepsInv(acts: seq<Action>)
    requires Serial(acts)
    ensures SerialInv(Run(acts)) && NoOvertaking(acts)
  {
    if acts != [] {
      var front := acts[..|acts| - 1];
      SerialKeepsInv(front);
      RunKeepsInv(front);
      SerialStep(Run(front), acts[|acts| - 1]);
    }
  }

  lemma {:induction false} SerialNeverRereceives(acts: seq<Action>)
    requires Serial(acts) && NeverOverrun(acts)
    ensures NeverRereceived(acts)
  {
    if acts != [] {
      SerialNeverRereceives(acts[..|acts| - 1]);
      SerialKeepsInv(acts[..|acts| - 1]);
    }
  }

  /** When each emission is complete before the next one begins, the client has exactly the published prefix if and
      only if no batch was drained after unread events had left the ring. */
  lemma SerialDelivery(acts: seq<Action>)
    requires Serial(acts)
    ensures Run(acts).log == Range(0, Run(acts).cursor) <==> NeverOverrun(acts)
  {
    SerialKeepsInv(acts);
    OrderedDelivery(acts);
    if NeverOverrun(acts) {
      SerialNeverRereceives(acts);
    }
  }

  // ---- A client that keeps up ----

  /** At no time have more than the ring's capacity of events been appended beyond the cursor. */
  ghost predicate KeepsUp(acts: seq<Action>) {
    acts == [] || (KeepsUp(acts[..|acts| - 1]) && |Run(acts).appended| <= Run(acts).cursor + RING_CAP)
  }

  ghost predicate DrainedInTime(w: World) {
    w.phase.Coalescing? ==> w.phase.drained <= w.cursor + RING_CAP
  }

  lemma DrainsInTime(w: World, a: Action)
    requires Collected(w) && DrainedInTime(w) && |w.appended| <= w.cursor + RING_CAP
    ensures DrainedInTime(Act(w, a)) && (HandsOver(w, a) ==> !Overrun(w))
  {
  }

  lemma {:induction false} KeepingUpNeverOverruns(acts: seq<Action>)
    requires KeepsUp(acts)
    ensures DrainedInTime(Run(acts)) && NeverOverrun(acts)
  {
    if acts != [] {
      var front := acts[..|acts| - 1];
      KeepingUpNeverOverruns(front);
      assert |Run(front).appended| <= Run(front).cursor + RING_CAP;
      DrainsInTime(Run(front), acts[|acts| - 1]);
    }
  }

  /** A client that keeps up misses nothing when emissions do not overtake each other, and has exactly the published
      prefix when each is complete before the next one begins. */
  lemma KeepingUpMissesNothing(acts: seq<Action>)
    requires KeepsUp(acts)
    ensures NoOvertaking(acts) ==> forall e: nat :: 1 <= e <= Run(acts).cursor ==> e in Run(acts).log
    ensures Serial(acts) ==> Run(acts).log == Range(0, Run(acts).cursor)
  {
    KeepingUpNeverOverruns(acts);
    if NoOvertaking(acts) {
      OrderedDelivery(acts);
    }
    if Serial(acts) {
      SerialDelivery(acts);
    }
  }
}
