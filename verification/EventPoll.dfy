/** The long-poll for pane events: emitters that number an event, append it to a bounded ring and broadcast it, a call
    that subscribes and then drains the ring, and a client that moves its cursor to the last event of each batch.
    Everything that the daemon does not do atomically is a separate step, so emissions may overtake each other between
    their numbering, their append and their broadcast. Events are represented by their numbers, which start at 1. */
module EventPoll {
  import opened Arith
  import opened EventOrder

  /** Where the call of the client stands. `pos` counts the broadcasts its receiver has consumed or missed.
      A batch being collected holds what a drain found when `drained` events had been appended (0 when there was no
      drain), and the broadcasts from `start` up to `pos`. */
  datatype Phase =
    | Idle
    | Subscribed(pos: nat)                        // receiver taken, ring not yet drained
    | Waiting(pos: nat)                           // nothing new in the ring
    | Resubscribed(pos: nat)                      // lagged, new receiver taken, ring not yet drained
    | Coalescing(start: nat, pos: nat, collected: seq<nat>, drained: nat)

  /** Events 1..numbered have a number; `appended` and `sent` list them in the order in which they reached the ring and
      the broadcast channel. `log` is everything the client has received. */
  datatype World = World(
    numbered: nat,
    appended: seq<nat>,
    sent: seq<nat>,
    cursor: nat,
    log: seq<nat>,
    phase: Phase)

  const INITIALLY := World(0, [], [], 0, [], Idle)

  datatype Action =
    | Number | Push(event: nat) | Send(event: nat)              // emitters
    | Call | DrainRing | Receive | Timeout | Deliver | Abort    // the call

  /** The events in the ring that the client has not had. */
  function Unread(w: World): seq<nat> { After(Ring(w.appended), w.cursor) }

  function HandOver(w: World, batch: seq<nat>): World
    requires batch != []
  {
    w.(log := w.log + batch, cursor := batch[|batch| - 1], phase := Idle)
  }

  predicate Collected(w: World) {
    w.phase.Coalescing? ==> w.phase.collected != []
  }

  /** One step; an action that is not possible changes nothing. */
  function Act(w: World, a: Action): (w': World)
    requires Collected(w)
    ensures Collected(w')
  {
    match a
    case Number => w.(numbered := w.numbered + 1)
    case Push(e) => if 1 <= e <= w.numbered && e !in w.appended then w.(appended := w.appended + [e]) else w
    case Send(e) => if e in w.appended && e !in w.sent then w.(sent := w.sent + [e]) else w
    case Call => if w.phase.Idle? then w.(phase := Subscribed(|w.sent|)) else w
    case DrainRing =>
      if w.phase.Subscribed? then
        if Unread(w) != [] then HandOver(w, Unread(w)) else w.(phase := Waiting(w.phase.pos))
      else if w.phase.Resubscribed? then
        if Unread(w) != [] then w.(phase := Coalescing(w.phase.pos, w.phase.pos, Unread(w), |w.appended|))
        else w.(phase := Waiting(w.phase.pos))
      else w
    case Receive =>
      if w.phase.Waiting? && |w.sent| > w.phase.pos then
        var e := w.sent[w.phase.pos];
        if |w.sent| - w.phase.pos > RING_CAP then w.(phase := Resubscribed(|w.sent|))
        else if e > w.cursor then w.(phase := Coalescing(w.phase.pos, w.phase.pos + 1, [e], 0))
        else w.(phase := Waiting(w.phase.pos + 1))
      else if w.phase.Coalescing? && |w.sent| > w.phase.pos then
        var e := w.sent[w.phase.pos];
        if |w.sent| - w.phase.pos <= RING_CAP && e > w.cursor
        then w.(phase := w.phase.(pos := w.phase.pos + 1, collected := w.phase.collected + [e]))
        else HandOver(w, w.phase.collected)
      else w
    case Timeout => if w.phase.Waiting? then w.(phase := Idle) else w
    case Deliver => if w.phase.Coalescing? then HandOver(w, w.phase.collected) else w
    case Abort => w.(phase := Idle)
  }

  function Run(acts: seq<Action>): (w: World)
    ensures Collected(w)
  {
    if acts == [] then INITIALLY else Act(Run(acts[..|acts| - 1]), acts[|acts| - 1])
  }

  lemma RunSnoc(acts: seq<Action>, a: Action)
    ensures Run(acts + [a]) == Act(Run(acts), a)
  {
    assert (acts + [a])[..|acts|] == acts;
  }

  // ---- What every step keeps ----

  /** Each event reaches the ring and the channel at most once, after it was numbered and appended. */
  ghost predicate OrdersInv(w: World) {
    && Distinct(w.appended) && Distinct(w.sent)
    && (forall e :: e in w.appended ==> 1 <= e <= w.numbered)
    && (forall e :: e in w.sent ==> e in w.appended)
  }

  ghost predicate LogInv(w: World) {
    && w.cursor == (if w.log == [] then 0 else w.log[|w.log| - 1])
    && forall e :: e in w.log ==> e in w.appended
  }

  /** What a reading covers: what a drain found, and a stretch of the broadcasts. */
  datatype Reading = Reading(drained: nat, start: nat, pos: nat)

  ghost predicate Covers(w: World, r: Reading) {
    r.drained <= |w.appended| && r.start <= r.pos <= |w.sent|
  }

  function Batch(w: World, r: Reading): seq<nat>
    requires r.drained <= |w.appended| && r.start <= r.pos <= |w.sent|
  {
    After(Ring(w.appended[..r.drained]), w.cursor) + w.sent[r.start..r.pos]
  }

  ghost predicate PhaseInv(w: World) {
    match w.phase
    case Idle => true
    case Subscribed(pos) => pos <= |w.sent|
    case Waiting(pos) => pos <= |w.sent|
    case Resubscribed(pos) => pos <= |w.sent|
    case Coalescing(start, pos, collected, drained) =>
      && Covers(w, Reading(drained, start, pos))
      && collected == Batch(w, Reading(drained, start, pos)) && collected != []
      && forall k :: start <= k < pos ==> w.sent[k] > w.cursor
  }

  ghost predicate Inv(w: World) {
    OrdersInv(w) && LogInv(w) && PhaseInv(w)
  }

  lemma PushKeepsInv(w: World, e: nat)
    requires Inv(w)
    ensures Inv(Act(w, Push(e)))
  {
    var w' := Act(w, Push(e));
    if w.phase.Coalescing? {
      assert w'.appended[..w.phase.drained] == w.appended[..w.phase.drained];
    }
  }

  lemma SendKeepsInv(w: World, e: nat)
    requires Inv(w)
    ensures Inv(Act(w, Send(e)))
  {
    var w' := Act(w, Send(e));
    if w.phase.Coalescing? {
      assert w'.sent[w.phase.start..w.phase.pos] == w.sent[w.phase.start..w.phase.pos];
    }
  }

  lemma DrainKeepsInv(w: World)
    requires Inv(w)
    ensures Inv(Act(w, DrainRing))
  {
    AfterMembers(Ring(w.appended), w.cursor);
    assert w.appended[..|w.appended|] == w.appended;
    if w.phase.Resubscribed? {
      assert Unread(w) + w.sent[w.phase.pos..w.phase.pos] == Unread(w);
    }
  }

  lemma BatchFromRing(w: World, r: Reading)
    requires OrdersInv(w) && Covers(w, r)
    ensures forall e :: e in Batch(w, r) ==> e in w.appended
  {
    AfterMembers(Ring(w.appended[..r.drained]), w.cursor);
  }

  lemma ReceiveKeepsInv(w: World)
    requires Inv(w)
    ensures Inv(Act(w, Receive))
  {
    if w.phase.Waiting? && |w.sent| > w.phase.pos {
      var pos := w.phase.pos;
      assert w.sent[pos..pos + 1] == [w.sent[pos]];
      assert After(Ring(w.appended[..0]), w.cursor) + [w.sent[pos]] == [w.sent[pos]];
    } else if w.phase.Coalescing? && |w.sent| > w.phase.pos {
      var drain, start, pos := After(Ring(w.appended[..w.phase.drained]), w.cursor), w.phase.start, w.phase.pos;
      assert drain + w.sent[start..pos + 1] == (drain + w.sent[start..pos]) + [w.sent[pos]];
      BatchFromRing(w, Reading(w.phase.drained, start, pos));
    }
  }

  lemma ActKeepsInv(w: World, a: Action)
    requires Inv(w)
    ensures Inv(Act(w, a))
  {
    match a
    case Push(e) => PushKeepsInv(w, e);
    case Send(e) => SendKeepsInv(w, e);
    case DrainRing => DrainKeepsInv(w);
    case Receive => ReceiveKeepsInv(w);
    case Deliver =>
      if w.phase.Coalescing? {
        BatchFromRing(w, Reading(w.phase.drained, w.phase.start, w.phase.pos));
      }
    case _ =>
  }

  lemma {:induction false} RunKeepsInv(acts: seq<Action>)
    ensures Inv(Run(acts))
  {
    if acts != [] {
      RunKeepsInv(acts[..|acts| - 1]);
      ActKeepsInv(Run(acts[..|acts| - 1]), acts[|acts| - 1]);
    }
  }

  // ---- Handing over a batch ----

  /** The step hands a batch to the client. */
  predicate HandsOver(w: World, a: Action) {
    match a
    case DrainRing => w.phase.Subscribed? && Unread(w) != []
    case Receive =>
      && w.phase.Coalescing? && |w.sent| > w.phase.pos
      && (|w.sent| - w.phase.pos > RING_CAP || w.sent[w.phase.pos] <= w.cursor)
    case Deliver => w.phase.Coalescing?
    case _ => false
  }

  /** What the batch that is handed over was read from. */
  function ReadBy(w: World): Reading {
    if w.phase.Coalescing? then Reading(w.phase.drained, w.phase.start, w.phase.pos) else Reading(|w.appended|, 0, 0)
  }

  lemma StepEffect(w: World, a: Action)
    requires Inv(w)
    ensures !HandsOver(w, a) ==> Act(w, a).log == w.log && Act(w, a).cursor == w.cursor
    ensures HandsOver(w, a) ==>
              && Covers(w, ReadBy(w)) && Batch(w, ReadBy(w)) != []
              && Act(w, a) == HandOver(w, Batch(w, ReadBy(w)))
  {
    if HandsOver(w, a) && w.phase.Subscribed? {
      assert w.appended[..|w.appended|] == w.appended;
      assert Unread(w) + w.sent[0..0] == Unread(w);
    }
  }

  lemma BatchIsLater(w: World, r: Reading)
    requires Covers(w, r) && forall k :: r.start <= k < r.pos ==> w.sent[k] > w.cursor
    ensures forall e :: e in Batch(w, r) <==>
              e in w.sent[r.start..r.pos] || (e > w.cursor && e in w.appended[RingStart(r.drained)..r.drained])
  {
    AfterMembers(Ring(w.appended[..r.drained]), w.cursor);
    RingSlice(w.appended, r.drained);
  }

  lemma RingSlice(order: seq<nat>, n: nat)
    requires n <= |order|
    ensures Ring(order[..n]) == order[RingStart(n)..n]
  {
  }

  // ---- When the client has exactly the published prefix ----

  /** The drain met an event that had overtaken an unread one on its way to the ring, or that stood in the ring
      although an unread one before it had left the ring. */
  ghost predicate RingFault(w: World, r: Reading)
    requires Covers(w, r)
  {
    || Overtaken(w.appended, RingStart(r.drained), r.drained, w.cursor)
    || Missed(w.appended, RingStart(r.drained), r.drained, w.cursor)
  }

  /** The last event that the drain found, or the cursor. */
  function Found(w: World, r: Reading): nat
    requires r.drained <= |w.appended|
  {
    w.cursor + |After(Ring(w.appended[..r.drained]), w.cursor)|
  }

  /** The receiver met an event that the drain had found, that had overtaken an unread one on its way to the channel,
      or that came although an unread one had been broadcast before the receiver listened. */
  ghost predicate BroadcastFault(w: World, r: Reading)
    requires Covers(w, r)
  {
    || Repeated(w.sent, r.start, r.pos, Found(w, r))
    || Overtaken(w.sent, r.start, r.pos, Found(w, r))
    || Missed(w.sent, r.start, r.pos, Found(w, r))
  }

  /** The step hands over a batch that was read with a fault. */
  ghost predicate Faulty(w: World, a: Action) {
    HandsOver(w, a) && Covers(w, ReadBy(w)) && (RingFault(w, ReadBy(w)) || BroadcastFault(w, ReadBy(w)))
  }

  /** Every batch that was handed over was read without a fault. */
  ghost predicate Faultless(acts: seq<Action>) {
    acts == [] || (Faultless(acts[..|acts| - 1]) && !Faulty(Run(acts[..|acts| - 1]), acts[|acts| - 1]))
  }

  lemma DrainInOrder(w: World, r: Reading)
    requires OrdersInv(w) && Covers(w, r)
    ensures Consecutive(After(Ring(w.appended[..r.drained]), w.cursor), w.cursor) <==> !RingFault(w, r)
  {
    var s := Ring(w.appended[..r.drained]);
    RingSlice(w.appended, r.drained);
    assert Distinct(s);
    GaplessIff(s, w.cursor);
    GapCauses(w.appended, RingStart(r.drained), r.drained, w.cursor);
  }

  lemma BroadcastsInOrder(w: World, r: Reading)
    requires OrdersInv(w) && Covers(w, r)
    ensures Consecutive(w.sent[r.start..r.pos], Found(w, r)) <==> !BroadcastFault(w, r)
  {
    StretchIff(w.sent, r.start, r.pos, Found(w, r));
  }

  /** A batch is exactly the next numbers if and only if it was read without a fault. */
  lemma BatchInOrder(w: World, r: Reading)
    requires OrdersInv(w) && Covers(w, r)
    ensures Consecutive(Batch(w, r), w.cursor) <==> !RingFault(w, r) && !BroadcastFault(w, r)
  {
    var drain, rest := After(Ring(w.appended[..r.drained]), w.cursor), w.sent[r.start..r.pos];
    DrainInOrder(w, r);
    BroadcastsInOrder(w, r);
    PartsInOrder(drain, rest, w.cursor);
  }

  lemma StepExact(w: World, a: Action)
    requires Inv(w)
    ensures Consecutive(Act(w, a).log, 0) <==> Consecutive(w.log, 0) && !Faulty(w, a)
  {
    StepEffect(w, a);
    if HandsOver(w, a) {
      BatchInOrder(w, ReadBy(w));
      PartsInOrder(w.log, Batch(w, ReadBy(w)), 0);
      PrefixIff(w.log, w.cursor);
    }
  }

  lemma {:induction false} RunExact(acts: seq<Action>)
    ensures Consecutive(Run(acts).log, 0) <==> Faultless(acts)
  {
    if acts != [] {
      var front := acts[..|acts| - 1];
      RunExact(front);
      RunKeepsInv(front);
      StepExact(Run(front), acts[|acts| - 1]);
    }
  }

  /** Over every run, whatever the order of appends and broadcasts, and with lags, timeouts, lost replies and
      coalescing: the client has exactly the published prefix, each event once and in order, if and only if no batch
      was read with a fault. */
  lemma ExactlyThePrefix(acts: seq<Action>)
    ensures Run(acts).log == Range(0, Run(acts).cursor) <==> Faultless(acts)
  {
    RunKeepsInv(acts);
    RunExact(acts);
    PrefixIff(Run(acts).log, Run(acts).cursor);
  }

  // ---- When events arrive in increasing order ----

  /** A batch has an event behind a later one: among those drained, among those received, or between the two. */
  ghost predicate OrderFault(w: World, r: Reading)
    requires Covers(w, r)
  {
    || Inverted(w.appended, RingStart(r.drained), r.drained, w.cursor)
    || Inverted(w.sent, r.start, r.pos, w.cursor)
    || Crossed(w, r)
  }

  /** An event was received that is not later than one that the drain had found. */
  ghost predicate Crossed(w: World, r: Reading)
    requires Covers(w, r)
  {
    exists j: nat, k: nat ::
      RingStart(r.drained) <= j < r.drained && r.start <= k < r.pos && w.cursor < w.sent[k] <= w.appended[j]
  }

  /** The step hands over a batch with an event behind a later one. */
  ghost predicate Misordered(w: World, a: Action) {
    HandsOver(w, a) && Covers(w, ReadBy(w)) && OrderFault(w, ReadBy(w))
  }

  ghost predicate Ascending(acts: seq<Action>) {
    acts == [] || (Ascending(acts[..|acts| - 1]) && !Misordered(Run(acts[..|acts| - 1]), acts[|acts| - 1]))
  }

  lemma CrossedIff(w: World, r: Reading, drain: seq<nat>, rest: seq<nat>)
    requires Covers(w, r) && forall k :: r.start <= k < r.pos ==> w.sent[k] > w.cursor
    requires drain == After(Ring(w.appended[..r.drained]), w.cursor) && rest == w.sent[r.start..r.pos]
    ensures (forall x, y :: x in drain && y in rest ==> x < y) <==> !Crossed(w, r)
  {
    RingSlice(w.appended, r.drained);
    AfterMembers(Ring(w.appended[..r.drained]), w.cursor);
    if Crossed(w, r) {
      var j: nat, k: nat :|
        RingStart(r.drained) <= j < r.drained && r.start <= k < r.pos && w.cursor < w.sent[k] <= w.appended[j];
      StandsIn(w.appended, RingStart(r.drained), r.drained, j);
      StandsIn(w.sent, r.start, r.pos, k);
      assert w.appended[j] in drain && w.sent[k] in rest;
    } else {
      forall x, y | x in drain && y in rest ensures x < y {
        var j := PositionOf(w.appended, RingStart(r.drained), r.drained, x);
        var k := PositionOf(w.sent, r.start, r.pos, y);
        assert !(w.cursor < w.sent[k] <= w.appended[j]);
      }
    }
  }

  lemma BatchIncreasing(w: World, r: Reading)
    requires OrdersInv(w) && Covers(w, r) && forall k :: r.start <= k < r.pos ==> w.sent[k] > w.cursor
    ensures StrictlyIncreasing(Batch(w, r)) <==> !OrderFault(w, r)
  {
    var drain, rest := After(Ring(w.appended[..r.drained]), w.cursor), w.sent[r.start..r.pos];
    RingSlice(w.appended, r.drained);
    AscendingIff(w.appended, RingStart(r.drained), r.drained, w.cursor);
    AscendingIff(w.sent, r.start, r.pos, w.cursor);
    AfterAll(rest, w.cursor);
    CrossedIff(w, r, drain, rest);
    IncreasingConcat(drain, rest);
  }

  lemma LogGrows(w: World, batch: seq<nat>)
    requires LogInv(w) && batch != [] && forall e :: e in batch ==> e > w.cursor
    ensures StrictlyIncreasing(w.log + batch) <==> StrictlyIncreasing(w.log) && StrictlyIncreasing(batch)
  {
    IncreasingConcat(w.log, batch);
    if StrictlyIncreasing(w.log) {
      forall x, y | x in w.log && y in batch ensures x < y {
        var i :| 0 <= i < |w.log| && w.log[i] == x;
        assert i < |w.log| - 1 ==> w.log[i] < w.log[|w.log| - 1];
      }
    }
  }

  lemma StepIncreasing(w: World, a: Action)
    requires Inv(w)
    ensures StrictlyIncreasing(Act(w, a).log) <==> StrictlyIncreasing(w.log) && !Misordered(w, a)
  {
    StepEffect(w, a);
    if HandsOver(w, a) {
      BatchIncreasing(w, ReadBy(w));
      BatchIsLater(w, ReadBy(w));
      LogGrows(w, Batch(w, ReadBy(w)));
    }
  }

  /** Over every run the client's log is strictly increasing, and so free of duplicates, if and only if no batch was
      read with an event behind a later one. */
  lemma {:induction false} IncreasingIff(acts: seq<Action>)
    ensures StrictlyIncreasing(Run(acts).log) <==> Ascending(acts)
  {
    if acts != [] {
      var front := acts[..|acts| - 1];
      IncreasingIff(front);
      RunKeepsInv(front);
      StepIncreasing(Run(front), acts[|acts| - 1]);
    }
  }

  // ---- When an event is delivered, and when it is lost ----

  /** The event stood among the last ones of the ring at the drain, or among the broadcasts that were received. */
  predicate StoodIn(w: World, r: Reading, e: nat) {
    && r.drained <= |w.appended| && r.start <= r.pos <= |w.sent|
    && (e in w.appended[RingStart(r.drained)..r.drained] || e in w.sent[r.start..r.pos])
  }

  /** The step hands over a batch while event `e` is after the cursor and stands where the batch was read. */
  predicate Reads(w: World, a: Action, e: nat) {
    HandsOver(w, a) && e > w.cursor && StoodIn(w, ReadBy(w), e)
  }

  predicate EverRead(acts: seq<Action>, e: nat) {
    acts != [] && (EverRead(acts[..|acts| - 1], e) || Reads(Run(acts[..|acts| - 1]), acts[|acts| - 1], e))
  }

  /** The step moves the cursor to or past event `e`, which does not stand where the batch was read. */
  predicate Passes(w: World, a: Action, e: nat)
    requires Collected(w)
  {
    HandsOver(w, a) && w.cursor < e <= Act(w, a).cursor && !StoodIn(w, ReadBy(w), e)
  }

  /** Some step passed the event before any batch was read where it stood. */
  predicate PassedOver(acts: seq<Action>, e: nat) {
    acts != [] &&
    var front := acts[..|acts| - 1];
    PassedOver(front, e) || (Passes(Run(front), acts[|acts| - 1], e) && !EverRead(front, e))
  }

  lemma CursorGrows(w: World, a: Action)
    requires Inv(w)
    ensures Act(w, a).cursor >= w.cursor
    ensures forall e :: e in Act(w, a).log <==> e in w.log || Reads(w, a, e)
  {
    StepEffect(w, a);
    if HandsOver(w, a) {
      var batch := Batch(w, ReadBy(w));
      BatchIsLater(w, ReadBy(w));
      ReadsAreLater(w);
      assert batch[|batch| - 1] in batch;
    }
  }

  lemma ReadsAreLater(w: World)
    requires Inv(w)
    ensures var r := ReadBy(w); forall e :: r.pos <= |w.sent| && e in w.sent[r.start..r.pos] ==> e > w.cursor
  {
    var r := ReadBy(w);
    forall e | e in w.sent[r.start..r.pos] ensures e > w.cursor {
      var k := PositionOf(w.sent, r.start, r.pos, e);
    }
  }

  /** Over every run the client has an event if and only if some batch was handed over, with the event after the cursor,
      that was read where the event stood: in the ring at the drain, or among the broadcasts received. */
  lemma {:induction false} DeliveredIff(acts: seq<Action>, e: nat)
    ensures e in Run(acts).log <==> EverRead(acts, e)
  {
    if acts != [] {
      var front := acts[..|acts| - 1];
      DeliveredIff(front, e);
      RunKeepsInv(front);
      CursorGrows(Run(front), acts[|acts| - 1]);
    }
  }

  /** Over every run an event up to the cursor is missing from the client's log if and only if some batch moved the
      cursor past it while it did not stand where that batch, or any before it, was read. */
  lemma {:induction false} LostIff(acts: seq<Action>, e: nat)
    requires 1 <= e <= Run(acts).cursor
    ensures e !in Run(acts).log <==> PassedOver(acts, e)
  {
    if acts != [] {
      var front, a := acts[..|acts| - 1], acts[|acts| - 1];
      RunKeepsInv(front);
      StepEffect(Run(front), a);
      CursorGrows(Run(front), a);
      DeliveredIff(front, e);
      if e <= Run(front).cursor {
        LostIff(front, e);
      } else {
        NotPassedYet(front, e);
      }
    }
  }

  lemma {:induction false} NotPassedYet(acts: seq<Action>, e: nat)
    requires e > Run(acts).cursor
    ensures !PassedOver(acts, e)
  {
    if acts != [] {
      RunKeepsInv(acts[..|acts| - 1]);
      CursorGrows(Run(acts[..|acts| - 1]), acts[|acts| - 1]);
      NotPassedYet(acts[..|acts| - 1], e);
    }
  }

  /** What the cursor has passed is never delivered later. */
  lemma {:induction false} LostForEver(acts: seq<Action>, more: seq<Action>, e: nat)
    requires 1 <= e <= Run(acts).cursor && e !in Run(acts).log
    ensures e <= Run(acts + more).cursor && e !in Run(acts + more).log
  {
    if more == [] {
      assert acts + more == acts;
    } else {
      var front, a := more[..|more| - 1], more[|more| - 1];
      LostForEver(acts, front, e);
      assert acts + more == (acts + front) + [a];
      RunSnoc(acts + front, a);
      RunKeepsInv(acts + front);
      CursorGrows(Run(acts + front), a);
    }
  }
}
