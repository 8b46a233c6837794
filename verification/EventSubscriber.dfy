/** The daemon's event bus, one call of the long-poll, and the subscriber's loop around it. What the emitters do while
    a call is suspended is given; everything else follows from it. */
module EventSubscriber {
  import opened Arith
  import opened EventOrder
  import opened EventPoll
  import opened EventEmission

  // ---- What a call does, given what the emitters do ----

  type Emission = a: Action | a.Number? || a.Push? || a.Send? witness Number

  /** What the emitters do while the call is suspended, and whether its timer fires then. */
  datatype Tick = Tick(emissions: seq<Emission>, expired: bool)

  function RunFrom(w: World, acts: seq<Action>): (w': World)
    requires Collected(w)
    ensures Collected(w')
  {
    if acts == [] then w else Act(RunFrom(w, acts[..|acts| - 1]), acts[|acts| - 1])
  }

  lemma RunFromSnoc(w: World, acts: seq<Action>, a: Action)
    requires Collected(w)
    ensures RunFrom(w, acts + [a]) == Act(RunFrom(w, acts), a)
  {
    assert (acts + [a])[..|acts|] == acts;
  }

  lemma {:induction false} RunFromConcat(w: World, a: seq<Action>, b: seq<Action>)
    requires Collected(w)
    ensures RunFrom(w, a + b) == RunFrom(RunFrom(w, a), b)
  {
    if b == [] {
      assert a + b == a;
    } else {
      assert a + b == (a + b[..|b| - 1]) + [b[|b| - 1]];
      RunFromConcat(w, a, b[..|b| - 1]);
      RunFromSnoc(w, a + b[..|b| - 1], b[|b| - 1]);
    }
  }

  lemma {:induction false} RunFromStart(acts: seq<Action>)
    ensures RunFrom(INITIALLY, acts) == Run(acts)
  {
    if acts != [] {
      RunFromStart(acts[..|acts| - 1]);
    }
  }

  lemma RunConcat(a: seq<Action>, b: seq<Action>)
    ensures Run(a + b) == RunFrom(Run(a), b)
  {
    RunFromStart(a);
    RunFromStart(a + b);
    RunFromConcat(INITIALLY, a, b);
  }

  /** Emissions leave the client alone. */
  lemma {:induction false} EmissionsOnly(w: World, es: seq<Emission>)
    requires Collected(w)
    ensures var w' := RunFrom(w, es); w'.cursor == w.cursor && w'.log == w.log && w'.phase == w.phase
  {
    if es != [] {
      EmissionsOnly(w, es[..|es| - 1]);
    }
  }

  function EmissionsOf(env: seq<Tick>): seq<Emission> { if env == [] then [] else env[0].emissions }

  function Later(env: seq<Tick>): seq<Tick> { if env == [] then [] else env[1..] }

  /** What the call itself does next: after its drain it waits, and each time it wakes it looks at the channel or gives
      up. When `env` has run out its timer fires. */
  function NextStep(w: World, env: seq<Tick>): Action
    requires !w.phase.Idle?
  {
    match w.phase
    case Waiting(_) => if env == [] || env[0].expired then Timeout else Receive
    case Coalescing(_, _, _, _) => if env == [] || env[0].expired then Deliver else Receive
    case _ => DrainRing
  }

  /** All steps of a call from state `w` on. */
  function Serve(w: World, env: seq<Tick>): seq<Action>
    requires Collected(w)
    decreases |env|, Stage(w.phase)
  {
    if w.phase.Idle? then []
    else
      EmissionsOnly(w, EmissionsOf(env));
      var step := EmissionsOf(env) + [NextStep(w, env)];
      RunFromSnoc(w, EmissionsOf(env), NextStep(w, env));
      step + Serve(RunFrom(w, step), Later(env))
  }

  function Stage(p: Phase): nat {
    match p
    case Idle => 0
    case Waiting(_) => 1
    case Coalescing(_, _, _, _) => 1
    case _ => 2
  }

  /** The state in which a call ends. */
  function Served(w: World, env: seq<Tick>): World
    requires Collected(w)
  {
    RunFrom(w, Serve(w, env))
  }

  /** One step does not change how the call ends. */
  lemma ServedStep(w: World, env: seq<Tick>)
    requires Collected(w) && !w.phase.Idle?
    ensures Served(w, env) == Served(Act(RunFrom(w, EmissionsOf(env)), NextStep(w, env)), Later(env))
  {
    var step := EmissionsOf(env) + [NextStep(w, env)];
    RunFromSnoc(w, EmissionsOf(env), NextStep(w, env));
    RunFromConcat(w, step, Serve(RunFrom(w, step), Later(env)));
  }

  lemma {:induction false} ServedIsIdle(w: World, env: seq<Tick>)
    requires Collected(w)
    ensures Served(w, env).phase.Idle?
    decreases |env|, Stage(w.phase)
  {
    if !w.phase.Idle? {
      ServedStep(w, env);
      EmissionsOnly(w, EmissionsOf(env));
      ServedIsIdle(Act(RunFrom(w, EmissionsOf(env)), NextStep(w, env)), Later(env));
    }
  }

  /** A call that finds unread events in the ring hands over all of them at once, in ring order. */
  lemma UnreadAtOnce(w: World, env: seq<Tick>)
    requires w.phase.Idle? && Unread(RunFrom(w, EmissionsOf(env))) != []
    ensures Served(Act(w, Call), env) == HandOver(RunFrom(w, EmissionsOf(env)), Unread(RunFrom(w, EmissionsOf(env))))
  {
    var called := Act(w, Call);
    ServedStep(called, env);
    CallFirst(w, EmissionsOf(env));
    EmissionsOnly(w, EmissionsOf(env));
  }

  /** Taking a receiver before the emissions or after them makes no difference to the ring and the channel. */
  lemma {:induction false} CallFirst(w: World, es: seq<Emission>)
    requires w.phase.Idle?
    ensures RunFrom(Act(w, Call), es) == RunFrom(w, es).(phase := Subscribed(|w.sent|))
  {
    EmissionsOnly(w, es);
    if es != [] {
      EmissionsOnly(w, es[..|es| - 1]);
      CallFirst(w, es[..|es| - 1]);
    }
  }

  /** After a call during which nothing is emitted, a client that was served in order has caught up. */
  lemma QuietCallCatchesUp(w: World)
    requires Inv(w) && InNumberOrder(w) && w.phase.Idle?
    ensures Served(Act(w, Call), []).cursor == |w.appended|
  {
    OrderedSizes(w);
    OrderedUnread(w);
    assert RunFrom(w, EmissionsOf([])) == w;
    if Unread(w) != [] {
      UnreadAtOnce(w, []);
    } else {
      ServedStep(Act(w, Call), []);
      QuietWait(w.(phase := Waiting(|w.sent|)));
    }
  }

  lemma QuietWait(w: World)
    requires w.phase.Waiting?
    ensures Served(w, []) == w.(phase := Idle)
  {
    ServedStep(w, []);
  }

  // ---- What a call finds ----

  lemma IdleIsServed(w: World, env: seq<Tick>)
    requires Collected(w) && w.phase.Idle?
    ensures Served(w, env) == w
  {
  }

  /** A batch is being collected. */
  ghost predicate Collecting(w: World, pos: nat, collected: seq<nat>) {
    w.phase.Coalescing? && w.phase.pos == pos && w.phase.collected == collected && collected != []
  }

  /** What a waiting call makes of the channel. */
  lemma Looks(w: World, pos: nat)
    requires Collected(w) && w.phase == Waiting(pos)
    ensures var w' := Act(w, Receive);
            && w' == w.(phase := w'.phase)
            && if |w.sent| <= pos then w' == w
               else if |w.sent| - pos > 256 then w'.phase == Resubscribed(|w.sent|)
               else if w.sent[pos] > w.cursor then Collecting(w', pos + 1, [w.sent[pos]])
               else w'.phase == Waiting(pos + 1)
  {
  }

  /** What a collecting call makes of the channel. */
  lemma LooksAgain(w: World, pos: nat, collected: seq<nat>)
    requires Collected(w) && Collecting(w, pos, collected)
    ensures var w' := Act(w, Receive);
            if |w.sent| <= pos then w' == w
            else if |w.sent| - pos > 256 || w.sent[pos] <= w.cursor then w' == HandOver(w, collected)
            else w' == w.(phase := w'.phase) && Collecting(w', pos + 1, collected + [w.sent[pos]])
  {
  }

  /** What a call makes of the ring: it goes on from where its receiver was taken. */
  lemma Drains(w: World, pos: nat)
    requires Collected(w) && (w.phase == Subscribed(pos) || w.phase == Resubscribed(pos))
    ensures var w' := Act(w, DrainRing);
            if Unread(w) == [] then w' == w.(phase := Waiting(pos))
            else if w.phase.Subscribed? then w' == HandOver(w, Unread(w))
            else w' == w.(phase := w'.phase) && Collecting(w', pos, Unread(w))
  {
  }

  /** Whatever comes later, a batch that is being collected is handed over, perhaps with more events behind it. */
  lemma {:induction false} CollectedIsDelivered(w: World, env: seq<Tick>)
    requires w.phase.Coalescing? && w.phase.collected != []
    ensures w.log + w.phase.collected <= Served(w, env).log
    decreases |env|
  {
    ServedStep(w, env);
    EmissionsOnly(w, EmissionsOf(env));
    var w' := RunFrom(w, EmissionsOf(env));
    var next := Act(w', NextStep(w, env));
    if env == [] || env[0].expired {
      IdleIsServed(next, Later(env));
    } else {
      LooksAgain(w', w.phase.pos, w.phase.collected);
      if next.phase.Idle? {
        IdleIsServed(next, env[1..]);
      } else {
        CollectedIsDelivered(next, env[1..]);
      }
    }
  }

  /** An event that is broadcast after the call has taken its receiver, and is the first one, wakes it even if the
      broadcast came before the drain, which found nothing: the call answers with this event in front. */
  lemma FirstBroadcastIsDelivered(w: World, env: seq<Tick>)
    requires Collected(w) && w.phase.Idle? && |env| >= 2 && !env[1].expired
    requires Unread(RunFrom(w, env[0].emissions)) == []
    requires var sent := RunFrom(RunFrom(w, env[0].emissions), env[1].emissions).sent;
             |w.sent| < |sent| <= |w.sent| + 256 && sent[|w.sent|] > w.cursor
    ensures var sent := RunFrom(RunFrom(w, env[0].emissions), env[1].emissions).sent;
            w.log + [sent[|w.sent|]] <= Served(Act(w, Call), env).log
  {
    var w1 := RunFrom(w, env[0].emissions);
    var w2 := RunFrom(w1, env[1].emissions);
    EmissionsOnly(w, env[0].emissions);
    EmissionsOnly(w1, env[1].emissions);
    WaitsFromTheCall(w, env);
    var pos, rest := |w.sent|, env[1..];
    SettleWaiting(w1, rest, pos);
    var waiting := w2.(phase := Waiting(pos));
    Looks(waiting, pos);
    CollectedIsDelivered(Act(waiting, Receive), rest[1..]);
  }

  /** A call that finds nothing in the ring waits for all that is broadcast after it was made. */
  lemma WaitsFromTheCall(w: World, env: seq<Tick>)
    requires Collected(w) && w.phase.Idle? && env != [] && Unread(RunFrom(w, env[0].emissions)) == []
    ensures Served(Act(w, Call), env) == Served(RunFrom(w, env[0].emissions).(phase := Waiting(|w.sent|)), env[1..])
  {
    var called := Act(w, Call);
    ServedStep(called, env);
    CallFirst(w, env[0].emissions);
    EmissionsOnly(w, env[0].emissions);
    Drains(RunFrom(called, env[0].emissions), |w.sent|);
  }

  /** The next look of a waiting call. */
  lemma SettleWaiting(w: World, env: seq<Tick>, pos: nat)
    requires w.phase.Idle? && env != [] && !env[0].expired
    ensures Served(w.(phase := Waiting(pos)), env)
         == Served(Act(RunFrom(w, env[0].emissions).(phase := Waiting(pos)), Receive), env[1..])
  {
    ServedStep(w.(phase := Waiting(pos)), env);
    EmissionsElsewhere(w, Waiting(pos), env[0].emissions);
  }

  /** Emissions do not depend on where the call stands. */
  lemma {:induction false} EmissionsElsewhere(w: World, phase: Phase, es: seq<Emission>)
    requires Collected(w) && !phase.Coalescing?
    ensures RunFrom(w.(phase := phase), es) == RunFrom(w, es).(phase := phase)
  {
    if es != [] {
      EmissionsElsewhere(w, phase, es[..|es| - 1]);
    }
  }

  // ---- The bus ----

  /** The bus. The orders of all appends and broadcasts also tell how far each emitter has got with its event. */
  class EventBus {
    var numbered: nat
    var ring: seq<nat>
    var appended: seq<nat>
    var sent: seq<nat>

    ghost predicate Valid()
      reads this
    {
      ring == Ring(appended)
    }

    /** The emitters' side of a state of the step system. */
    ghost predicate Matches(w: World)
      reads this
    {
      Valid() && Collected(w) && w.numbered == numbered && w.appended == appended && w.sent == sent
    }

    constructor ()
      ensures Valid() && numbered == 0 && appended == [] && sent == []
    {
      numbered, ring, appended, sent := 0, [], [], [];
    }

    /** The part of an emission under the ring lock. */
    method PushEvent(e: nat)
      requires Valid()
      modifies this`ring, this`appended
      ensures Valid() && appended == old(appended) + [e]
    {
      if |ring| >= RING_CAP {
        ring := ring[1..];
      }
      ring := ring + [e];
      appended := appended + [e];
    }

    /** One step of some emitter: it takes a number, appends its event or broadcasts it. */
    method Emit(em: Emission, ghost w: World)
      requires Matches(w)
      modifies this
      ensures Matches(Act(w, em))
    {
      match em
      case Number => numbered := numbered + 1;
      case Push(e) =>
        if 1 <= e <= numbered && e !in appended {
          PushEvent(e);
        }
      case Send(e) =>
        if e in appended && e !in sent {
          sent := sent + [e];
        }
    }

    /** The emitters' steps while the call is suspended. */
    method EmitAll(es: seq<Emission>, ghost w: World)
      requires Matches(w)
      modifies this
      ensures Matches(RunFrom(w, es))
    {
      assert es[..0] == [];
      for i := 0 to |es|
        invariant Matches(RunFrom(w, es[..i]))
      {
        assert es[..i + 1][..i] == es[..i];
        Emit(es[i], RunFrom(w, es[..i]));
      }
      assert es[..|es|] == es;
    }

    /** The drain of the ring. */
    method History(after: nat) returns (history: seq<nat>)
      requires Valid()
      ensures history == After(Ring(appended), after)
    {
      history := [];
      assert ring[..0] == [];
      for i := 0 to |ring|
        invariant history == After(ring[..i], after)
      {
        assert ring[..i + 1][..i] == ring[..i];
        if ring[i] > after {
          history := history + [ring[i]];
        }
      }
      assert ring[..|ring|] == ring;
    }
  }

  // ---- The loops of the source ----

  /** The state of the step system describes the bus and a call with this cursor and log. */
  ghost predicate Describes(w: World, bus: EventBus, after: nat, log: seq<nat>)
    reads bus
  {
    bus.Matches(w) && w.cursor == after && w.log == log
  }

  /** The call has ended and handed over this batch, or none when it is empty. */
  ghost predicate HandedOver(w: World, bus: EventBus, after: nat, log: seq<nat>, batch: seq<nat>)
    reads bus
  {
    w.phase.Idle? && Describes(w, bus, if batch == [] then after else batch[|batch| - 1], log + batch)
  }

  /** The call is suspended while the emitters go on. */
  method Suspend(bus: EventBus, after: nat, env: seq<Tick>, ghost w: World) returns (ghost w': World)
    requires Describes(w, bus, after, w.log) && !w.phase.Idle?
    modifies bus
    ensures Describes(w', bus, after, w.log) && w'.phase == w.phase && w' == RunFrom(w, EmissionsOf(env))
    ensures Served(w, env) == Served(Act(w', NextStep(w, env)), Later(env))
  {
    ServedStep(w, env);
    EmissionsOnly(w, EmissionsOf(env));
    bus.EmitAll(EmissionsOf(env), w);
    w' := RunFrom(w, EmissionsOf(env));
  }

  /** One call of the long poll. For every behaviour of the emitters it ends in the state that the step system
      prescribes, with the batch handed over there. */
  method NextPaneEvent(bus: EventBus, after: nat, env: seq<Tick>, ghost w0: World) returns (batch: seq<nat>)
    requires Describes(w0, bus, after, w0.log) && w0.phase.Idle?
    modifies bus
    ensures HandedOver(Served(Act(w0, Call), env), bus, after, w0.log, batch)
  {
    var history, pos, collected, rest;
    ghost var w;
    history, pos, w := CallAndDrain(bus, after, env, w0);
    if history != [] {
      return history;
    }
    collected, pos, rest, w := AwaitFirst(bus, after, pos, Later(env), w);
    if collected == [] {
      assert w0.log + [] == w0.log;
      return [];
    }
    batch := Coalesce(bus, after, pos, collected, rest, w);
  }

  /** Take a receiver, then look in the ring. */
  method CallAndDrain(bus: EventBus, after: nat, env: seq<Tick>, ghost w0: World)
    returns (history: seq<nat>, pos: nat, ghost w: World)
    requires Describes(w0, bus, after, w0.log) && w0.phase.Idle?
    modifies bus
    ensures history != [] ==> HandedOver(Served(Act(w0, Call), env), bus, after, w0.log, history)
    ensures history == [] ==>
              && Describes(w, bus, after, w0.log) && w.phase == Waiting(pos)
              && Served(w, Later(env)) == Served(Act(w0, Call), env)
  {
    pos := |bus.sent|;
    w := Suspend(bus, after, env, Act(w0, Call));
    history, w := DrainNow(bus, after, pos, w);
    if history != [] {
      IdleIsServed(w, Later(env));
    }
  }

  method DrainNow(bus: EventBus, after: nat, pos: nat, ghost w0: World) returns (history: seq<nat>, ghost w: World)
    requires Describes(w0, bus, after, w0.log) && w0.phase == Subscribed(pos)
    ensures w == Act(w0, DrainRing)
    ensures if history != [] then HandedOver(w, bus, after, w0.log, history)
            else Describes(w, bus, after, w0.log) && w.phase == Waiting(pos)
  {
    history := bus.History(after);
    w := Act(w0, DrainRing);
  }

  /** Wait for the first event after the cursor; after a lag, take a new receiver and look in the ring. */
  method AwaitFirst(bus: EventBus, after: nat, start: nat, env: seq<Tick>, ghost w0: World)
    returns (collected: seq<nat>, pos: nat, rest: seq<Tick>, ghost w: World)
    requires Describes(w0, bus, after, w0.log) && w0.phase == Waiting(start)
    modifies bus
    ensures Describes(w, bus, after, w0.log) && Served(w, rest) == Served(w0, env)
    ensures if collected == [] then w == Served(w0, env) && w.phase.Idle? else Collecting(w, pos, collected)
  {
    collected, pos, rest, w := [], start, env, w0;
    while collected == []
      invariant Described(w, bus, after, w0.log, pos, collected) && Served(w, rest) == Served(w0, env)
      decreases |rest| + if collected == [] then 1 else 0
    {
      if rest == [] || rest[0].expired {
        w := GiveUp(bus, after, rest, w);
        rest := Later(rest);
        return;
      }
      collected, pos, rest, w := Wake(bus, after, pos, rest, w);
    }
  }

  /** The timer fires. */
  method GiveUp(bus: EventBus, after: nat, env: seq<Tick>, ghost w0: World) returns (ghost w: World)
    requires Describes(w0, bus, after, w0.log) && w0.phase.Waiting? && (env == [] || env[0].expired)
    modifies bus
    ensures Describes(w, bus, after, w0.log) && w.phase.Idle?
    ensures w == Served(w0, env) == Served(w, Later(env))
  {
    w := Suspend(bus, after, env, w0);
    w := Act(w, Timeout);
    IdleIsServed(w, Later(env));
  }

  /** The call waits, or has begun to collect. */
  ghost predicate Described(w: World, bus: EventBus, after: nat, log: seq<nat>, pos: nat, collected: seq<nat>)
    reads bus
  {
    && Describes(w, bus, after, log)
    && if collected == [] then w.phase == Waiting(pos) else Collecting(w, pos, collected)
  }

  /** The body of the loop, when the call is woken by the channel. */
  method Wake(bus: EventBus, after: nat, start: nat, env: seq<Tick>, ghost w0: World)
    returns (collected: seq<nat>, pos: nat, rest: seq<Tick>, ghost w: World)
    requires Describes(w0, bus, after, w0.log) && w0.phase == Waiting(start) && env != [] && !env[0].expired
    modifies bus
    ensures Described(w, bus, after, w0.log, pos, collected)
    ensures Served(w, rest) == Served(w0, env) && |rest| < |env|
  {
    collected, pos, rest := [], start, env[1..];
    w := Suspend(bus, after, env, w0);
    Looks(w, pos);
    w := Act(w, Receive);
    if |bus.sent| > pos {
      if |bus.sent| - pos > RING_CAP {
        collected, pos, rest, w := Recover(bus, after, rest, w);
      } else {
        var e := bus.sent[pos];
        pos := pos + 1;
        if e > after {
          collected := [e];
        }
      }
    }
  }

  /** The lagged arm: a new receiver has been taken; emissions may go on until the ring is drained. */
  method Recover(bus: EventBus, after: nat, env: seq<Tick>, ghost w0: World)
    returns (missed: seq<nat>, pos: nat, rest: seq<Tick>, ghost w: World)
    requires Describes(w0, bus, after, w0.log) && w0.phase == Resubscribed(|bus.sent|)
    modifies bus
    ensures Described(w, bus, after, w0.log, pos, missed)
    ensures Served(w, rest) == Served(w0, env) && |rest| <= |env|
  {
    pos, rest := |bus.sent|, Later(env);
    w := Suspend(bus, after, env, w0);
    missed := bus.History(after);
    w := Act(w, DrainRing);
  }

  /** Add the events that arrive until the short timer fires; a lag or a stale event ends the batch. */
  method Coalesce(bus: EventBus, after: nat, start: nat, first: seq<nat>, env: seq<Tick>, ghost w0: World)
    returns (collected: seq<nat>)
    requires Describes(w0, bus, after, w0.log) && Collecting(w0, start, first)
    modifies bus
    ensures collected != [] && HandedOver(Served(w0, env), bus, after, w0.log, collected)
  {
    var pos: nat, rest, done := start, env, false;
    ghost var w := w0;
    collected := first;
    while rest != [] && !rest[0].expired
      invariant collected != [] && Described(w, bus, after, w0.log, pos, collected)
      invariant Served(w, rest) == Served(w0, env)
      decreases |rest|
    {
      collected, pos, rest, done, w := Extend(bus, after, pos, collected, rest, w);
      if done {
        IdleIsServed(w, rest);
        return;
      }
    }
    Finish(bus, after, collected, pos, rest, w);
  }

  /** The short timer fires. */
  method Finish(bus: EventBus, after: nat, collected: seq<nat>, pos: nat, env: seq<Tick>, ghost w0: World)
    requires Describes(w0, bus, after, w0.log) && Collecting(w0, pos, collected) && (env == [] || env[0].expired)
    modifies bus
    ensures HandedOver(Served(w0, env), bus, after, w0.log, collected)
  {
    ghost var w := Suspend(bus, after, env, w0);
    w := Act(w, Deliver);
    IdleIsServed(w, Later(env));
  }

  /** The body of the loop, when something arrives before the short timer fires. */
  method Extend(bus: EventBus, after: nat, start: nat, first: seq<nat>, env: seq<Tick>, ghost w0: World)
    returns (collected: seq<nat>, pos: nat, rest: seq<Tick>, done: bool, ghost w: World)
    requires Describes(w0, bus, after, w0.log) && Collecting(w0, start, first) && env != [] && !env[0].expired
    modifies bus
    ensures collected != [] && rest == env[1..]
    ensures if done then HandedOver(w, bus, after, w0.log, collected)
            else Described(w, bus, after, w0.log, pos, collected)
    ensures Served(w, rest) == Served(w0, env)
  {
    collected, pos, rest, done := first, start, env[1..], false;
    assert NextStep(w0, env) == Receive;
    w := Suspend(bus, after, env, w0);
    ghost var suspended := w;
    collected, pos, done, w := Take(bus, after, pos, collected, suspended);
  }

  /** Add the next event to the batch, unless the receiver has lagged or the event is stale. */
  method Take(bus: EventBus, after: nat, start: nat, first: seq<nat>, ghost w0: World)
    returns (collected: seq<nat>, pos: nat, done: bool, ghost w: World)
    requires Describes(w0, bus, after, w0.log) && Collecting(w0, start, first)
    ensures w == Act(w0, Receive) && collected != []
    ensures if done then HandedOver(w, bus, after, w0.log, collected)
            else Described(w, bus, after, w0.log, pos, collected)
  {
    collected, pos, done := first, start, false;
    LooksAgain(w0, pos, collected);
    w := Act(w0, Receive);
    if |bus.sent| > pos {
      if |bus.sent| - pos > RING_CAP || bus.sent[pos] <= after {
        done := true;
      } else {
        collected, pos := collected + [bus.sent[pos]], pos + 1;
      }
    }
  }

  // ---- The subscriber ----

  /** Whether the subscriber's call is answered, cannot be made, or fails on the way. */
  datatype Fate = Answered | Unreachable | Failed

  /** One turn of the subscriber: what the emitters do before it, how it goes, and what they do meanwhile. */
  datatype Turn = Turn(before: seq<Emission>, fate: Fate, env: seq<Tick>)

  function AllEmissions(env: seq<Tick>): seq<Emission> {
    if env == [] then [] else env[0].emissions + AllEmissions(env[1..])
  }

  function TurnSteps(w: World, t: Turn): seq<Action>
    requires Collected(w) && w.phase.Idle?
  {
    match t.fate
    case Unreachable => t.before
    case Failed => t.before + [Call] + AllEmissions(t.env) + [Abort]
    case Answered => t.before + [Call] + Serve(RunFrom(w, t.before + [Call]), t.env)
  }

  /** All steps of a subscription. */
  function Session(turns: seq<Turn>): (acts: seq<Action>)
    ensures Run(acts).phase.Idle?
  {
    if turns == [] then []
    else
      var front := Session(turns[..|turns| - 1]);
      TurnEnds(front, turns[|turns| - 1]);
      front + TurnSteps(Run(front), turns[|turns| - 1])
  }

  lemma TurnEnds(acts: seq<Action>, t: Turn)
    requires Run(acts).phase.Idle?
    ensures Run(acts + TurnSteps(Run(acts), t)).phase.Idle?
    ensures t.fate.Unreachable? ==> Run(acts + TurnSteps(Run(acts), t)) == RunFrom(Run(acts), t.before)
    ensures t.fate.Answered? ==>
              Run(acts + TurnSteps(Run(acts), t)) == Served(Act(RunFrom(Run(acts), t.before), Call), t.env)
    ensures t.fate.Failed? ==>
              Run(acts + TurnSteps(Run(acts), t))
                == RunFrom(RunFrom(Run(acts), t.before), AllEmissions(t.env))
  {
    var w := Run(acts);
    var ready := RunFrom(w, t.before);
    EmissionsOnly(w, t.before);
    RunConcat(acts, TurnSteps(w, t));
    RunFromSnoc(w, t.before, Call);
    match t.fate
    case Unreachable =>
    case Answered =>
      RunFromConcat(w, t.before + [Call], Serve(RunFrom(w, t.before + [Call]), t.env));
      ServedIsIdle(Act(ready, Call), t.env);
    case Failed =>
      var all := AllEmissions(t.env);
      RunFromConcat(w, t.before + [Call], all);
      RunFromSnoc(w, t.before + [Call] + all, Abort);
      CallFirst(ready, all);
      EmissionsOnly(ready, all);
  }

  /** The waiting time after `failures` failed turns in a row. */
  function Backoff(failures: nat): nat { if failures == 0 then 100 else Min(2 * Backoff(failures - 1), 5_000) }

  function FailedInARow(turns: seq<Turn>): nat {
    if turns == [] || turns[|turns| - 1].fate.Answered? then 0 else 1 + FailedInARow(turns[..|turns| - 1])
  }

  /** It starts at 100 ms, doubles with each failure and stays at 5 s. */
  lemma {:induction false} BackoffLaw(n: nat)
    ensures Backoff(n) == if n < 6 then [100, 200, 400, 800, 1600, 3200][n] else 5_000
  {
    if n > 0 {
      BackoffLaw(n - 1);
    }
  }

  /** The last turn was answered, or failed and followed all those that failed just before it. */
  lemma {:induction false} FailuresLaw(turns: seq<Turn>, n: nat)
    ensures FailedInARow(turns) >= n
       <==> n <= |turns| && forall k :: |turns| - n <= k < |turns| ==> !turns[k].fate.Answered?
  {
    if n > 0 && turns != [] {
      FailuresLaw(turns[..|turns| - 1], n - 1);
    }
  }

  lemma NextBackoff(turns: seq<Turn>, t: Turn)
    ensures Backoff(FailedInARow(turns + [t]))
         == if t.fate.Answered? then 100 else Min(Backoff(FailedInARow(turns)) * 2, 5_000)
  {
    assert (turns + [t])[..|turns|] == turns;
  }

  /** Turn by turn: a call that cannot be made does nothing, one that fails on the way loses its batch and leaves the
      client as it was, and one that is answered starts from the client's cursor. */
  lemma SessionLaw(turns: seq<Turn>, t: Turn)
    ensures var w, w' := RunFrom(Run(Session(turns)), t.before), Run(Session(turns + [t]));
            match t.fate
            case Unreachable => w' == w
            case Answered => w' == Served(Act(w, Call), t.env)
            case Failed => w' == RunFrom(w, AllEmissions(t.env)) && w'.log == w.log && w'.cursor == w.cursor
  {
    assert (turns + [t])[..|turns|] == turns;
    TurnEnds(Session(turns), t);
    EmissionsOnly(RunFrom(Run(Session(turns)), t.before), AllEmissions(t.env));
  }

  /** The subscriber's loop from cursor 0. For every behaviour of the emitters and every sequence of failures it holds
      what the step system delivers, and it waits 100 ms, twice as long after each failure in a row up to 5 s. */
  method SubscribeLoop(turns: seq<Turn>) returns (log: seq<nat>, cursor: nat, backoffMs: nat)
    ensures log == Run(Session(turns)).log && cursor == Run(Session(turns)).cursor
    ensures backoffMs == Backoff(FailedInARow(turns))
    ensures log == Range(0, cursor) <==> Faultless(Session(turns))
    ensures StrictlyIncreasing(log) <==> Ascending(Session(turns))
  {
    var bus := new EventBus();
    log, cursor, backoffMs := [], 0, 100;
    assert turns[..0] == [];
    for k := 0 to |turns|
      invariant fresh(bus) && Describes(Run(Session(turns[..k])), bus, cursor, log)
      invariant backoffMs == Backoff(FailedInARow(turns[..k]))
    {
      NextTurn(turns, k);
      log, cursor := OneTurn(bus, log, cursor, turns[..k], turns[k]);
      NextBackoff(turns[..k], turns[k]);
      backoffMs := if turns[k].fate.Answered? then 100 else Min(backoffMs * 2, 5_000);
    }
    assert turns[..|turns|] == turns;
    ExactlyThePrefix(Session(turns));
    EventPoll.IncreasingIff(Session(turns));
  }

  lemma NextTurn(turns: seq<Turn>, k: nat)
    requires k < |turns|
    ensures turns[..k + 1] == turns[..k] + [turns[k]]
  {
  }

  /** The body of the loop, with the emissions before it. */
  method OneTurn(bus: EventBus, log: seq<nat>, cursor: nat, ghost before: seq<Turn>, t: Turn)
    returns (log': seq<nat>, cursor': nat)
    requires Describes(Run(Session(before)), bus, cursor, log)
    modifies bus
    ensures Describes(Run(Session(before + [t])), bus, cursor', log')
  {
    assert (before + [t])[..|before|] == before;
    ghost var acts := Session(before);
    TurnEnds(acts, t);
    EmissionsOnly(Run(acts), t.before);
    bus.EmitAll(t.before, Run(acts));
    log', cursor' := TakeTurn(bus, log, cursor, t, RunFrom(Run(acts), t.before));
  }

  /** The body of the loop, after the emissions before it: a batch moves the cursor to its last event. */
  method TakeTurn(bus: EventBus, log: seq<nat>, cursor: nat, t: Turn, ghost w: World)
    returns (log': seq<nat>, cursor': nat)
    requires Describes(w, bus, cursor, log) && w.phase.Idle?
    modifies bus
    ensures t.fate.Unreachable? ==> Describes(w, bus, cursor', log')
    ensures t.fate.Answered? ==> Describes(Served(Act(w, Call), t.env), bus, cursor', log')
    ensures t.fate.Failed? ==> Describes(RunFrom(w, AllEmissions(t.env)), bus, cursor', log')
  {
    log', cursor' := log, cursor;
    match t.fate
    case Unreachable =>
    case Failed =>
      EmissionsOnly(w, AllEmissions(t.env));
      bus.EmitAll(AllEmissions(t.env), w);
    case Answered =>
      var events := NextPaneEvent(bus, cursor, t.env, w);
      if events != [] {
        cursor' := events[|events| - 1];
      }
      log' := log + events;
  }
}
