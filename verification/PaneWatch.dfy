/** The lifecycle state of a pane: the rules that derive it, the watch channel that publishes it, and the call that
    waits for it. Times are in milliseconds of a monotone clock. */
module PaneWatch {
  import opened Arith

  datatype Kind = Running | WaitingInput | Idle | Interactive | Crashed | Done

  datatype Marker = A | B | C | D(exit: Option<int>)

  /** What the foreground command's base name is listed as. */
  datatype Program = FullScreen | ShellProgram | OtherProgram

  datatype Agent = UnknownAgent | ShellAgent | CodingAgent

  const AGENT_IDLE_SECS: nat := 15

  /** `watch` is the value in the channel; `version` counts the values sent. */
  datatype Tracker = Tracker(
    state: Kind,
    lastOutputAt: int,
    lastMarker: Option<Marker>,
    lastDAt: Option<int>,
    foreground: Program,
    agent: Agent,
    seen: bool,
    rootPid: nat,
    override: Option<(Kind, int)>,
    watch: Kind,
    version: nat)

  function NewTracker(rootPid: nat, now: int): Tracker {
    Tracker(Running, now, None, None, OtherProgram, UnknownAgent, true, rootPid, None, Running, 0)
  }

  function Marked(t: Tracker, m: Marker, now: int): Tracker {
    t.(lastDAt := if m.D? then Some(now) else t.lastDAt, lastMarker := Some(m))
  }

  function WithOverride(t: Tracker, k: Kind, secs: nat, now: int): Tracker {
    t.(override := Some((k, now + 1000 * secs)))
  }

  predicate Overridden(t: Tracker, now: int) {
    t.override.Some? && now < t.override.value.1
  }

  /** The rules in order of priority, for a tracker without an override in force. */
  function Verdict(t: Tracker, now: int, pidAlive: bool): Kind {
    if t.rootPid > 0 && !pidAlive then
      match t.lastMarker
      case Some(D(Some(code))) => if code != 0 then Crashed else Done
      case _ => Done
    else if t.foreground == FullScreen then Interactive
    else if (t.lastMarker == Some(A) || t.lastMarker == Some(B))
         && now - t.lastOutputAt > 2000 && t.foreground == ShellProgram then WaitingInput
    else if t.agent == CodingAgent && now - t.lastOutputAt > 1000 * AGENT_IDLE_SECS then WaitingInput
    else if t.lastDAt.Some? && now - t.lastDAt.value > 5000 && t.lastOutputAt < t.lastDAt.value + 1000 then Idle
    else Running
  }

  function Applied(t: Tracker, k: Kind): Tracker {
    if t.state == k then t
    else t.(state := k, seen := if k == Done then false else t.seen, watch := k, version := t.version + 1)
  }

  function Evaluated(t: Tracker, now: int, pidAlive: bool): Tracker {
    if Overridden(t, now) then Applied(t, t.override.value.0)
    else
      var t' := t.(override := None);
      Applied(t', Verdict(t', now, pidAlive))
  }

  class PaneStateTracker {
    var state: Kind
    var lastOutputAt: int
    var lastMarker: Option<Marker>
    var lastDAt: Option<int>
    var foreground: Program
    var agent: Agent
    var seen: bool
    var rootPid: nat
    var override: Option<(Kind, int)>
    var watch: Kind
    var version: nat
    /** Every state the pane has been in, oldest first. */
    ghost var history: seq<Kind>

    ghost function Value(): Tracker
      reads this
    {
      Tracker(state, lastOutputAt, lastMarker, lastDAt, foreground, agent, seen, rootPid, override, watch, version)
    }

    ghost predicate Valid()
      reads this
    {
      watch == state && |history| == version + 1 && history[version] == state
    }

    constructor (pid: nat, now: int)
      ensures Valid() && Value() == NewTracker(pid, now) && history == [Running]
    {
      state, lastOutputAt, lastMarker, lastDAt := Running, now, None, None;
      foreground, agent, seen, rootPid, override := OtherProgram, UnknownAgent, true, pid, None;
      watch, version, history := Running, 0, [Running];
    }

    method TouchOutput(now: int)
      modifies this`lastOutputAt
      ensures Value() == old(Value()).(lastOutputAt := now)
    {
      lastOutputAt := now;
    }

    method PushMarker(m: Marker, now: int)
      modifies this`lastMarker, this`lastDAt
      ensures Value() == Marked(old(Value()), m, now)
      ensures lastMarker == Some(m) && lastDAt == if m.D? then Some(now) else old(lastDAt)
    {
      if m.D? {
        lastDAt := Some(now);
      }
      lastMarker := Some(m);
    }

    method SetOverride(k: Kind, secs: nat, now: int)
      modifies this`override
      ensures Value() == WithOverride(old(Value()), k, secs, now)
      ensures override == Some((k, now + 1000 * secs))
    {
      override := Some((k, now + 1000 * secs));
    }

    method MarkSeen()
      modifies this`seen
      ensures Value() == old(Value()).(seen := true)
    {
      seen := true;
    }

    method Apply(k: Kind) returns (changed: bool)
      requires Valid()
      modifies this`state, this`seen, this`watch, this`version, this`history
      ensures Valid() && Value() == Applied(old(Value()), k)
      ensures changed <==> state != old(state)
      ensures history == old(history) + if changed then [state] else []
    {
      if state == k {
        return false;
      }
      if k == Done {
        seen := false;
      }
      state := k;
      watch, version := k, version + 1;
      history := history + [k];
      changed := true;
    }

    method Evaluate(now: int, pidAlive: bool) returns (changed: bool)
      requires Valid()
      modifies this`state, this`seen, this`watch, this`version, this`override, this`history
      ensures Valid() && Value() == Evaluated(old(Value()), now, pidAlive)
      ensures changed <==> state != old(state)
      ensures history == old(history) + if changed then [state] else []
    {
      if override.Some? {
        if now < override.value.1 {
          changed := Apply(override.value.0);
          return;
        } else {
          override := None;
        }
      }
      var k := Judge(now, pidAlive);
      changed := Apply(k);
    }

    /** The rules of `evaluate`, which the source tests one after the other. */
    method Judge(now: int, pidAlive: bool) returns (k: Kind)
      ensures k == Verdict(Value(), now, pidAlive)
    {
      if rootPid > 0 && !pidAlive {
        var lastExit: Option<int> := None;
        if lastMarker.Some? && lastMarker.value.D? {
          lastExit := lastMarker.value.exit;
        }
        return if lastExit.Some? && lastExit.value != 0 then Crashed else Done;
      }
      if foreground == FullScreen {
        return Interactive;
      }
      if lastMarker == Some(B) || lastMarker == Some(A) {
        var idle := now - lastOutputAt;
        if idle > 2000 && foreground == ShellProgram {
          return WaitingInput;
        }
      }
      if agent != UnknownAgent && agent != ShellAgent && now - lastOutputAt > 1000 * AGENT_IDLE_SECS {
        return WaitingInput;
      }
      if lastDAt.Some? {
        if now - lastDAt.value > 5000 && lastOutputAt < lastDAt.value + 1000 {
          return Idle;
        }
      }
      return Running;
    }
  }

  // ---- Runs of the tracker ----

  datatype Op =
    | Output(at: int)
    | Mark(m: Marker, at: int)
    | Override(k: Kind, secs: nat, at: int)
    | Tick(at: int, pidAlive: bool, foreground: Program, agent: Agent)
    | Seen

  function Do(t: Tracker, op: Op): Tracker {
    match op
    case Output(at) => t.(lastOutputAt := at)
    case Mark(m, at) => Marked(t, m, at)
    case Override(k, secs, at) => WithOverride(t, k, secs, at)
    case Tick(at, alive, fg, agent) => Evaluated(t.(foreground := fg, agent := agent), at, alive)
    case Seen => t.(seen := true)
  }

  function DoAll(t: Tracker, ops: seq<Op>): Tracker {
    if ops == [] then t else Do(DoAll(t, ops[..|ops| - 1]), ops[|ops| - 1])
  }

  /** The channel always holds the state of the tracker. */
  lemma {:induction false} WatchFollowsState(t: Tracker, ops: seq<Op>)
    requires t.watch == t.state
    ensures DoAll(t, ops).watch == DoAll(t, ops).state
    ensures DoAll(t, ops).version >= t.version
    ensures DoAll(t, ops).version == t.version ==> DoAll(t, ops).state == t.state
  {
    if ops != [] {
      WatchFollowsState(t, ops[..|ops| - 1]);
    }
  }

  /** From an override until it expires or another one is set, whatever else happens, every tick leaves the pane in
      the overriding state. */
  lemma {:induction false} OverrideHolds(t: Tracker, k: Kind, secs: nat, at: int, ops: seq<Op>)
    requires forall i :: 0 <= i < |ops| ==> !ops[i].Override?
    requires forall i :: 0 <= i < |ops| && ops[i].Tick? ==> ops[i].at < at + 1000 * secs
    ensures var t' := DoAll(WithOverride(t, k, secs, at), ops);
            && t'.override == Some((k, at + 1000 * secs))
            && ((exists i :: 0 <= i < |ops| && ops[i].Tick?) ==> t'.state == k)
  {
    if ops != [] {
      var front, op := ops[..|ops| - 1], ops[|ops| - 1];
      OverrideHolds(t, k, secs, at, front);
      if !op.Tick? && exists i :: 0 <= i < |ops| && ops[i].Tick? {
        var i :| 0 <= i < |ops| && ops[i].Tick?;
        assert front[i].Tick?;
      }
    }
  }

  // ---- What each state means, in the fields of the tracker and times, outside overrides ----

  /** A pane is reported as crashed exactly when its process is gone and the last marker was a D with a non-zero code.
      */
  lemma CrashedIff(t: Tracker, now: int, alive: bool)
    requires t.override == None || now >= t.override.value.1
    ensures Evaluated(t, now, alive).state == Crashed
       <==> t.rootPid > 0 && !alive && exists code: int :: code != 0 && t.lastMarker == Some(D(Some(code)))
  {
    if t.lastMarker.Some? && t.lastMarker.value.D? && t.lastMarker.value.exit.Some? {
      assert t.lastMarker == Some(D(Some(t.lastMarker.value.exit.value)));
    }
  }

  /** It is done when its process is gone and there was no such marker. */
  lemma DoneIff(t: Tracker, now: int, alive: bool)
    requires t.override == None || now >= t.override.value.1
    ensures Evaluated(t, now, alive).state == Done
       <==> t.rootPid > 0 && !alive && forall code: int :: t.lastMarker == Some(D(Some(code))) ==> code == 0
  {
    CrashedIff(t, now, alive);
  }

  /** It is interactive while a full-screen program is in the foreground. */
  lemma InteractiveIff(t: Tracker, now: int, alive: bool)
    requires t.override == None || now >= t.override.value.1
    ensures Evaluated(t, now, alive).state == Interactive <==> (t.rootPid == 0 || alive) && t.foreground == FullScreen
  {
  }

  /** It waits for input when a shell has been quiet for more than 2 seconds at its prompt, or a coding agent for more
      than 15 seconds, and nothing above applies. */
  lemma WaitingInputIff(t: Tracker, now: int, alive: bool)
    requires t.override == None || now >= t.override.value.1
    ensures Evaluated(t, now, alive).state == WaitingInput
       <==> && (t.rootPid == 0 || alive) && t.foreground != FullScreen
            && (|| (t.lastMarker in {Some(A), Some(B)} && t.foreground == ShellProgram && now > t.lastOutputAt + 2000)
                || (t.agent == CodingAgent && now > t.lastOutputAt + 15_000))
  {
  }

  /** It is idle when the last D is more than 5 seconds old, no output came a second or more after it, and nothing above
      applies. */
  lemma IdleIff(t: Tracker, now: int, alive: bool)
    requires t.override == None || now >= t.override.value.1
    ensures Evaluated(t, now, alive).state == Idle
       <==> && (t.rootPid == 0 || alive) && t.foreground != FullScreen
            && !(t.lastMarker in {Some(A), Some(B)} && t.foreground == ShellProgram && now > t.lastOutputAt + 2000)
            && !(t.agent == CodingAgent && now > t.lastOutputAt + 15_000)
            && exists end: int :: t.lastDAt == Some(end) && now > end + 5000 && t.lastOutputAt < end + 1000
  {
    assert t.lastDAt.Some? ==> t.lastDAt == Some(t.lastDAt.value);
  }

  /** It is running in all other cases. */
  lemma RunningIff(t: Tracker, now: int, alive: bool)
    requires t.override == None || now >= t.override.value.1
    ensures Evaluated(t, now, alive).state == Running
       <==> && (t.rootPid == 0 || alive) && t.foreground != FullScreen
            && !(t.lastMarker in {Some(A), Some(B)} && t.foreground == ShellProgram && now > t.lastOutputAt + 2000)
            && !(t.agent == CodingAgent && now > t.lastOutputAt + 15_000)
            && forall end: int :: t.lastDAt == Some(end) ==> now <= end + 5000 || t.lastOutputAt >= end + 1000
  {
    CrashedIff(t, now, alive);
    IdleIff(t, now, alive);
  }

  /** A pane becomes unseen exactly when it becomes done, and evaluation never marks it as seen. */
  lemma UnseenWhenDone(t: Tracker, now: int, alive: bool)
    ensures Evaluated(t, now, alive).seen <==> t.seen && (t.state == Done || Evaluated(t, now, alive).state != Done)
  {
  }

  // ---- The fields, in terms of what happened ----

  /** When the last output came; `start` if there was none. */
  function OutputTime(ops: seq<Op>, start: int): int {
    if ops == [] then start
    else if ops[|ops| - 1].Output? then ops[|ops| - 1].at
    else OutputTime(ops[..|ops| - 1], start)
  }

  function LastMark(ops: seq<Op>): Option<Marker> {
    if ops == [] then None
    else if ops[|ops| - 1].Mark? then Some(ops[|ops| - 1].m)
    else LastMark(ops[..|ops| - 1])
  }

  /** When the last D came. */
  function EndTime(ops: seq<Op>): Option<int> {
    if ops == [] then None
    else if ops[|ops| - 1].Mark? && ops[|ops| - 1].m.D? then Some(ops[|ops| - 1].at)
    else EndTime(ops[..|ops| - 1])
  }

  /** In every run the fields that the rules look at are the process the pane was started with, the time of the last
      output, the last marker and the time of the last D. */
  lemma {:induction false} FieldsFollowRun(pid: nat, start: int, ops: seq<Op>)
    ensures var t := DoAll(NewTracker(pid, start), ops);
            && t.rootPid == pid && t.lastOutputAt == OutputTime(ops, start)
            && t.lastMarker == LastMark(ops) && t.lastDAt == EndTime(ops)
  {
    if ops != [] {
      FieldsFollowRun(pid, start, ops[..|ops| - 1]);
    }
  }

  /** Output that is at most two seconds old makes the next tick report a live pane as running, whatever it was
      thought to be doing: a false alarm heals itself. */
  lemma FreshOutputMeansRunning(t: Tracker, at: int, now: int, alive: bool, fg: Program, agent: Agent)
    requires at <= now <= at + 2000 && (t.override == None || now >= t.override.value.1)
    requires fg != FullScreen && (alive || t.rootPid == 0)
    ensures DoAll(t, [Output(at)] + [Tick(now, alive, fg, agent)]).state == Running
  {
    var ops := [Output(at)] + [Tick(now, alive, fg, agent)];
    assert ops[..1] == [Output(at)] && [Output(at)][..0] == [];
    assert DoAll(t, [Output(at)]) == t.(lastOutputAt := at);
  }

  /** A finished pane stays unseen until somebody marks it as seen. */
  lemma {:induction false} DoneStaysUnseen(t: Tracker, ops: seq<Op>)
    requires !t.seen && forall i :: 0 <= i < |ops| ==> !ops[i].Seen?
    ensures !DoAll(t, ops).seen
  {
    if ops != [] {
      DoneStaysUnseen(t, ops[..|ops| - 1]);
    }
  }

  // ---- Waiting for a state ----

  /** Where a call stands: not made; parked with the last version it saw; woken but not having looked; returned. */
  datatype Waiter = NotCalled | Parked(saw: nat) | Woken(saw: nat) | Returned(result: bool)

  /** `states` is every state of the pane so far, so that the channel is at version |states| - 1 with the last of
      them as its value; `calledAt` is the version at the time of the call. */
  datatype World = World(states: seq<Kind>, target: Kind, waiter: Waiter, calledAt: nat, open: bool)

  function Version(w: World): nat
    requires w.states != []
  {
    |w.states| - 1
  }

  function Current(w: World): Kind
    requires w.states != []
  {
    w.states[|w.states| - 1]
  }

  datatype Step = Publish(k: Kind) | Call | Changed | Look | Timeout | Close

  function Next(w: World, s: Step): (w': World)
    requires w.states != []
    ensures w'.states != []
  {
    match s
    case Publish(k) => if !w.open || k == Current(w) then w else w.(states := w.states + [k])
    case Call =>
      if !w.waiter.NotCalled? || !w.open then w
      else if Current(w) == w.target then w.(waiter := Returned(true), calledAt := Version(w))
      else w.(waiter := Parked(Version(w)), calledAt := Version(w))
    case Changed =>
      if !w.waiter.Parked? then w
      else if Version(w) != w.waiter.saw then w.(waiter := Woken(Version(w)))
      else if !w.open then w.(waiter := Returned(false))
      else w
    case Look =>
      if !w.waiter.Woken? then w
      else if Current(w) == w.target then w.(waiter := Returned(true))
      else w.(waiter := Parked(w.waiter.saw))
    case Timeout => if w.waiter.Parked? then w.(waiter := Returned(false)) else w
    case Close => w.(open := false)
  }

  function After(target: Kind, steps: seq<Step>): (w: World)
    ensures w.states != []
  {
    if steps == [] then World([Running], target, NotCalled, 0, true)
    else Next(After(target, steps[..|steps| - 1]), steps[|steps| - 1])
  }

  ghost predicate Inv(w: World) {
    && w.states != [] && w.calledAt <= Version(w)
    && match w.waiter
       case NotCalled => true
       case Parked(saw) => w.calledAt <= saw <= Version(w) && (saw == Version(w) ==> Current(w) != w.target)
       case Woken(saw) => w.calledAt <= saw <= Version(w)
       case Returned(result) => result ==> exists v :: w.calledAt <= v <= Version(w) && w.states[v] == w.target
  }

  lemma NextKeepsInv(w: World, s: Step)
    requires Inv(w)
    ensures Inv(Next(w, s))
  {
    var w' := Next(w, s);
    if w'.waiter == Returned(true) {
      if w.waiter == w'.waiter {
        var v :| w.calledAt <= v <= Version(w) && w.states[v] == w.target;
        assert w'.states[v] == w.target;
      } else {
        assert w'.states[Version(w')] == w'.target;
      }
    }
  }

  /** In every reachable state: a call parked on the current version is not waiting for the current state, so no
      wakeup is lost, and a true answer means that the state was the target at some moment since the call. */
  lemma {:induction false} NoLostWakeup(target: Kind, steps: seq<Step>)
    ensures var w := After(target, steps);
            && (w.waiter.Parked? && w.waiter.saw == Version(w) ==> Current(w) != w.target)
            && (w.waiter == Returned(true) ==> exists v :: w.calledAt <= v <= Version(w) && w.states[v] == w.target)
    ensures Inv(After(target, steps))
  {
    if steps != [] {
      NoLostWakeup(target, steps[..|steps| - 1]);
      NextKeepsInv(After(target, steps[..|steps| - 1]), steps[|steps| - 1]);
    }
  }

  /** Whenever the pane is in the target state, a parked call that gets to run before the state changes again
      returns true. */
  lemma WakesIfScheduled(target: Kind, steps: seq<Step>)
    requires After(target, steps).waiter.Parked? && Current(After(target, steps)) == After(target, steps).target
    ensures Next(Next(After(target, steps), Changed), Look).waiter == Returned(true)
  {
    NoLostWakeup(target, steps);
  }

  /** The step lets the call see the state of the pane, and it is the target: either the call is being made, or it
      was woken and looks. */
  ghost predicate SeesTarget(w: World, s: Step)
    requires w.states != []
  {
    Current(w) == w.target && ((s.Call? && w.waiter.NotCalled? && w.open) || (s.Look? && w.waiter.Woken?))
  }

  lemma AnswersTrue(w: World, s: Step)
    requires w.states != []
    ensures Next(w, s).waiter == Returned(true) <==> w.waiter == Returned(true) || SeesTarget(w, s)
  {
  }

  /** Step `k` of the run lets the call see the target. */
  ghost predicate SeesAt(target: Kind, steps: seq<Step>, k: nat)
    requires k < |steps|
  {
    SeesTarget(After(target, steps[..k]), steps[k])
  }

  /** A call answers true if and only if it saw the target: when it was made, or at one of its looks. */
  lemma {:induction false} TrueIff(target: Kind, steps: seq<Step>)
    ensures After(target, steps).waiter == Returned(true) <==> exists k: nat :: k < |steps| && SeesAt(target, steps, k)
  {
    if steps != [] {
      var n := |steps| - 1;
      var front := steps[..n];
      TrueIff(target, front);
      AnswersTrue(After(target, front), steps[n]);
      forall k: nat | k < n ensures SeesAt(target, steps, k) <==> SeesAt(target, front, k) {
        assert steps[..k] == front[..k];
      }
      assert SeesAt(target, steps, n) <==> SeesTarget(After(target, front), steps[n]);
    }
  }

  /** A target state that comes and goes before the call gets to run is missed. */
  lemma TransientCanBeMissed()
    ensures exists steps ::
              var w := After(Idle, steps);
              w.waiter == Returned(false) && exists v :: w.calledAt <= v <= Version(w) && w.states[v] == Idle
  {
    var s1 := [Call];
    var s2, s3 := s1 + [Publish(Idle)], s1 + [Publish(Idle)] + [Publish(Running)];
    var s4, s5 := s3 + [Changed], s3 + [Changed] + [Look];
    var s6 := s5 + [Timeout];
    Snoc(Idle, [], Call);
    assert [] + [Call] == s1;
    Snoc(Idle, s1, Publish(Idle));
    Snoc(Idle, s2, Publish(Running));
    Snoc(Idle, s3, Changed);
    Snoc(Idle, s4, Look);
    Snoc(Idle, s5, Timeout);
    var w := After(Idle, s6);
    assert w.states == [Running] + [Idle] + [Running] && w.states[1] == Idle;
    assert w.waiter == Returned(false) && w.calledAt == 0;
  }

  lemma Snoc(target: Kind, steps: seq<Step>, s: Step)
    ensures After(target, steps + [s]) == Next(After(target, steps), s)
  {
    assert (steps + [s])[..|steps|] == steps;
  }

  // ---- The loop of the source ----

  /** One suspension of the call: what happens to the pane meanwhile, and what wakes the call. */
  datatype Suspension = Suspension(ops: seq<Op>, wake: Wake)

  datatype Wake = TimerFired | ChannelReady | ChannelClosed

  /** The tracker after the first `k` suspensions. */
  function TrackerAt(t: Tracker, env: seq<Suspension>, k: nat): Tracker
    requires k <= |env|
  {
    if k == 0 then t else DoAll(TrackerAt(t, env, k - 1), env[k - 1].ops)
  }

  /** The call ends without an answer in suspension `k`: its timer fires, or the channel is closed and has nothing
      new. */
  ghost predicate EndsIn(t: Tracker, env: seq<Suspension>, k: nat)
    requires k < |env|
  {
    || env[k].wake == TimerFired
    || (env[k].wake == ChannelClosed && TrackerAt(t, env, k + 1).version == TrackerAt(t, env, k).version)
  }

  /** The call lives to the end of suspension `k` and finds the pane in the target state then. */
  ghost predicate FindsTarget(t: Tracker, env: seq<Suspension>, target: Kind, k: nat)
    requires k < |env|
  {
    && (forall j :: 0 <= j < k ==> !EndsIn(t, env, j))
    && env[k].wake != TimerFired && TrackerAt(t, env, k + 1).state == target
  }

  lemma StateChanged(t: Tracker, ops: seq<Op>)
    requires t.watch == t.state
    ensures DoAll(t, ops).watch == DoAll(t, ops).state && DoAll(t, ops).version >= t.version
    ensures DoAll(t, ops).state != t.state ==> DoAll(t, ops).version > t.version
  {
    WatchFollowsState(t, ops);
  }

  method Perform(t: PaneStateTracker, op: Op)
    requires t.Valid()
    modifies t
    ensures t.Valid() && t.Value() == Do(old(t.Value()), op) && old(t.history) <= t.history
  {
    match op
    case Output(at) => t.TouchOutput(at);
    case Mark(m, at) => t.PushMarker(m, at);
    case Override(k, secs, at) => t.SetOverride(k, secs, at);
    case Tick(at, alive, foreground, agent) =>
      t.foreground, t.agent := foreground, agent;
      var _ := t.Evaluate(at, alive);
    case Seen => t.MarkSeen();
  }

  method PerformAll(t: PaneStateTracker, ops: seq<Op>)
    requires t.Valid()
    modifies t
    ensures t.Valid() && t.Value() == DoAll(old(t.Value()), ops) && old(t.history) <= t.history
  {
    assert ops[..0] == [];
    for i := 0 to |ops|
      invariant t.Valid() && t.Value() == DoAll(old(t.Value()), ops[..i]) && old(t.history) <= t.history
    {
      assert ops[..i + 1][..i] == ops[..i];
      Perform(t, ops[i]);
    }
    assert ops[..|ops|] == ops;
  }

  /** Check and subscribe under the lock, then loop until the channel shows the target or the deadline passes. The call
      is woken by the channel only when a value has been sent that it has not seen. It answers true if and only if
      the pane is in the target state when it is made, or at the end of a suspension that it lives to see; otherwise
      its deadline has passed, or the channel is closed, when `env` has run out at the latest. */
  method WaitPaneState(t: PaneStateTracker, target: Kind, env: seq<Suspension>) returns (reached: bool)
    requires t.Valid()
    modifies t
    ensures t.Valid() && old(t.history) <= t.history
    ensures reached ==> exists v :: old(|t.history|) - 1 <= v < |t.history| && t.history[v] == target
    ensures reached <==>
              || old(t.state) == target
              || exists k :: 0 <= k < |env| && FindsTarget(old(t.Value()), env, target, k)
  {
    ghost var start := t.Value();
    if t.state == target {
      assert t.history[|t.history| - 1] == target;
      return true;
    }
    var saw := t.version;
    for i := 0 to |env|
      invariant t.Valid() && old(t.history) <= t.history
      invariant t.Value() == TrackerAt(start, env, i) && saw == t.version && t.state != target
      invariant forall k :: 0 <= k < i ==> !EndsIn(start, env, k) && !FindsTarget(start, env, target, k)
    {
      PerformAll(t, env[i].ops);
      StateChanged(TrackerAt(start, env, i), env[i].ops);
      if env[i].wake == TimerFired {
        assert EndsIn(start, env, i) && !FindsTarget(start, env, target, i);
        return false;
      }
      if t.version != saw {
        saw := t.version;
        if t.watch == target {
          assert FindsTarget(start, env, target, i);
          assert t.history[|t.history| - 1] == target;
          return true;
        }
      } else if env[i].wake == ChannelClosed {
        assert EndsIn(start, env, i) && !FindsTarget(start, env, target, i);
        return false;
      }
    }
    return false;
  }
}
