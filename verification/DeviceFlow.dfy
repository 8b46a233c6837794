/** Linking a GitHub account by the device flow: one attempt polls on a timer until it is authorised, refused,
    expired or broken. An asynchronous function is cut at its awaits, so that anything can happen in between. */
module DeviceFlow {
  import opened Arith

  const POLL_ERROR_LIMIT: nat := 5

  datatype Reply = Pending | SlowDown | Authorized | Denied | Expired | TaggedError | UntaggedError

  /** When the attempt started, the lifetime and interval it was granted, the slow_down replies it received and the
      polls it made. */
  datatype Grant = Grant(startedAt: nat, expiresIn: nat, baseSec: nat, slowDowns: nat, polls: nat)

  /** `timers` are the timeouts that have not fired, by id, with their due times; `pollTimer` is the variable of
      the source, which keeps the id of a timer that has fired. `polling` and `fetching` count the functions
      suspended in the poll call and in the account call. Times are milliseconds.
      `grant` is bookkeeping about the current attempt. */
  datatype Link = Link(
    now: nat,
    timers: map<nat, nat>,
    pollTimer: Option<nat>,
    nextTimer: nat,
    deadline: Option<nat>,
    intervalSec: nat,
    starting: bool,
    linking: bool,
    errors: nat,
    polling: nat,
    fetching: nat,
    grant: Grant)

  const IDLE := Link(0, map[], None, 0, None, 5, false, false, 0, 0, 0, Grant(0, 0, 1, 0, 0))

  datatype Action =
    | Elapse(ms: nat)
    | Begin
    | Started(expiresIn: nat, interval: int)
    | StartFailed
    | TimerFires(id: nat)
    | Replied(reply: Reply)
    | AccountArrived
    | Cancel

  function StopPolling(l: Link): Link {
    if l.pollTimer == None then l
    else l.(timers := l.timers - {l.pollTimer.value}, pollTimer := None)
  }

  function ScheduleNext(l: Link, sec: nat): Link {
    l.(timers := l.timers[l.nextTimer := l.now + 1000 * sec], pollTimer := Some(l.nextTimer),
       nextTimer := l.nextTimer + 1)
  }

  function FinishWithError(l: Link): Link {
    StopPolling(l).(deadline := None, linking := false)
  }

  /** The rest of a poll, once its reply is there. */
  function Resume(l: Link, reply: Reply): Link {
    match reply
    case TaggedError => FinishWithError(l)
    case UntaggedError =>
      var counted := l.(errors := l.errors + 1);
      if counted.errors >= POLL_ERROR_LIMIT then FinishWithError(counted)
      else ScheduleNext(counted, counted.intervalSec)
    case Pending => ScheduleNext(l.(errors := 0), l.intervalSec)
    case SlowDown =>
      ScheduleNext(l.(errors := 0, intervalSec := l.intervalSec + 5,
                      grant := l.grant.(slowDowns := l.grant.slowDowns + 1)), l.intervalSec + 5)
    case Authorized => StopPolling(l.(errors := 0)).(deadline := None, fetching := l.fetching + 1)
    case _ => FinishWithError(l.(errors := 0))
  }

  function Act(l: Link, a: Action): Link {
    match a
    case Elapse(ms) => l.(now := l.now + ms)
    case Begin => if l.starting || l.linking then l else l.(starting := true)
    case Started(expiresIn, interval) =>
      if !l.starting then l
      else
        var sec := Max(1, interval);
        var granted := l.(deadline := Some(l.now + 1000 * expiresIn), linking := true, starting := false,
                          grant := Grant(l.now, expiresIn, sec, 0, 0));
        ScheduleNext(StopPolling(granted).(errors := 0, intervalSec := sec), sec)
    case StartFailed => if !l.starting then l else l.(deadline := None, linking := false, starting := false)
    case TimerFires(id) =>
      if id !in l.timers || l.now < l.timers[id] then l
      else
        var fired := l.(timers := l.timers - {id});
        if l.deadline.Some? && l.now > l.deadline.value then FinishWithError(fired)
        else fired.(polling := l.polling + 1, grant := l.grant.(polls := l.grant.polls + 1))
    case Replied(reply) => if l.polling == 0 then l else Resume(l.(polling := l.polling - 1), reply)
    case AccountArrived => if l.fetching == 0 then l else l.(fetching := l.fetching - 1, linking := false)
    case Cancel => StopPolling(l).(deadline := None, linking := false)
  }

  function Run(acts: seq<Action>): Link {
    if acts == [] then IDLE else Act(Run(acts[..|acts| - 1]), acts[|acts| - 1])
  }

  /** Pending timers and suspended calls of the attempt. */
  function Activities(l: Link): nat { |l.timers| + l.polling + l.fetching }

  /** A cancellation that no suspended call survives. */
  predicate SafeCancel(l: Link) { l.polling == 0 && l.fetching == 0 }

  /** Every cancellation of the run is safe. */
  ghost predicate Careful(acts: seq<Action>) {
    acts == [] ||
    (Careful(acts[..|acts| - 1]) && (acts[|acts| - 1].Cancel? ==> SafeCancel(Run(acts[..|acts| - 1]))))
  }

  ghost predicate Inv(l: Link) {
    && Activities(l) <= 1
    && (Activities(l) == 1 <==> l.linking)
    && (l.starting ==> !l.linking)
    && (l.timers != map[] ==> l.pollTimer.Some? && l.timers.Keys == {l.pollTimer.value})
    && (forall id :: id in l.timers ==> id < l.nextTimer)
    && (l.pollTimer.Some? ==> l.pollTimer.value < l.nextTimer)
    && l.grant.baseSec >= 1 && l.intervalSec >= 1
    && (l.linking ==> l.intervalSec == l.grant.baseSec + 5 * l.grant.slowDowns)
    && (l.linking && l.fetching == 0 ==>
          l.deadline == Some(l.grant.startedAt + 1000 * l.grant.expiresIn) && l.errors < POLL_ERROR_LIMIT)
    && l.grant.polls * l.grant.baseSec <= l.grant.expiresIn
    && (l.polling == 1 ==> l.now >= l.grant.startedAt + 1000 * (l.grant.polls * l.grant.baseSec))
    && (forall id :: id in l.timers ==>
          l.timers[id] >= l.grant.startedAt + 1000 * ((l.grant.polls + 1) * l.grant.baseSec))
  }

  /** The state after a poll that came back re-armed the timer. */
  function Rearm(l: Link, errors: nat, slowDowns: nat): Link {
    var sec := l.grant.baseSec + 5 * slowDowns;
    ScheduleNext(l.(polling := 0, errors := errors, grant := l.grant.(slowDowns := slowDowns), intervalSec := sec), sec)
  }

  lemma RearmKeepsInv(l: Link, errors: nat, slowDowns: nat)
    requires Inv(l) && l.polling == 1 && errors < POLL_ERROR_LIMIT && slowDowns >= l.grant.slowDowns
    ensures Inv(Rearm(l, errors, slowDowns))
    ensures Rearm(l, errors, slowDowns).timers
         == map[l.nextTimer := l.now + 1000 * (l.grant.baseSec + 5 * slowDowns)]
  {
    assert l.timers == map[];
    MulDist(l.grant.polls, 1, l.grant.baseSec);
    assert map[][l.nextTimer := l.now + 1000 * (l.grant.baseSec + 5 * slowDowns)].Keys == {l.nextTimer};
  }

  /** A poll that came back ends the attempt. */
  lemma FailKeepsInv(l: Link, errors: nat)
    requires Inv(l) && l.polling == 1
    ensures Inv(FinishWithError(l.(polling := 0, errors := errors)))
    ensures FinishWithError(l.(polling := 0, errors := errors)).timers == map[]
  {
    assert l.timers == map[];
    StopClears(l.(polling := 0, errors := errors));
  }

  lemma StopClears(l: Link)
    requires l.timers != map[] ==> l.pollTimer.Some? && l.timers.Keys == {l.pollTimer.value}
    ensures StopPolling(l).timers == map[]
  {
    if l.pollTimer.Some? {
      assert (l.timers - {l.pollTimer.value}).Keys == {};
    } else {
      assert l.timers == map[];
    }
  }

  lemma StartKeepsInv(l: Link, expiresIn: nat, interval: int)
    requires Inv(l) && l.starting
    ensures Inv(Act(l, Started(expiresIn, interval)))
  {
    StopClears(l);
    var l' := Act(l, Started(expiresIn, interval));
    assert l'.timers == map[][l.nextTimer := l.now + 1000 * Max(1, interval)];
    assert l'.timers.Keys == {l.nextTimer};
  }

  lemma FireKeepsInv(l: Link, id: nat)
    requires Inv(l)
    ensures Inv(Act(l, TimerFires(id)))
  {
    if id in l.timers && l.now >= l.timers[id] {
      assert l.timers.Keys == {id};
      assert (l.timers - {id}).Keys == {};
      assert l.timers - {id} == map[];
      assert |l.timers| == |l.timers.Keys| == 1;
      if l.deadline.Some? && l.now > l.deadline.value {
        StopClears(l.(timers := map[]));
      } else {
        PollKeepsInv(l, id);
      }
    }
  }

  /** A poll is only made before the deadline, so there are not more of them than intervals. */
  lemma PollKeepsInv(l: Link, id: nat)
    requires Inv(l) && id in l.timers && l.timers[id] <= l.now && l.linking && l.polling == 0 && l.fetching == 0
    requires l.deadline.Some? ==> l.now <= l.deadline.value
    ensures Inv(l.(timers := map[], polling := 1, grant := l.grant.(polls := l.grant.polls + 1)))
  {
    var g := l.grant;
    assert l.now >= g.startedAt + 1000 * ((g.polls + 1) * g.baseSec);
    assert l.now <= g.startedAt + 1000 * g.expiresIn;
  }

  /** The reply leaves one timer, due after the granted interval and five seconds for each slow_down so far. */
  ghost predicate Rearmed(l: Link, reply: Reply) {
    var slowDowns := l.grant.slowDowns + if reply == SlowDown then 1 else 0;
    && Act(l, Replied(reply)).grant.slowDowns == slowDowns
    && Act(l, Replied(reply)).timers == map[l.nextTimer := l.now + 1000 * (l.grant.baseSec + 5 * slowDowns)]
  }

  lemma RearmingReplies(l: Link, reply: Reply)
    requires Inv(l) && l.polling == 1
    requires reply == Pending || reply == SlowDown || (reply == UntaggedError && l.errors + 1 < POLL_ERROR_LIMIT)
    ensures Inv(Act(l, Replied(reply)))
    ensures Rearmed(l, reply)
  {
    var errors := if reply == UntaggedError then l.errors + 1 else 0;
    var slowDowns := if reply == SlowDown then l.grant.slowDowns + 1 else l.grant.slowDowns;
    RearmKeepsInv(l, errors, slowDowns);
    ReplyRearms(l, reply);
  }

  lemma ReplyRearms(l: Link, reply: Reply)
    requires Inv(l) && l.polling == 1
    requires reply == Pending || reply == SlowDown || (reply == UntaggedError && l.errors + 1 < POLL_ERROR_LIMIT)
    ensures Act(l, Replied(reply))
         == Rearm(l, if reply == UntaggedError then l.errors + 1 else 0,
                  if reply == SlowDown then l.grant.slowDowns + 1 else l.grant.slowDowns)
  {
    assert l.linking;
  }

  lemma EndingReplies(l: Link, reply: Reply)
    requires Inv(l) && l.polling == 1
    requires reply == Denied || reply == Expired || reply == TaggedError
          || (reply == UntaggedError && l.errors + 1 >= POLL_ERROR_LIMIT)
    ensures Inv(Act(l, Replied(reply)))
  {
    FailKeepsInv(l, if reply == UntaggedError then l.errors + 1 else if reply == TaggedError then l.errors else 0);
  }

  lemma ReplyKeepsInv(l: Link, reply: Reply)
    requires Inv(l)
    ensures Inv(Act(l, Replied(reply)))
  {
    if l.polling > 0 {
      if reply == Authorized {
        assert l.timers == map[];
        StopClears(l.(polling := 0, errors := 0));
      } else if reply == Pending || reply == SlowDown || (reply == UntaggedError && l.errors + 1 < POLL_ERROR_LIMIT) {
        RearmingReplies(l, reply);
      } else {
        EndingReplies(l, reply);
      }
    }
  }

  lemma CancelKeepsInv(l: Link)
    requires Inv(l) && SafeCancel(l)
    ensures Inv(Act(l, Cancel))
  {
    StopClears(l);
  }

  lemma ActKeepsInv(l: Link, a: Action)
    requires Inv(l) && (a.Cancel? ==> SafeCancel(l))
    ensures Inv(Act(l, a))
  {
    match a
    case Started(expiresIn, interval) =>
      if l.starting { StartKeepsInv(l, expiresIn, interval); }
    case TimerFires(id) => FireKeepsInv(l, id);
    case Replied(reply) => ReplyKeepsInv(l, reply);
    case Cancel => CancelKeepsInv(l);
    case _ =>
  }

  lemma {:induction false} RunKeepsInv(acts: seq<Action>)
    requires Careful(acts)
    ensures Inv(Run(acts))
  {
    if acts != [] {
      RunKeepsInv(acts[..|acts| - 1]);
      ActKeepsInv(Run(acts[..|acts| - 1]), acts[|acts| - 1]);
    }
  }

  /** In every run whose cancellations are safe: at most one timer or call is pending at any time, exactly while a
      link is open; the interval is the granted one plus five seconds for each slow_down; and at most
      floor(expires_in / max(1, interval)) polls are made. */
  lemma PollingDiscipline(acts: seq<Action>)
    requires Careful(acts)
    ensures var l := Run(acts);
            && Activities(l) <= 1 && (Activities(l) == 1 <==> l.linking)
            && (l.linking ==> l.intervalSec == l.grant.baseSec + 5 * l.grant.slowDowns)
            && l.grant.baseSec >= 1 && l.grant.polls <= l.grant.expiresIn / l.grant.baseSec
  {
    RunKeepsInv(acts);
    var g := Run(acts).grant;
    DivLargest(g.expiresIn, g.baseSec, g.polls);
  }

  /** After s slow_down replies the next poll is due max(1, interval) + 5s seconds after the reply. */
  lemma NextWait(acts: seq<Action>, reply: Reply)
    requires Careful(acts) && Run(acts).polling == 1 && (reply == Pending || reply == SlowDown)
    ensures Rearmed(Run(acts), reply)
  {
    RunKeepsInv(acts);
    RearmingReplies(Run(acts), reply);
  }

  /** The replies that the current attempt has received, in order. */
  function Replies(acts: seq<Action>): seq<Reply> {
    if acts == [] then []
    else
      var l, front := Run(acts[..|acts| - 1]), Replies(acts[..|acts| - 1]);
      match acts[|acts| - 1]
      case Started(_, _) => if l.starting then [] else front
      case Replied(reply) => if l.polling > 0 then front + [reply] else front
      case _ => front
  }

  /** The last `k` replies were all untagged errors. */
  ghost predicate OnlyErrorsLately(rs: seq<Reply>, k: nat) {
    |rs| >= k && forall i :: |rs| - k <= i < |rs| ==> rs[i] == UntaggedError
  }

  /** How many untagged errors came last, one after the other. */
  function ErrorsInARow(rs: seq<Reply>): nat {
    if rs == [] || rs[|rs| - 1] != UntaggedError then 0 else 1 + ErrorsInARow(rs[..|rs| - 1])
  }

  lemma {:induction false} ErrorsInARowIff(rs: seq<Reply>, k: nat)
    ensures ErrorsInARow(rs) >= k <==> OnlyErrorsLately(rs, k)
  {
    if k > 0 && rs != [] && rs[|rs| - 1] == UntaggedError {
      var front := rs[..|rs| - 1];
      ErrorsInARowIff(front, k - 1);
      if OnlyErrorsLately(front, k - 1) {
        assert forall i :: |front| - (k - 1) <= i < |front| ==> rs[i] == front[i];
      }
      if OnlyErrorsLately(rs, k) {
        assert forall i :: |front| - (k - 1) <= i < |front| ==> front[i] == rs[i];
      }
    }
  }

  /** What a reply does to the counter of an attempt that goes on. */
  lemma ReplyCounts(l: Link, reply: Reply)
    requires Inv(l) && l.polling > 0 && Act(l, Replied(reply)).linking
    ensures l.linking && Act(l, Replied(reply)).errors == if reply == UntaggedError then l.errors + 1 else 0
  {
  }

  /** Nothing else touches it while a link is open. */
  lemma OthersDoNotCount(l: Link, a: Action)
    requires Inv(l) && Act(l, a).linking
    requires !(a.Replied? && l.polling > 0) && !(a.Started? && l.starting)
    ensures l.linking && Act(l, a).errors == l.errors
  {
  }

  /** While a link is open the counter holds the untagged errors that the attempt received last, in a row. */
  lemma {:induction false} CounterIsErrorsInARow(acts: seq<Action>)
    requires Careful(acts)
    ensures Run(acts).linking ==> Run(acts).errors == ErrorsInARow(Replies(acts))
  {
    if acts != [] && Run(acts).linking {
      var front, a := acts[..|acts| - 1], acts[|acts| - 1];
      CounterIsErrorsInARow(front);
      RunKeepsInv(front);
      if a.Replied? && Run(front).polling > 0 {
        ReplyCounts(Run(front), a.reply);
        var rs := Replies(front);
        assert (rs + [a.reply])[..|rs|] == rs;
      } else if a.Started? && Run(front).starting {
        assert Replies(acts) == [];
      } else {
        OthersDoNotCount(Run(front), a);
        assert Replies(acts) == Replies(front);
      }
    }
  }

  /** An attempt survives an untagged error if and only if that is not its fifth reply in a row that is one, and a
      failed attempt leaves nothing pending. */
  lemma FifthErrorEnds(acts: seq<Action>)
    requires Careful(acts) && Run(acts).polling == 1
    ensures var l' := Act(Run(acts), Replied(UntaggedError));
            && (l'.linking <==> !OnlyErrorsLately(Replies(acts) + [UntaggedError], 5))
            && (!l'.linking ==> l'.timers == map[] && l'.polling == 0 && l'.deadline == None)
  {
    RunKeepsInv(acts);
    ErrorCounted(Run(acts));
    CounterIsErrorsInARow(acts);
    var rs := Replies(acts) + [UntaggedError];
    assert rs[..|rs| - 1] == Replies(acts);
    ErrorsInARowIff(rs, POLL_ERROR_LIMIT);
  }

  lemma ErrorCounted(l: Link)
    requires Inv(l) && l.polling == 1
    ensures var l' := Act(l, Replied(UntaggedError));
            && l'.errors == l.errors + 1 <= POLL_ERROR_LIMIT
            && (l'.linking <==> l.errors + 1 < POLL_ERROR_LIMIT)
            && (!l'.linking ==> l'.timers == map[] && l'.polling == 0 && l'.deadline == None)
  {
    assert l.linking && l.fetching == 0;
    FailKeepsInv(l, l.errors + 1);
  }

  // ---- What each event leads to, in every run whose cancellations are safe ----

  /** Nothing is left of the attempt. */
  ghost predicate Ended(l: Link) {
    !l.linking && l.timers == map[] && l.polling == 0 && l.fetching == 0 && l.deadline == None
  }

  /** The attempt goes on with one timer, due in `sec` seconds, and nothing else. */
  ghost predicate Waits(l: Link, sec: nat) {
    && l.linking && l.polling == 0 && l.fetching == 0
    && l.timers.Values == {l.now + 1000 * sec} && |l.timers| == 1
  }

  lemma OneTimer(l: Link, id: nat, sec: nat)
    requires l.timers == map[id := l.now + 1000 * sec] && l.linking && l.polling == 0 && l.fetching == 0
    ensures Waits(l, sec)
  {
    assert l.timers[id] in l.timers.Values;
    assert l.timers.Keys == {id} && |l.timers| == |l.timers.Keys|;
  }

  /** Only an authorised reply reaches the account call, which is then all that is pending. */
  lemma OnlyAuthorizedFetches(acts: seq<Action>, reply: Reply)
    requires Careful(acts) && Run(acts).polling == 1
    ensures var l' := Act(Run(acts), Replied(reply));
            if reply == Authorized then l'.fetching == 1 && l'.linking && l'.timers == map[] && l'.deadline == None
            else l'.fetching == 0
  {
    RunKeepsInv(acts);
    if reply == Authorized {
      AuthorizedFetches(Run(acts));
    }
  }

  /** A denied or expired reply and a tagged error end the attempt with nothing pending. */
  lemma RefusalEnds(acts: seq<Action>, reply: Reply)
    requires Careful(acts) && Run(acts).polling == 1 && reply in {Denied, Expired, TaggedError}
    ensures Ended(Act(Run(acts), Replied(reply)))
  {
    RunKeepsInv(acts);
    EndsAtOnce(Run(acts), reply);
  }

  /** A pending or slow_down reply leaves it waiting: for the granted interval and five seconds for each slow_down so
      far. */
  lemma RetryWaits(acts: seq<Action>, reply: Reply)
    requires Careful(acts) && Run(acts).polling == 1 && (reply == Pending || reply == SlowDown)
    ensures var g := Run(acts).grant;
            Waits(Act(Run(acts), Replied(reply)), g.baseSec + 5 * g.slowDowns + if reply == SlowDown then 5 else 0)
  {
    RunKeepsInv(acts);
    RearmsOne(Run(acts), reply);
  }

  /** An untagged error does the same, or ends the attempt; which of the two is `FifthErrorEnds`. */
  lemma ErrorWaitsOrEnds(acts: seq<Action>)
    requires Careful(acts) && Run(acts).polling == 1
    ensures var g, l' := Run(acts).grant, Act(Run(acts), Replied(UntaggedError));
            if l'.linking then Waits(l', g.baseSec + 5 * g.slowDowns) else Ended(l')
  {
    RunKeepsInv(acts);
    UntaggedStep(Run(acts), Act(Run(acts), Replied(UntaggedError)));
  }

  lemma UntaggedStep(l: Link, l': Link)
    requires Inv(l) && l.polling == 1 && l' == Act(l, Replied(UntaggedError))
    ensures if l'.linking then Waits(l', l.grant.baseSec + 5 * l.grant.slowDowns) else Ended(l')
  {
    ErrorCounted(l);
    if l.errors + 1 < POLL_ERROR_LIMIT {
      RearmsOne(l, UntaggedError);
    } else {
      FailKeepsInv(l, l.errors + 1);
    }
  }

  lemma AuthorizedFetches(l: Link)
    requires Inv(l) && l.polling == 1
    ensures var l' := Act(l, Replied(Authorized));
            l'.fetching == 1 && l'.linking && l'.timers == map[] && l'.polling == 0 && l'.deadline == None
  {
    assert l.timers == map[];
    StopClears(l.(polling := 0, errors := 0));
  }

  lemma EndsAtOnce(l: Link, reply: Reply)
    requires Inv(l) && l.polling == 1 && reply in {Denied, Expired, TaggedError}
    ensures Ended(Act(l, Replied(reply)))
  {
    FailKeepsInv(l, if reply == TaggedError then l.errors else 0);
  }

  lemma RearmsOne(l: Link, reply: Reply)
    requires Inv(l) && l.polling == 1
    requires reply == Pending || reply == SlowDown || (reply == UntaggedError && l.errors + 1 < POLL_ERROR_LIMIT)
    ensures Waits(Act(l, Replied(reply)),
                  l.grant.baseSec + 5 * l.grant.slowDowns + if reply == SlowDown then 5 else 0)
  {
    RearmingReplies(l, reply);
    OneTimer(Act(l, Replied(reply)), l.nextTimer,
      l.grant.baseSec + 5 * (l.grant.slowDowns + if reply == SlowDown then 1 else 0));
  }

  /** A granted device code opens the link: its deadline is its lifetime away, and the first poll one interval, of at
      least a second. */
  lemma StartLaw(acts: seq<Action>, expiresIn: nat, interval: int)
    requires Careful(acts) && Run(acts).starting
    ensures var l, l' := Run(acts), Act(Run(acts), Started(expiresIn, interval));
            && Waits(l', if interval < 1 then 1 else interval)
            && !l'.starting && l'.errors == 0 && l'.deadline == Some(l.now + 1000 * expiresIn)
            && l'.grant == Grant(l.now, expiresIn, if interval < 1 then 1 else interval, 0, 0)
  {
    RunKeepsInv(acts);
    StartOpens(Run(acts), expiresIn, interval);
    OneTimer(Act(Run(acts), Started(expiresIn, interval)), Run(acts).nextTimer, Max(1, interval));
  }

  lemma StartOpens(l: Link, expiresIn: nat, interval: int)
    requires Inv(l) && l.starting
    ensures var sec := Max(1, interval);
            Act(l, Started(expiresIn, interval))
              == l.(timers := map[l.nextTimer := l.now + 1000 * sec], pollTimer := Some(l.nextTimer),
                    nextTimer := l.nextTimer + 1, deadline := Some(l.now + 1000 * expiresIn), intervalSec := sec,
                    starting := false, linking := true, errors := 0, grant := Grant(l.now, expiresIn, sec, 0, 0))
    ensures l.polling == 0 && l.fetching == 0
  {
    StopClears(l);
  }

  /** A timer that fires makes a poll up to the deadline, and ends the attempt after it. */
  lemma FireLaw(acts: seq<Action>, id: nat)
    requires Careful(acts) && id in Run(acts).timers && Run(acts).timers[id] <= Run(acts).now
    ensures var l, l' := Run(acts), Act(Run(acts), TimerFires(id));
            if l.now <= l.grant.startedAt + 1000 * l.grant.expiresIn
            then l'.polling == 1 && l'.linking && l'.timers == map[] && l'.fetching == 0 && l'.deadline == l.deadline
            else Ended(l')
  {
    var l := Run(acts);
    RunKeepsInv(acts);
    assert l.timers.Keys == {id};
    assert l.timers - {id} == map[];
    assert |l.timers| == |l.timers.Keys| == 1;
    StopClears(l.(timers := map[]));
  }

  /** The account, whether it arrived or not, ends the attempt, and so do a safe cancellation and a start that failed. */
  lemma EndLaw(acts: seq<Action>)
    requires Careful(acts)
    ensures Run(acts).fetching == 1 ==>
              !Act(Run(acts), AccountArrived).linking && Activities(Act(Run(acts), AccountArrived)) == 0
    ensures SafeCancel(Run(acts)) ==> Ended(Act(Run(acts), Cancel))
    ensures Run(acts).starting ==> Ended(Act(Run(acts), StartFailed)) && !Act(Run(acts), StartFailed).starting
  {
    RunKeepsInv(acts);
    StopClears(Run(acts));
  }

  /** A cancellation is safe exactly when nothing is suspended: otherwise, in whatever state the attempt is, the
      next attempt runs beside the remains of this one. */
  lemma UnsafeCancelBreaksDiscipline(acts: seq<Action>)
    requires Careful(acts) && !SafeCancel(Run(acts))
    ensures Activities(Run(acts + [Cancel] + [Begin] + [Started(900, 5)])) == 2
  {
    RunKeepsInv(acts);
    RunTwo(acts, Cancel, Begin);
    RunSnoc(acts + [Cancel] + [Begin], Started(900, 5));
    BesideTheRemains(Run(acts));
  }

  lemma BesideTheRemains(l: Link)
    requires Inv(l) && !SafeCancel(l)
    ensures Activities(Act(Act(Act(l, Cancel), Begin), Started(900, 5))) == 2
  {
    assert l.timers == map[] && !l.starting;
    StopClears(l);
    var l1 := Act(Act(l, Cancel), Begin);
    assert l1.timers == map[] && l1.starting && l1.polling + l1.fetching == 1 && l1.pollTimer == None;
    var l2 := Act(l1, Started(900, 5));
    assert l2.timers == map[][l1.nextTimer := l1.now + 5000];
    assert l2.timers.Keys == {l1.nextTimer} && |l2.timers| == |l2.timers.Keys|;
  }

  /** Cancelling while a poll is under way lets its reply re-arm a timer behind the next attempt: whatever the
      state of the attempt, this continuation ends with two timers at once. */
  lemma UnsafeCancelDoublesPolling(acts: seq<Action>)
    requires Careful(acts) && Run(acts).polling == 1
    ensures |Run(acts + [Cancel] + [Begin] + [Started(900, 5)] + [Replied(Pending)]).timers| == 2
  {
    RunKeepsInv(acts);
    RunTwo(acts, Cancel, Begin);
    RunTwo(acts + [Cancel] + [Begin], Started(900, 5), Replied(Pending));
    DoubledTimers(Run(acts));
  }

  lemma DoubledTimers(l: Link)
    requires Inv(l) && l.polling == 1
    ensures |Act(Act(Act(Act(l, Cancel), Begin), Started(900, 5)), Replied(Pending)).timers| == 2
  {
    assert l.timers == map[] && !l.starting;
    StopClears(l);
    var l1 := Act(Act(l, Cancel), Begin);
    assert l1.timers == map[] && l1.starting && l1.polling == 1 && l1.nextTimer == l.nextTimer && l1.pollTimer == None;
    var l2 := Act(l1, Started(900, 5));
    assert l2.timers == map[][l.nextTimer := l1.now + 5000] && l2.polling == 1 && l2.nextTimer == l.nextTimer + 1;
    var l3 := Act(l2, Replied(Pending));
    assert l3.timers.Keys == {l.nextTimer, l.nextTimer + 1};
    assert |l3.timers| == |l3.timers.Keys|;
  }

  lemma RunSnoc(acts: seq<Action>, a: Action)
    ensures Run(acts + [a]) == Act(Run(acts), a)
  {
    assert (acts + [a])[..|acts|] == acts;
  }

  lemma RunTwo(acts: seq<Action>, a: Action, b: Action)
    ensures Run(acts + [a] + [b]) == Act(Act(Run(acts), a), b)
  {
    RunSnoc(acts, a);
    RunSnoc(acts + [a], b);
  }

  // ---- The module variables and the functions that update them ----

  class GitHubLink {
    var now: nat
    var timers: map<nat, nat>
    var nextTimer: nat
    var pollTimer: Option<nat>
    var deadline: Option<nat>
    var currentIntervalSec: nat
    var starting: bool
    var linking: bool
    var consecutivePollErrors: nat
    var polling: nat
    var fetching: nat
    ghost var grant: Grant

    ghost function State(): Link
      reads this
    {
      Link(now, timers, pollTimer, nextTimer, deadline, currentIntervalSec, starting, linking,
           consecutivePollErrors, polling, fetching, grant)
    }

    constructor ()
      ensures State() == IDLE
    {
      now, timers, nextTimer, pollTimer, deadline, currentIntervalSec := 0, map[], 0, None, None, 5;
      starting, linking, consecutivePollErrors, polling, fetching := false, false, 0, 0, 0;
      grant := IDLE.grant;
    }

    method Stop()
      modifies this`timers, this`pollTimer
      ensures State() == StopPolling(old(State()))
    {
      if pollTimer.Some? {
        timers := timers - {pollTimer.value};
        pollTimer := None;
      }
    }

    method Schedule(sec: nat)
      modifies this`timers, this`pollTimer, this`nextTimer
      ensures State() == ScheduleNext(old(State()), sec)
    {
      timers := timers[nextTimer := now + 1000 * sec];
      pollTimer := Some(nextTimer);
      nextTimer := nextTimer + 1;
    }

    method Fail()
      modifies this`timers, this`pollTimer, this`deadline, this`linking
      ensures State() == FinishWithError(old(State()))
    {
      Stop();
      deadline := None;
      linking := false;
    }

    /** `startGitHubLink` up to its await. */
    method Start() returns (asked: bool)
      modifies this`starting
      ensures State() == Act(old(State()), Begin)
      ensures asked <==> !old(starting) && !old(linking)
    {
      if starting || linking {
        return false;
      }
      starting := true;
      asked := true;
    }

    /** `startGitHubLink` from its await on, when the device code was granted. */
    method StartGranted(expires: nat, interval: int)
      requires starting
      modifies this
      ensures State() == Act(old(State()), Started(expires, interval))
    {
      deadline := Some(now + 1000 * expires);
      linking := true;
      starting := false;
      grant := Grant(now, expires, Max(1, interval), 0, 0);
      StartPolling(Max(1, interval));
    }

    /** `startGitHubLink` from its await on, when the call failed. */
    method StartRejected()
      requires starting
      modifies this`deadline, this`linking, this`starting
      ensures State() == Act(old(State()), StartFailed)
    {
      deadline := None;
      linking := false;
      starting := false;
    }

    method StartPolling(intervalSec: nat)
      modifies this`timers, this`pollTimer, this`nextTimer, this`consecutivePollErrors, this`currentIntervalSec
      requires intervalSec >= 1
      ensures State() == ScheduleNext(StopPolling(old(State())).(errors := 0, intervalSec := intervalSec), intervalSec)
    {
      Stop();
      consecutivePollErrors := 0;
      currentIntervalSec := Max(1, intervalSec);
      Schedule(currentIntervalSec);
    }

    /** `pollOnce` up to its await, when timer `id` fires. */
    method PollOnce(id: nat)
      requires id in timers && timers[id] <= now
      modifies this
      ensures State() == Act(old(State()), TimerFires(id))
    {
      timers := timers - {id};
      if deadline.Some? && now > deadline.value {
        Fail();
        return;
      }
      polling := polling + 1;
      grant := grant.(polls := grant.polls + 1);
    }

    /** `pollOnce` from its await on. */
    method PollResolved(reply: Reply)
      requires polling > 0
      modifies this
      ensures State() == Act(old(State()), Replied(reply))
    {
      ghost var was := State();
      polling := polling - 1;
      ghost var back := State();
      assert back == was.(polling := was.polling - 1);
      if reply == TaggedError || reply == UntaggedError {
        Catch(reply);
      } else {
        Answered(reply);
      }
      assert State() == Resume(back, reply);
    }

    method Catch(reply: Reply)
      requires reply == TaggedError || reply == UntaggedError
      modifies this`timers, this`pollTimer, this`nextTimer, this`deadline, this`linking, this`consecutivePollErrors
      ensures State() == Resume(old(State()), reply)
    {
      if reply == TaggedError {
        Fail();
        return;
      }
      consecutivePollErrors := consecutivePollErrors + 1;
      if consecutivePollErrors >= POLL_ERROR_LIMIT {
        Fail();
        return;
      }
      Schedule(currentIntervalSec);
    }

    method Answered(reply: Reply)
      requires reply != TaggedError && reply != UntaggedError
      modifies this
      ensures State() == Resume(old(State()), reply)
    {
      consecutivePollErrors := 0;
      assert State() == old(State()).(errors := 0);
      if reply == Pending {
        Schedule(currentIntervalSec);
      } else if reply == Authorized {
        Stop();
        deadline := None;
        fetching := fetching + 1;
      } else if reply == SlowDown {
        currentIntervalSec := currentIntervalSec + 5;
        grant := grant.(slowDowns := grant.slowDowns + 1);
        Schedule(currentIntervalSec);
      } else {
        Fail();
      }
    }

    /** `finishAuthorized` from its await on, whether the account came or not. */
    method AccountResolved()
      requires fetching > 0
      modifies this`fetching, this`linking
      ensures State() == Act(old(State()), AccountArrived)
    {
      fetching := fetching - 1;
      linking := false;
    }

    method CancelLink()
      modifies this`timers, this`pollTimer, this`deadline, this`linking
      ensures State() == Act(old(State()), Cancel)
    {
      Stop();
      deadline := None;
      linking := false;
    }
  }
}
