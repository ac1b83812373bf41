/**
 The DCGM scraper as a state machine: any number of scrapes, one goroutine that connects, polls and serves,
 a trigger channel of capacity 1 and an unbuffered metrics channel. Every interleaving is a sequence of actions.
 */
module ScraperProtocol {
  import opened Go
  import opened DcgmStats
  import opened DcgmClient

  // ------------------------------------------------------------------
  // States
  // ------------------------------------------------------------------

  /** One connection to DCGM. `polls` is a history variable: the collects completed so far. */
  datatype Session = Session(id: nat, enabledFields: nat, devices: Devices, polls: seq<Poll>)

  /** Where the goroutine of `runConnectLoop` is. */
  datatype Loop =
    | Connecting                                  // about to call initClient
    | Collecting(session: Session)                // in pollClient, about to call collect
    | Serving(session: Session, offer: Devices)   // at the select of pollClient
    | Idling                                      // at the select of runConnectLoop
    | Returning                                   // has seen the cancellation; the deferred close is next
    | Stopped

  /** Where a delivered map came from. */
  datatype Origin = Closed | NoClient | FromSession(session: Session)

  datatype Scrape = Triggering | Waiting | Received(metrics: Devices, origin: Origin) | Abandoned

  /** `served` is a history variable: the sessions as they were at each delivery from a session, in order. */
  datatype State = State(loop: Loop, tokens: nat, closes: nat, cancelled: bool, scrapes: map<nat, Scrape>,
                         sessions: nat, served: seq<Session>)

  const INIT: State := State(Connecting, 0, 0, false, map[], 0, [])

  const TRIGGER_CAPACITY: nat := 1

  // ------------------------------------------------------------------
  // Actions
  // ------------------------------------------------------------------

  datatype Action =
    | ScrapeStarts(i: nat)
    | ScrapeTriggers(i: nat)
    | ScrapeGivesUp(i: nat)
    | ScrapeReadsClosed(i: nat)
    | Cancel
    | InitFails
    | InitSucceeds(enabledFields: nat)
    | Collects(poll: Poll)
    | ServeSeesCancel
    | ServeTakesTrigger
    | ServeDelivers(i: nat)
    | ServeTimesOut
    | IdleSeesCancel
    | IdleDelivers(i: nat)
    | IdleTimesOut
    | Close

  predicate IsWaiting(s: State, i: nat) {
    i in s.scrapes && s.scrapes[i].Waiting?
  }

  predicate Enabled(s: State, a: Action) {
    match a
    case ScrapeStarts(i) => i !in s.scrapes
    case ScrapeTriggers(i) => i in s.scrapes && s.scrapes[i].Triggering?
    case ScrapeGivesUp(i) => IsWaiting(s, i)
    case ScrapeReadsClosed(i) => IsWaiting(s, i) && s.closes > 0
    case Cancel => true
    case InitFails => s.loop.Connecting?
    case InitSucceeds(_) => s.loop.Connecting?
    case Collects(_) => s.loop.Collecting?
    case ServeSeesCancel => s.loop.Serving? && s.cancelled
    case ServeTakesTrigger => s.loop.Serving? && s.tokens > 0
    case ServeDelivers(i) => s.loop.Serving? && IsWaiting(s, i)
    case ServeTimesOut => s.loop.Serving?
    case IdleSeesCancel => s.loop.Idling? && s.cancelled
    case IdleDelivers(i) => s.loop.Idling? && IsWaiting(s, i)
    case IdleTimesOut => s.loop.Idling?
    case Close => s.loop.Returning?
  }

  function Apply(s: State, a: Action): State
    requires Enabled(s, a)
  {
    match a
    case ScrapeStarts(i) => s.(scrapes := s.scrapes[i := Triggering])
    case ScrapeTriggers(i) =>
      // A send on a full channel falls through to the default branch.
      s.(tokens := if s.tokens < TRIGGER_CAPACITY then s.tokens + 1 else s.tokens,
         scrapes := s.scrapes[i := Waiting])
    case ScrapeGivesUp(i) => s.(scrapes := s.scrapes[i := Abandoned])
    case ScrapeReadsClosed(i) => s.(scrapes := s.scrapes[i := Received(NO_DEVICES, Closed)])
    case Cancel => s.(cancelled := true)
    case InitFails => s.(loop := Idling)
    case InitSucceeds(n) =>
      s.(loop := Collecting(Session(s.sessions, n, NO_DEVICES, [])), sessions := s.sessions + 1)
    case Collects(poll) =>
      var c := s.loop.session;
      var c' := c.(devices := Polls(c.enabledFields, c.devices, poll), polls := c.polls + [poll]);
      s.(loop := Serving(c', c'.devices))
    case ServeSeesCancel => s.(loop := Idling)
    case ServeTakesTrigger => s.(loop := Collecting(s.loop.session), tokens := s.tokens - 1)
    case ServeDelivers(i) =>
      s.(loop := Serving(s.loop.session, s.loop.session.devices),
         scrapes := s.scrapes[i := Received(s.loop.offer, FromSession(s.loop.session))],
         served := s.served + [s.loop.session])
    case ServeTimesOut => s.(loop := Collecting(s.loop.session))
    case IdleSeesCancel => s.(loop := Returning)
    case IdleDelivers(i) => s.(loop := Connecting, scrapes := s.scrapes[i := Received(NO_DEVICES, NoClient)])
    case IdleTimesOut => s.(loop := Connecting)
    case Close => s.(loop := Stopped, closes := s.closes + 1)
  }

  predicate Feasible(run: seq<Action>)
    decreases |run|, 0
  {
    run == [] || (Feasible(run[..|run| - 1]) && Enabled(Reach(run[..|run| - 1]), run[|run| - 1]))
  }

  function Reach(run: seq<Action>): State
    requires Feasible(run)
    decreases |run|, 1
  {
    if run == [] then INIT else Apply(Reach(run[..|run| - 1]), run[|run| - 1])
  }

  /** A run goes on with whatever is possible where it has got to. */
  lemma RunGoesOn(run: seq<Action>, a: Action)
    ensures Feasible([]) && Reach([]) == INIT
    ensures Feasible(run + [a]) <==> Feasible(run) && Enabled(Reach(run), a)
    ensures Feasible(run + [a]) ==> Reach(run + [a]) == Apply(Reach(run), a)
  {
    assert (run + [a])[..|run|] == run;
    hide Apply, Enabled;
  }

  // ------------------------------------------------------------------
  // Safety
  // ------------------------------------------------------------------

  /** The values of the collects completed in a session. */
  function ValuesPolled(enabledFields: nat, polls: seq<Poll>): seq<Entry> {
    if polls == [] then []
    else
      var p := polls[|polls| - 1];
      ValuesPolled(enabledFields, polls[..|polls| - 1]) + (if enabledFields > 0 && p.Polled? then p.values else [])
  }

  /** The devices are what the completed collects add up to. */
  predicate SessionSound(c: Session) {
    c.devices == IngestAll(NO_DEVICES, ValuesPolled(c.enabledFields, c.polls))
  }

  predicate LoopSound(loop: Loop) {
    && (loop.Collecting? || loop.Serving? ==> SessionSound(loop.session))
    && (loop.Serving? ==> loop.offer == loop.session.devices && loop.session.polls != [])
  }

  /** A delivered map is empty, or the devices of its session as they were. */
  predicate ScrapeSound(r: Scrape) {
    r.Received? ==>
      match r.origin
      case Closed => r.metrics == NO_DEVICES
      case NoClient => r.metrics == NO_DEVICES
      case FromSession(c) => SessionSound(c) && r.metrics == c.devices && c.polls != []
  }

  predicate ChannelsSound(s: State) {
    && s.tokens <= 1
    && s.closes == (if s.loop.Stopped? then 1 else 0)
    && (s.loop.Returning? || s.loop.Stopped? ==> s.cancelled)
    && (forall i | i in s.scrapes && s.scrapes[i].Received? && s.scrapes[i].origin.Closed? :: s.loop.Stopped?)
  }

  predicate Sound(s: State) {
    && ChannelsSound(s)
    && LoopSound(s.loop)
    && (forall i | i in s.scrapes :: ScrapeSound(s.scrapes[i]))
  }

  lemma CollectKeepsSessionSound(c: Session, poll: Poll)
    requires SessionSound(c)
    ensures SessionSound(c.(devices := Polls(c.enabledFields, c.devices, poll), polls := c.polls + [poll]))
  {
    assert (c.polls + [poll])[..|c.polls|] == c.polls;
    if c.enabledFields > 0 && poll.Polled? {
      IngestConcat(NO_DEVICES, ValuesPolled(c.enabledFields, c.polls), poll.values);
    } else {
      assert ValuesPolled(c.enabledFields, c.polls + [poll]) == ValuesPolled(c.enabledFields, c.polls);
    }
  }

  lemma StepKeepsChannels(s: State, a: Action)
    requires Sound(s) && Enabled(s, a)
    ensures ChannelsSound(Apply(s, a))
  {
    hide SessionSound, ScrapeSound, LoopSound, Polls;
  }

  lemma StepKeepsLoop(s: State, a: Action)
    requires Sound(s) && Enabled(s, a)
    ensures LoopSound(Apply(s, a).loop)
  {
    if a.Collects? {
      CollectKeepsSessionSound(s.loop.session, a.poll);
    }
    hide SessionSound, ScrapeSound, ChannelsSound, Polls;
  }

  lemma StepKeepsScrapes(s: State, a: Action)
    requires Sound(s) && Enabled(s, a)
    ensures forall i | i in Apply(s, a).scrapes :: ScrapeSound(Apply(s, a).scrapes[i])
  {
    hide SessionSound, ChannelsSound, Polls;
  }

  lemma StepKeepsSound(s: State, a: Action)
    requires Sound(s) && Enabled(s, a)
    ensures Sound(Apply(s, a))
  {
    hide Apply, Enabled, ChannelsSound, LoopSound, ScrapeSound;
    StepKeepsChannels(s, a);
    StepKeepsLoop(s, a);
    StepKeepsScrapes(s, a);
  }

  /** Every reachable state of every interleaving is sound. */
  lemma {:induction false} RunsAreSound(run: seq<Action>)
    requires Feasible(run)
    ensures Sound(Reach(run))
  {
    if run != [] {
      RunsAreSound(run[..|run| - 1]);
      StepKeepsSound(Reach(run[..|run| - 1]), run[|run| - 1]);
    }
  }

  predicate IsSend(a: Action) {
    a.ServeDelivers? || a.IdleDelivers?
  }

  /** The metrics channel is closed only after cancellation, ... */
  lemma ClosedOnlyAfterCancel(run: seq<Action>, i: nat)
    requires Feasible(run) && i < |run| && run[i].Close?
    ensures Cancel in run[..i]
  {
    hide Apply, SessionSound, ScrapeSound;
    StepAt(run, i);
    RunsAreSound(run[..i]);
    CancelledByCancel(run[..i]);
  }

  /** ... at most once, and nothing is sent on it afterwards. */
  lemma NothingAfterClose(run: seq<Action>, i: nat, j: nat)
    requires Feasible(run) && i < j < |run| && run[i].Close?
    ensures !run[j].Close? && !IsSend(run[j])
  {
    hide Apply;
    StepAt(run, j);
    StaysStopped(run[..j], i + 1);
  }

  lemma StepAt(run: seq<Action>, i: nat)
    requires Feasible(run) && i < |run|
    ensures Feasible(run[..i]) && Enabled(Reach(run[..i]), run[i])
  {
    hide Apply, Enabled;
    FeasiblePrefix(run, i + 1);
    assert run[..i + 1][..i] == run[..i];
  }

  lemma {:induction false} FeasiblePrefix(run: seq<Action>, n: nat)
    requires Feasible(run) && n <= |run|
    ensures Feasible(run[..n])
  {
    if n == |run| {
      assert run[..n] == run;
    } else {
      FeasiblePrefix(run[..|run| - 1], n);
      assert run[..|run| - 1][..n] == run[..n];
    }
  }

  lemma {:induction false} CancelledByCancel(run: seq<Action>)
    requires Feasible(run)
    ensures Reach(run).cancelled <==> Cancel in run
  {
    if run != [] {
      CancelledByCancel(run[..|run| - 1]);
      assert run == run[..|run| - 1] + [run[|run| - 1]];
    }
  }

  lemma {:induction false} StaysStopped(run: seq<Action>, n: nat)
    requires Feasible(run) && 0 < n <= |run| && run[n - 1].Close?
    ensures Reach(run).loop.Stopped?
    decreases |run| - n
  {
    if n < |run| {
      assert run[..|run| - 1][..n] == run[..n];
      StaysStopped(run[..|run| - 1], n);
    }
  }

  /** Some scrape triggered a collect that the loop has not taken up since. */
  predicate TriggerPending(run: seq<Action>) {
    exists i :: 0 <= i < |run| && run[i].ScrapeTriggers? && forall j | i < j < |run| :: !run[j].ServeTakesTrigger?
  }

  lemma PendingStep(run: seq<Action>)
    requires run != []
    ensures var k := |run| - 1;
            TriggerPending(run) <==>
              run[k].ScrapeTriggers? || (TriggerPending(run[..k]) && !run[k].ServeTakesTrigger?)
  {
    var k := |run| - 1;
    assert forall i | 0 <= i < k :: run[..k][i] == run[i];
    if TriggerPending(run) && !run[k].ScrapeTriggers? {
      var i :| 0 <= i < |run| && run[i].ScrapeTriggers? && forall j | i < j < |run| :: !run[j].ServeTakesTrigger?;
      assert run[..k][i].ScrapeTriggers?;
    }
    if TriggerPending(run[..k]) && !run[k].ServeTakesTrigger? {
      var i :| 0 <= i < k && run[..k][i].ScrapeTriggers? && forall j | i < j < k :: !run[..k][j].ServeTakesTrigger?;
      assert run[i].ScrapeTriggers?;
    }
  }

  /** The trigger channel holds one token exactly while a trigger is pending: none is lost, and several make one. */
  lemma {:induction false} TokenIsPendingTrigger(run: seq<Action>)
    requires Feasible(run)
    ensures Reach(run).tokens == if TriggerPending(run) then 1 else 0
  {
    hide TriggerPending, Polls;
    if run == [] {
      assert !TriggerPending([]) by { NothingPending(); }
    } else {
      TokenIsPendingTrigger(run[..|run| - 1]);
      PendingStep(run);
    }
  }

  lemma NothingPending()
    ensures !TriggerPending([])
  {
  }

  /** Each scrape is answered at most once: what it received, or that it gave up, stays. */
  lemma {:induction false} ScrapeIsSettledOnce(run: seq<Action>, k: nat, i: nat)
    requires Feasible(run) && k <= |run| && Feasible(run[..k]) && i in Reach(run[..k]).scrapes
    requires Reach(run[..k]).scrapes[i].Received? || Reach(run[..k]).scrapes[i].Abandoned?
    ensures i in Reach(run).scrapes && Reach(run).scrapes[i] == Reach(run[..k]).scrapes[i]
  {
    hide Apply, Enabled;
    if k == |run| {
      assert run[..k] == run;
    } else {
      var n := |run| - 1;
      assert run[..n][..k] == run[..k];
      ScrapeIsSettledOnce(run[..n], k, i);
      SettledStep(Reach(run[..n]), run[n], i);
    }
  }

  lemma SettledStep(s: State, a: Action, i: nat)
    requires Enabled(s, a) && i in s.scrapes && (s.scrapes[i].Received? || s.scrapes[i].Abandoned?)
    ensures i in Apply(s, a).scrapes && Apply(s, a).scrapes[i] == s.scrapes[i]
  {
    hide Polls;
  }

  /** As long as nothing is cancelled there is one session at most, and the loop stays in it. */
  lemma {:induction false} OneSessionUntilCancelled(run: seq<Action>)
    requires Feasible(run) && Cancel !in run
    ensures var s := Reach(run);
            if s.loop.Collecting? || s.loop.Serving? then s.sessions == 1 && s.loop.session.id == 0
            else s.sessions == 0 && (s.loop.Connecting? || s.loop.Idling?)
  {
    hide Polls;
    if run != [] {
      var k := |run| - 1;
      assert run == run[..k] + [run[k]];
      OneSessionUntilCancelled(run[..k]);
      CancelledByCancel(run[..k]);
    }
  }

  // ------------------------------------------------------------------
  // What a scrape receives
  // ------------------------------------------------------------------

  /** The valid values of one metric that a delivered map accounts for. */
  function ValuesBehind(origin: Origin, key: Key): seq<FieldValue> {
    if origin.FromSession? then ValuesOf(key, ValuesPolled(origin.session.enabledFields, origin.session.polls)) else []
  }

  /** Each delivered metric is the fold of `Update` over the valid values its session had collected. */
  lemma DeliveredMetricIsFold(run: seq<Action>, i: nat, key: Key)
    requires Feasible(run) && i in Reach(run).scrapes && Reach(run).scrapes[i].Received?
    ensures var r := Reach(run).scrapes[i];
            var vs := ValuesBehind(r.origin, key);
            MetricOf(r.metrics, key) == if vs == [] then None else Some(After(vs))
  {
    RunsAreSound(run);
    var r := Reach(run).scrapes[i];
    assert ScrapeSound(r);
    hide Sound;
    if r.origin.FromSession? {
      MetricsAreFolds(ValuesPolled(r.origin.session.enabledFields, r.origin.session.polls), key);
    }
  }

  /** The same session, later: it has completed no fewer collects. */
  predicate Extends(c: Session, c': Session) {
    c.enabledFields == c'.enabledFields && c.polls <= c'.polls
  }

  predicate ServedInOrder(s: State) {
    && (forall k | 0 <= k < |s.served| :: SessionSound(s.served[k]) && s.served[k].id < s.sessions)
    && (forall k, m | 0 <= k < m < |s.served| && s.served[k].id == s.served[m].id :: Extends(s.served[k], s.served[m]))
  }

  predicate SessionIsNewest(s: State) {
    s.loop.Collecting? || s.loop.Serving? ==>
      && SessionSound(s.loop.session) && s.loop.session.id < s.sessions
      && forall k | 0 <= k < |s.served| && s.served[k].id == s.loop.session.id :: Extends(s.served[k], s.loop.session)
  }

  /** The deliveries made so far, seen from the running session. */
  predicate History(s: State) {
    ServedInOrder(s) && SessionIsNewest(s)
  }

  lemma StepKeepsServed(s: State, a: Action)
    requires History(s) && Enabled(s, a)
    ensures ServedInOrder(Apply(s, a))
  {
    hide SessionSound, Polls, Extends;
  }

  lemma StepKeepsNewest(s: State, a: Action)
    requires History(s) && Enabled(s, a)
    ensures SessionIsNewest(Apply(s, a))
  {
    if a.Collects? {
      CollectKeepsSessionSound(s.loop.session, a.poll);
    }
    hide SessionSound, Polls;
  }

  lemma StepKeepsHistory(s: State, a: Action)
    requires History(s) && Enabled(s, a)
    ensures History(Apply(s, a))
  {
    hide Apply, Enabled, ServedInOrder, SessionIsNewest;
    StepKeepsServed(s, a);
    StepKeepsNewest(s, a);
  }

  lemma {:induction false} RunsKeepHistory(run: seq<Action>)
    requires Feasible(run)
    ensures History(Reach(run))
  {
    hide Apply, Enabled, SessionSound;
    if run != [] {
      RunsKeepHistory(run[..|run| - 1]);
      StepKeepsHistory(Reach(run[..|run| - 1]), run[|run| - 1]);
    }
  }

  lemma {:induction false} ValuesPolledGrow(n: nat, polls: seq<Poll>, more: seq<Poll>)
    ensures ValuesPolled(n, polls) <= ValuesPolled(n, polls + more)
  {
    if more == [] {
      assert polls + more == polls;
    } else {
      ValuesPolledGrow(n, polls, more[..|more| - 1]);
      assert (polls + more)[..|polls + more| - 1] == polls + more[..|more| - 1];
    }
  }

  /**
   Of two deliveries from one session the later keeps every metric of the earlier, with no older a timestamp
   and, for non-negative rates, no fewer integrated seconds.
   */
  lemma DeliveriesNeverGoBack(run: seq<Action>, k: nat, m: nat, key: Key)
    requires Feasible(run) && k < m < |Reach(run).served|
    requires Reach(run).served[k].id == Reach(run).served[m].id
    ensures var c, c' := Reach(run).served[k], Reach(run).served[m];
            var a, b := MetricOf(c.devices, key), MetricOf(c'.devices, key);
            var acc := Accepted(ValuesOf(key, ValuesPolled(c'.enabledFields, c'.polls)));
            && (a.Some? ==> b.Some?)
            && (a.Some? && a.value.last.Some? ==>
                  b.value.last.Some? && a.value.last.value.ts <= b.value.last.value.ts)
            && (a.Some? && InRange(acc) && NonNegativeRates(acc) ==> a.value.seconds <= b.value.seconds)
  {
    RunsKeepHistory(run);
    var c, c' := Reach(run).served[k], Reach(run).served[m];
    var n := c.enabledFields;
    assert Extends(c, c') && SessionSound(c) && SessionSound(c');
    hide Polls, IngestAll, ValuesOf, Updated, Accepted, InRange, NonNegativeRates, Feasible, Reach, ValuesPolled;
    var more := c'.polls[|c.polls|..];
    assert c'.polls == c.polls + more;
    ValuesPolledGrow(n, c.polls, more);
    var es, es' := ValuesPolled(n, c.polls), ValuesPolled(n, c'.polls);
    assert es' == es + es'[|es|..];
    SnapshotsNeverGoBack(es, es'[|es|..], key);
  }

  // ------------------------------------------------------------------
  // No scrape is left hanging
  // ------------------------------------------------------------------

  /** The action that would serve scrape `i` in this state, if the loop is at a point that offers one. */
  function Offer(s: State, i: nat): Option<Action> {
    match s.loop
    case Serving(_, _) => Some(ServeDelivers(i))
    case Idling => Some(IdleDelivers(i))
    case Stopped => Some(ScrapeReadsClosed(i))
    case _ => None
  }

  /** How many steps of its own the loop is away from such a point. */
  function Distance(loop: Loop): nat {
    match loop
    case Connecting => 2
    case Collecting(_) => 1
    case Returning => 1
    case _ => 0
  }

  predicate LoopStep(a: Action) {
    a.InitFails? || a.InitSucceeds? || a.Collects? || a.Close?
  }

  /**
   In every reachable state with a waiting scrape, either the loop offers it a map right now, or the loop can
   take a step of its own, and every such step, whatever DCGM answers, brings the loop closer to an offer.
   */
  lemma WaitingScrapeIsServed(run: seq<Action>, i: nat)
    requires Feasible(run) && IsWaiting(Reach(run), i)
    ensures var s := Reach(run);
            match Offer(s, i)
            case Some(a) => Enabled(s, a) && Apply(s, a).scrapes[i].Received?
            case None =>
              && Distance(s.loop) > 0
              && (Enabled(s, InitFails) || Enabled(s, Collects(PollError)) || Enabled(s, Close))
              && forall a | LoopStep(a) && Enabled(s, a) ::
                   IsWaiting(Apply(s, a), i) && Distance(Apply(s, a).loop) < Distance(s.loop)
  {
    RunsAreSound(run);
    hide SessionSound, ScrapeSound;
  }

  /** The loop's own way out from each point, once cancelled. */
  function WayOut(loop: Loop): seq<Action> {
    match loop
    case Connecting => [InitFails, IdleSeesCancel, Close]
    case Collecting(_) => [Collects(PollError), ServeSeesCancel, IdleSeesCancel, Close]
    case Serving(_, _) => [ServeSeesCancel, IdleSeesCancel, Close]
    case Idling => [IdleSeesCancel, Close]
    case Returning => [Close]
    case Stopped => []
  }

  /** Once cancelled, the loop can stop from wherever it is. */
  lemma CanAlwaysStop(run: seq<Action>)
    requires Feasible(run) && Cancel in run
    ensures var rest := WayOut(Reach(run).loop);
            Feasible(run + rest) && Reach(run + rest).loop.Stopped?
  {
    CancelledByCancel(run);
    var s := Reach(run);
    WayOutPerforms(s);
    Schedule(run, WayOut(s.loop));
  }

  lemma WayOutPerforms(s: State)
    requires s.cancelled
    ensures Performs(s, WayOut(s.loop)) && Outcome(s, WayOut(s.loop)).loop.Stopped?
    decreases |WayOut(s.loop)|
  {
    hide Polls;
    if WayOut(s.loop) != [] {
      var a := WayOut(s.loop)[0];
      assert WayOut(Apply(s, a).loop) == WayOut(s.loop)[1..];
      WayOutPerforms(Apply(s, a));
    }
  }

  /** Runs `rest` after `run` step by step. */
  predicate Performs(s: State, rest: seq<Action>)
    decreases rest
  {
    rest == [] || (Enabled(s, rest[0]) && Performs(Apply(s, rest[0]), rest[1..]))
  }

  function Outcome(s: State, rest: seq<Action>): State
    requires Performs(s, rest)
    decreases rest
  {
    if rest == [] then s else Outcome(Apply(s, rest[0]), rest[1..])
  }

  lemma {:induction false} Schedule(run: seq<Action>, rest: seq<Action>)
    requires Feasible(run) && Performs(Reach(run), rest)
    ensures Feasible(run + rest) && Reach(run + rest) == Outcome(Reach(run), rest)
    decreases rest
  {
    hide Apply, Enabled;
    if rest == [] {
      assert run + rest == run;
    } else {
      var run' := run + [rest[0]];
      assert run'[..|run'| - 1] == run;
      Schedule(run', rest[1..]);
      assert run' + rest[1..] == run + rest;
    }
  }

  // ------------------------------------------------------------------
  // What can happen
  // ------------------------------------------------------------------

  /** The loop's way from each point, with nothing cancelled, to the end of the next collect of a session. */
  function WayToCollect(loop: Loop, enabledFields: nat, poll: Poll): seq<Action> {
    match loop
    case Connecting => [InitSucceeds(enabledFields), Collects(poll)]
    case Collecting(_) => [Collects(poll)]
    case Serving(_, _) => [ServeTimesOut, Collects(poll)]
    case Idling => [IdleTimesOut, InitSucceeds(enabledFields), Collects(poll)]
    case _ => []
  }

  /** Until cancelled the loop can collect again from wherever it is, and then offers what was collected. */
  lemma CanAlwaysCollect(run: seq<Action>, enabledFields: nat, poll: Poll)
    requires Feasible(run) && Cancel !in run
    ensures var way := WayToCollect(Reach(run).loop, enabledFields, poll);
            && Feasible(run + way) && Reach(run + way).loop.Serving?
            && var c := Reach(run + way).loop.session;
               Reach(run + way).loop.offer == c.devices && c.polls != [] && c.polls[|c.polls| - 1] == poll
  {
    OneSessionUntilCancelled(run);
    CollectPerforms(Reach(run), enabledFields, poll);
    Schedule(run, WayToCollect(Reach(run).loop, enabledFields, poll));
  }

  lemma CollectPerforms(s: State, enabledFields: nat, poll: Poll)
    requires !s.loop.Returning? && !s.loop.Stopped?
    ensures var way := WayToCollect(s.loop, enabledFields, poll);
            && Performs(s, way)
            && var loop := Outcome(s, way).loop;
               && loop.Serving? && loop.offer == loop.session.devices
               && loop.session.polls != [] && loop.session.polls[|loop.session.polls| - 1] == poll
    decreases |WayToCollect(s.loop, enabledFields, poll)|
  {
    hide Polls;
    var way := WayToCollect(s.loop, enabledFields, poll);
    var s' := Apply(s, way[0]);
    if s.loop.Collecting? {
      OneMoreStep(s, way[0], []);
    } else {
      assert WayToCollect(s'.loop, enabledFields, poll) == way[1..];
      CollectPerforms(s', enabledFields, poll);
      assert [way[0]] + way[1..] == way;
      OneMoreStep(s, way[0], way[1..]);
    }
  }

  /** A new scrape can get the data of a collect that it triggered itself. */
  lemma TriggeredScrapeIsFresh(run: seq<Action>, i: nat, poll: Poll)
    requires Feasible(run) && Reach(run).loop.Serving? && i !in Reach(run).scrapes
    ensures var c := Reach(run).loop.session;
            var more := [ScrapeStarts(i), ScrapeTriggers(i), ServeTakesTrigger, Collects(poll), ServeDelivers(i)];
            && Feasible(run + more) && i in Reach(run + more).scrapes && Reach(run + more).scrapes[i].Received?
            && Reach(run + more).scrapes[i].metrics == Polls(c.enabledFields, c.devices, poll)
  {
    TokenIsPendingTrigger(run);
    TriggeredSteps(Reach(run), i, poll);
    Schedule(run, [ScrapeStarts(i), ScrapeTriggers(i), ServeTakesTrigger, Collects(poll), ServeDelivers(i)]);
  }

  lemma TriggeredSteps(s: State, i: nat, poll: Poll)
    requires s.loop.Serving? && i !in s.scrapes && s.tokens <= 1
    ensures var c := s.loop.session;
            var more := [ScrapeStarts(i), ScrapeTriggers(i), ServeTakesTrigger, Collects(poll), ServeDelivers(i)];
            && Performs(s, more) && i in Outcome(s, more).scrapes && Outcome(s, more).scrapes[i].Received?
            && Outcome(s, more).scrapes[i].metrics == Polls(c.enabledFields, c.devices, poll)
  {
    hide Polls;
    var s1 := Apply(s, ScrapeStarts(i));
    var s2 := Apply(s1, ScrapeTriggers(i));
    var s3 := Apply(s2, ServeTakesTrigger);
    var s4 := Apply(s3, Collects(poll));
    OneMoreStep(s4, ServeDelivers(i), []);
    OneMoreStep(s3, Collects(poll), [ServeDelivers(i)]);
    OneMoreStep(s2, ServeTakesTrigger, [Collects(poll), ServeDelivers(i)]);
    OneMoreStep(s1, ScrapeTriggers(i), [ServeTakesTrigger, Collects(poll), ServeDelivers(i)]);
    OneMoreStep(s, ScrapeStarts(i), [ScrapeTriggers(i), ServeTakesTrigger, Collects(poll), ServeDelivers(i)]);
  }

  lemma OneMoreStep(s: State, a: Action, rest: seq<Action>)
    requires Enabled(s, a) && Performs(Apply(s, a), rest)
    ensures Performs(s, [a] + rest) && Outcome(s, [a] + rest) == Outcome(Apply(s, a), rest)
  {
    hide Apply, Enabled;
    assert ([a] + rest)[1..] == rest;
  }

  /** A waiting scrape can give up at any time, and cancelling is always possible. */
  lemma ScrapeCanGiveUp(run: seq<Action>, i: nat)
    requires Feasible(run) && i in Reach(run).scrapes && Reach(run).scrapes[i].Waiting?
    ensures Feasible(run + [ScrapeGivesUp(i)]) && Reach(run + [ScrapeGivesUp(i)]).scrapes[i].Abandoned?
    ensures Feasible(run + [Cancel]) && Reach(run + [Cancel]).cancelled
  {
    hide Polls;
    assert (run + [ScrapeGivesUp(i)])[..|run|] == run && (run + [Cancel])[..|run|] == run;
  }
}
