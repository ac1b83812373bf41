/**
 The service-control exporter reports a component status only when it differs from the last one; the health agent
 keeps the newest OK and the newest recoverable error and decides on their timestamps alone.
 */
module StatusReporting {
  import opened Go

  /** `StatusNone` is the zero value; the last case stands for the statuses the exporter never reports. */
  datatype Status = StatusNone | StatusOK | RecoverableError | PermanentError | OtherStatus

  datatype Event = Event(status: Status, ts: int)

  // ------------------------------------------------------------------
  // The exporter
  // ------------------------------------------------------------------

  datatype Code = DeadlineExceeded | Unavailable | OtherCode

  /** An error of the Report call: whether it wraps `context.DeadlineExceeded`, and its gRPC status if it has one. */
  datatype ReportError = ReportError(contextDeadline: bool, code: Option<Code>)

  predicate ShouldRetry(e: ReportError) {
    e.contextDeadline || e.code == Some(DeadlineExceeded) || e.code == Some(Unavailable)
  }

  /** The status that one Report call leads to. */
  function StatusOf(err: Option<ReportError>): Status {
    match err
    case None => StatusOK
    case Some(e) => if ShouldRetry(e) then RecoverableError else PermanentError
  }

  /** What `pushReportRequest` returns to the retry machinery. */
  datatype PushResult = Delivered | Retry | GiveUp

  /** The status just before event `k`. */
  function StatusBefore(evs: seq<Event>, k: nat): Status
    requires k <= |evs|
  {
    if k == 0 then StatusNone else evs[k - 1].status
  }

  /** The stream with repetitions of the preceding status removed. */
  function Collapsed(evs: seq<Event>): seq<Event> {
    if evs == [] then []
    else
      var k := |evs| - 1;
      Collapsed(evs[..k]) + (if evs[k].status != StatusBefore(evs, k) then [evs[k]] else [])
  }

  class Exporter {
    var lastStatus: Status

    /** What the host has been told. */
    var reported: seq<Event>

    /** The statuses of all Report calls so far, in the order in which they took the lock. */
    ghost var outcomes: seq<Event>

    ghost predicate Valid()
      reads this
    {
      && lastStatus == StatusBefore(outcomes, |outcomes|)
      && reported == Collapsed(outcomes)
    }

    constructor ()
      ensures Valid() && outcomes == []
    {
      lastStatus, reported, outcomes := StatusNone, [], [];
    }

    method ReportStatus(ev: Event)
      requires Valid()
      modifies this
      ensures Valid() && outcomes == old(outcomes) + [ev]
    {
      assert (outcomes + [ev])[..|outcomes|] == outcomes;
      assert Collapsed(outcomes) + [] == Collapsed(outcomes);
      if lastStatus != ev.status {
        lastStatus := ev.status;
        reported := reported + [ev];
      }
      outcomes := outcomes + [ev];
    }

    /** The outcome branches of `pushReportRequest`, for the answer of the Report call at time `now`. */
    method PushReportRequest(err: Option<ReportError>, now: int) returns (result: PushResult)
      requires Valid()
      modifies this
      ensures Valid() && outcomes == old(outcomes) + [Event(StatusOf(err), now)]
      ensures result.Delivered? <==> err.None?
      ensures result.Retry? <==> err.Some? && (err.value.contextDeadline || err.value.code == Some(DeadlineExceeded)
                                               || err.value.code == Some(Unavailable))
      ensures outcomes[|outcomes| - 1].status
           == match result case Delivered => StatusOK case Retry => RecoverableError case GiveUp => PermanentError
    {
      if err.Some? {
        if ShouldRetry(err.value) {
          ReportStatus(Event(RecoverableError, now));
          return Retry;
        }
        ReportStatus(Event(PermanentError, now));
        return GiveUp;
      }
      ReportStatus(Event(StatusOK, now));
      return Delivered;
    }
  }

  // ------------------------------------------------------------------
  // The health agent
  // ------------------------------------------------------------------

  /** The first of the newest events with a status. */
  function Latest(evs: seq<Event>, st: Status): (r: Option<Event>)
    ensures r.Some? ==> r.value in evs && r.value.status == st
    ensures forall i | 0 <= i < |evs| && evs[i].status == st :: r.Some? && evs[i].ts <= r.value.ts
  {
    if evs == [] then None
    else
      var k := |evs| - 1;
      var r, e := Latest(evs[..k], st), evs[k];
      assert forall i | 0 <= i < k :: evs[i] == evs[..k][i];
      if e.status == st && (r.None? || r.value.ts < e.ts) then Some(e) else r
  }

  /** An error was seen that is newer than every OK. */
  predicate ErrorIsNewest(evs: seq<Event>) {
    var ok, error := Latest(evs, StatusOK), Latest(evs, RecoverableError);
    error.Some? && (ok.None? || error.value.ts > ok.value.ts)
  }

  /** An error was seen inside the check interval. */
  predicate RecentError(evs: seq<Event>, now: int, interval: int) {
    exists i :: 0 <= i < |evs| && evs[i].status == RecoverableError && evs[i].ts > now - interval
  }

  /** The verdict on these events: ready, no error newer than every OK, and none inside the check interval. */
  predicate Healthy(ready: bool, evs: seq<Event>, now: int, interval: int) {
    ready && !ErrorIsNewest(evs) && !RecentError(evs, now, interval)
  }

  lemma RecentErrorIsLatest(evs: seq<Event>, now: int, interval: int)
    ensures var error := Latest(evs, RecoverableError);
            RecentError(evs, now, interval) <==> error.Some? && error.value.ts > now - interval
  {
  }

  class HealthAgent {
    const errorCheckInterval: int
    var ready: bool
    var lastError: Option<Event>
    var lastOK: Option<Event>

    /** Everything delivered so far. */
    ghost var delivered: seq<Event>

    ghost predicate Valid()
      reads this
    {
      lastOK == Latest(delivered, StatusOK) && lastError == Latest(delivered, RecoverableError)
    }

    constructor (errorCheckInterval: int)
      ensures Valid() && delivered == [] && !ready && this.errorCheckInterval == errorCheckInterval
    {
      this.errorCheckInterval := errorCheckInterval;
      ready, lastError, lastOK, delivered := false, None, None, [];
    }

    method ComponentStatusChanged(event: Event)
      requires Valid()
      modifies this
      ensures Valid() && delivered == old(delivered) + [event] && ready == old(ready)
    {
      assert (delivered + [event])[..|delivered|] == delivered;
      delivered := delivered + [event];
      if event.status != StatusOK && event.status != RecoverableError {
        return;
      }
      if event.status == StatusOK {
        lastOK := UpdateStatus(lastOK, event, old(delivered));
      } else {
        lastError := UpdateStatus(lastError, event, old(delivered));
      }
    }

    /** Keeps the newest of the events with one status, the first of them if several are equally new. */
    static method UpdateStatus(st: Option<Event>, event: Event, ghost before: seq<Event>) returns (st': Option<Event>)
      requires st == Latest(before, event.status)
      ensures st' == Latest(before + [event], event.status)
    {
      assert (before + [event])[..|before|] == before;
      st' := st;
      if st.None? || st.value.ts < event.ts {
        st' := Some(event);
      }
    }

    /** From now on the verdict is that on the events. */
    method Ready()
      modifies this`ready
      ensures ready
      ensures forall now :: Healthy(ready, delivered, now, errorCheckInterval) <==>
                !ErrorIsNewest(delivered) && !RecentError(delivered, now, errorCheckInterval)
    {
      ready := true;
    }

    /** From now on the agent is unhealthy whatever was delivered. */
    method NotReady()
      modifies this`ready
      ensures !ready
      ensures forall now :: !Healthy(ready, delivered, now, errorCheckInterval)
    {
      ready := false;
    }

    method IsHealthy(now: int) returns (healthy: bool)
      requires Valid()
      ensures healthy == Healthy(ready, delivered, now, errorCheckInterval)
    {
      RecentErrorIsLatest(delivered, now, errorCheckInterval);
      hide RecentError;
      if !ready {
        return false;
      }
      if lastOK == None && lastError == None {
        return true;
      }
      if lastError == None {
        return true;
      }
      if lastOK == None {
        return false;
      }
      if lastError.value.ts > lastOK.value.ts {
        return false;
      }
      if lastError.value.ts > now - errorCheckInterval {
        return false;
      }
      return true;
    }
  }

  // ------------------------------------------------------------------
  // The verdict does not depend on the order of delivery
  // ------------------------------------------------------------------

  lemma LatestOfPermutation(a: seq<Event>, b: seq<Event>, st: Status)
    requires multiset(a) == multiset(b)
    ensures var x, y := Latest(a, st), Latest(b, st);
            x.Some? == y.Some? && (x.Some? ==> x.value.ts == y.value.ts)
  {
    var x, y := Latest(a, st), Latest(b, st);
    if x.Some? {
      assert x.value in multiset(b);
    }
    if y.Some? {
      assert y.value in multiset(a);
    }
  }

  /** Any reordering of the deliveries, even among equal timestamps, leads to the same verdict. */
  lemma OrderOfDeliveryIsIrrelevant(a: seq<Event>, b: seq<Event>, ready: bool, now: int, interval: int)
    requires multiset(a) == multiset(b)
    ensures Healthy(ready, a, now, interval) == Healthy(ready, b, now, interval)
  {
    LatestOfPermutation(a, b, StatusOK);
    LatestOfPermutation(a, b, RecoverableError);
    RecentErrorIsLatest(a, now, interval);
    RecentErrorIsLatest(b, now, interval);
    hide RecentError;
  }

  // ------------------------------------------------------------------
  // What collapsing does to the verdict
  // ------------------------------------------------------------------

  predicate Increasing(evs: seq<Event>) {
    forall i, j | 0 <= i < j < |evs| :: evs[i].ts < evs[j].ts
  }

  /** All of these events from `c` to `f` have status `st`. */
  predicate Streak(evs: seq<Event>, st: Status, c: Event, f: Event) {
    && c in evs && c.ts <= f.ts
    && forall i | 0 <= i < |evs| && c.ts <= evs[i].ts <= f.ts :: evs[i].status == st
  }

  lemma StreakGrows(evs: seq<Event>, st: Status, c: Event, f: Event)
    requires Increasing(evs) && evs != [] && Streak(evs[..|evs| - 1], st, c, f) && f in evs[..|evs| - 1]
    ensures Streak(evs, st, c, f)
    ensures f == evs[..|evs| - 1][|evs| - 2] && evs[|evs| - 1].status == st ==> Streak(evs, st, c, evs[|evs| - 1])
  {
    var k := |evs| - 1;
    assert forall i | 0 <= i < k :: evs[..k][i] == evs[i];
  }

  lemma StreakOfOne(evs: seq<Event>)
    requires Increasing(evs) && evs != []
    ensures var e := evs[|evs| - 1]; Streak(evs, e.status, e, e)
  {
  }

  /** A newest event of a status is the latest; one of another status changes nothing. */
  lemma LatestOfAppended(c: seq<Event>, e: Event, st: Status)
    ensures e.status == st && (forall x | x in c :: x.ts < e.ts) ==> Latest(c + [e], st) == Some(e)
    ensures e.status != st ==> Latest(c + [e], st) == Latest(c, st)
  {
    assert (c + [e])[..|c|] == c;
  }

  lemma NewestComesLast(evs: seq<Event>)
    requires Increasing(evs) && evs != []
    ensures var k := |evs| - 1; Increasing(evs[..k]) && forall x | x in evs[..k] :: x.ts < evs[k].ts
  {
  }

  /** Of increasing events the last is the newest of its status. */
  lemma LatestOfIncreasing(evs: seq<Event>)
    requires Increasing(evs) && evs != []
    ensures var e := evs[|evs| - 1]; Latest(evs, e.status) == Some(e)
  {
    var k := |evs| - 1;
    NewestComesLast(evs);
    assert evs == evs[..k] + [evs[k]];
    LatestOfAppended(evs[..k], evs[k], evs[k].status);
  }

  lemma {:induction false} CollapsedIsPart(evs: seq<Event>)
    ensures forall e | e in Collapsed(evs) :: e in evs
  {
    if evs != [] {
      CollapsedIsPart(evs[..|evs| - 1]);
    }
  }

  /**
   The newest event of a status in the collapsed stream starts the streak that the newest one in the full
   stream ends: everything between them has that status.
   */
  lemma {:induction false} CollapsedKeepsStreakStart(evs: seq<Event>, st: Status)
    requires Increasing(evs) && st != StatusNone
    ensures var c, f := Latest(Collapsed(evs), st), Latest(evs, st);
            && (c.Some? <==> f.Some?)
            && (c.Some? ==> Streak(evs, st, c.value, f.value))
  {
    hide Streak, Latest, Increasing;
    if evs != [] {
      var k := |evs| - 1;
      var e, before := evs[k], evs[..k];
      NewestComesLast(evs);
      CollapsedKeepsStreakStart(before, st);
      CollapsedIsPart(before);
      var c, f := Collapsed(before), Latest(before, st);
      assert evs == before + [e];
      LatestOfAppended(before, e, st);
      LatestOfAppended(c, e, st);
      if f.Some? {
        StreakGrows(evs, st, Latest(c, st).value, f.value);
      }
      if e.status == StatusBefore(evs, k) {
        assert Collapsed(evs) == c;
        if e.status == st {
          assert before[k - 1] == evs[k - 1];
          LatestOfIncreasing(before);
        }
      } else {
        StreakOfOne(evs);
      }
    }
  }

  // ------------------------------------------------------------------
  // The verdicts, which need no order inside a streak
  // ------------------------------------------------------------------

  predicate Counts(st: Status) {
    st == StatusOK || st == RecoverableError
  }

  /** Of an OK and an error the one reported later is newer. Among themselves they may come in any order. */
  predicate TurnsAreOrdered(evs: seq<Event>) {
    forall i, j | 0 <= i < j < |evs| && Counts(evs[i].status) && Counts(evs[j].status)
                  && evs[i].status != evs[j].status :: evs[i].ts < evs[j].ts
  }

  lemma IncreasingTurnsAreOrdered(evs: seq<Event>)
    requires Increasing(evs)
    ensures TurnsAreOrdered(evs)
  {
  }

  /** The status of the last event that counts. */
  function LastCounted(evs: seq<Event>): Option<Status> {
    if evs == [] then None
    else if Counts(evs[|evs| - 1].status) then Some(evs[|evs| - 1].status)
    else LastCounted(evs[..|evs| - 1])
  }

  lemma {:induction false} LastCountedIs(evs: seq<Event>)
    ensures match LastCounted(evs)
            case None => forall i | 0 <= i < |evs| :: !Counts(evs[i].status)
            case Some(st) => exists j :: 0 <= j < |evs| && evs[j].status == st && Counts(st)
                                      && forall i | j < i < |evs| :: !Counts(evs[i].status)
  {
    if evs != [] && !Counts(evs[|evs| - 1].status) {
      var before := evs[..|evs| - 1];
      LastCountedIs(before);
      assert forall i | 0 <= i < |before| :: before[i] == evs[i];
      if LastCounted(before).Some? {
        var st := LastCounted(before).value;
        var j :| 0 <= j < |before| && before[j].status == st && Counts(st)
              && forall i | j < i < |before| :: !Counts(before[i].status);
        assert evs[j].status == st && forall i | j < i < |evs| :: !Counts(evs[i].status);
      }
    }
  }

  /** An error is newer than every OK exactly if the last event that counts is one. */
  lemma NewestErrorIsLastCounted(evs: seq<Event>)
    requires TurnsAreOrdered(evs)
    ensures ErrorIsNewest(evs) <==> LastCounted(evs) == Some(RecoverableError)
  {
    LastCountedIs(evs);
    hide LastCounted;
    if LastCounted(evs).Some? {
      var st := LastCounted(evs).value;
      var j :| 0 <= j < |evs| && evs[j].status == st && Counts(st) && forall i | j < i < |evs| :: !Counts(evs[i].status);
      forall i | 0 <= i < |evs| && Counts(evs[i].status) && evs[i].status != st ensures evs[i].ts < evs[j].ts {
        assert i < j;
      }
    }
  }

  lemma TurnsAppended(c: seq<Event>, e: Event)
    requires TurnsAreOrdered(c)
    requires forall x | x in c && Counts(x.status) && Counts(e.status) && x.status != e.status :: x.ts < e.ts
    ensures TurnsAreOrdered(c + [e])
  {
  }

  lemma TurnsBefore(evs: seq<Event>)
    requires TurnsAreOrdered(evs) && evs != []
    ensures var before, e := evs[..|evs| - 1], evs[|evs| - 1];
            && TurnsAreOrdered(before)
            && forall x | x in before && Counts(x.status) && Counts(e.status) && x.status != e.status :: x.ts < e.ts
  {
    hide Counts;
  }

  lemma {:induction false} CollapsedTurns(evs: seq<Event>)
    requires TurnsAreOrdered(evs)
    ensures TurnsAreOrdered(Collapsed(evs)) && LastCounted(Collapsed(evs)) == LastCounted(evs)
  {
    hide TurnsAreOrdered, Counts;
    if evs != [] {
      var k := |evs| - 1;
      var before, e, c := evs[..k], evs[k], Collapsed(evs[..k]);
      TurnsBefore(evs);
      CollapsedTurns(before);
      CollapsedIsPart(before);
      if e.status != StatusBefore(evs, k) {
        TurnsAppended(c, e);
        assert (c + [e])[..|c|] == c;
      } else {
        assert Collapsed(evs) == c;
        SameStatusCounted(evs);
      }
    }
  }

  lemma SameStatusCounted(evs: seq<Event>)
    requires evs != [] && evs[|evs| - 1].status == StatusBefore(evs, |evs| - 1)
    ensures LastCounted(evs[..|evs| - 1]) == LastCounted(evs)
  {
    var k := |evs| - 1;
    assert k > 0 ==> evs[..k][k - 1] == evs[k - 1];
  }

  /** Both streams have the same statuses, and the collapsed one no newer error. */
  lemma {:induction false} CollapsedError(evs: seq<Event>)
    ensures var c, f := Latest(Collapsed(evs), RecoverableError), Latest(evs, RecoverableError);
            && (c.Some? <==> f.Some?)
            && (c.Some? ==> c.value.ts <= f.value.ts)
  {
    CollapsedIsPart(evs);
    if evs != [] {
      var k := |evs| - 1;
      CollapsedError(evs[..k]);
      assert evs == evs[..k] + [evs[k]];
      var c := Collapsed(evs[..k]);
      if evs[k].status == StatusBefore(evs, k) {
        assert Collapsed(evs) == c;
        assert k > 0 ==> evs[..k][k - 1] == evs[k - 1];
      } else {
        assert (c + [evs[k]])[..|c|] == c;
      }
    }
  }

  /** Whether an error is newer than every OK can be read off the collapsed stream. */
  lemma CollapsingKeepsNewestError(evs: seq<Event>)
    requires TurnsAreOrdered(evs)
    ensures ErrorIsNewest(Collapsed(evs)) <==> ErrorIsNewest(evs)
  {
    hide Collapsed, ErrorIsNewest, LastCounted, TurnsAreOrdered;
    CollapsedTurns(evs);
    NewestErrorIsLastCounted(evs);
    NewestErrorIsLastCounted(Collapsed(evs));
  }

  /** Collapsing can only hide an error: an agent that is healthy on the full stream is healthy on the collapsed one. */
  lemma CollapsingNeverAccuses(evs: seq<Event>, ready: bool, now: int, interval: int)
    requires TurnsAreOrdered(evs) && Healthy(ready, evs, now, interval)
    ensures Healthy(ready, Collapsed(evs), now, interval)
  {
    VerdictsDifferExactly(evs, ready, now, interval);
    hide Collapsed, TurnsAreOrdered, ErrorIsNewest, Latest;
    RecentErrorIsLatest(evs, now, interval);
  }

  /**
   The two verdicts differ exactly when the last streak of errors is over, and the newest error is inside the check
   interval while the newest that was reported is not: only the beginnings of streaks are reported.
   */
  lemma VerdictsDifferExactly(evs: seq<Event>, ready: bool, now: int, interval: int)
    requires TurnsAreOrdered(evs)
    ensures var full, collapsed := Latest(evs, RecoverableError), Latest(Collapsed(evs), RecoverableError);
            Healthy(ready, Collapsed(evs), now, interval) != Healthy(ready, evs, now, interval)
            <==> ready && full.Some? && collapsed.Some? && !ErrorIsNewest(evs)
                 && collapsed.value.ts <= now - interval < full.value.ts
  {
    CollapsingKeepsNewestError(evs);
    CollapsedError(evs);
    RecentErrorIsLatest(evs, now, interval);
    RecentErrorIsLatest(Collapsed(evs), now, interval);
    hide Collapsed, ErrorIsNewest, Latest, TurnsAreOrdered, RecentError;
  }

  /**
   With increasing timestamps all of this holds, and what the verdicts can differ in is one streak: the newest error
   reported starts the streak that the newest error ends.
   */
  lemma IncreasingVerdicts(evs: seq<Event>, ready: bool, now: int, interval: int)
    requires Increasing(evs)
    ensures Healthy(ready, evs, now, interval) ==> Healthy(ready, Collapsed(evs), now, interval)
    ensures Healthy(ready, evs, now, interval) != Healthy(ready, Collapsed(evs), now, interval) ==>
              var full, collapsed := Latest(evs, RecoverableError), Latest(Collapsed(evs), RecoverableError);
              full.Some? && collapsed.Some? && Streak(evs, RecoverableError, collapsed.value, full.value)
              && collapsed.value.ts <= now - interval < full.value.ts
  {
    hide Collapsed, Latest, Streak, Healthy;
    IncreasingTurnsAreOrdered(evs);
    VerdictsDifferExactly(evs, ready, now, interval);
    CollapsedKeepsStreakStart(evs, RecoverableError);
    if Healthy(ready, evs, now, interval) {
      CollapsingNeverAccuses(evs, ready, now, interval);
    }
  }

  /** An OK and an error at the same time are enough to accuse: on the full stream the error is not newer. */
  lemma EqualTimesAccuse()
    ensures var evs := [Event(StatusOK, 1), Event(StatusOK, 5), Event(RecoverableError, 5)];
            Healthy(true, evs, 9, 2) && !Healthy(true, Collapsed(evs), 9, 2)
  {
    var a, b, c := Event(StatusOK, 1), Event(StatusOK, 5), Event(RecoverableError, 5);
    assert [a, b, c][..2] == [a, b] && [a, b][..1] == [a] && [a][..0] == [];
    assert Collapsed([a]) == [a] && Collapsed([a, b]) == [a] && Collapsed([a, b, c]) == [a, c];
    assert [a, c][..1] == [a];
    assert Latest([a, b], StatusOK) == Some(b) && Latest([a, c], StatusOK) == Some(a);
    assert [a, c][1] == c;
  }

  /** If an OK is older than an error before it, collapsing can hide the newest error. */
  lemma OutOfOrderHidesNewestError()
    ensures var evs := [Event(RecoverableError, 1), Event(RecoverableError, 9), Event(StatusOK, 5)];
            ErrorIsNewest(evs) && !ErrorIsNewest(Collapsed(evs))
  {
    var a, b, c := Event(RecoverableError, 1), Event(RecoverableError, 9), Event(StatusOK, 5);
    assert [a, b, c][..2] == [a, b] && [a, b][..1] == [a] && [a][..0] == [];
    assert Collapsed([a]) == [a] && Collapsed([a, b]) == [a] && Collapsed([a, b, c]) == [a, c];
    assert [a, c][..1] == [a];
  }
}
