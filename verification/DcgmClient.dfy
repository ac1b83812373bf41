/**
 The DCGM client: `collect` folds polled field values into per-device statistics,
 `getDeviceMetrics` copies them for a scrape, and `pollClient` alternates the two.
 */
module DcgmClient {
  import opened Go
  import opened DcgmStats

  datatype DeviceInfo = DeviceInfo(model: string, uuid: string)

  /**
   One polled value. `sentinel` says that the decoded value is one of DCGM's blank or error codes;
   `info` is the answer of the device lookup, should this value need one.
   */
  datatype Entry = Entry(isGpu: bool, gpu: nat, field: string, value: FieldValue, sentinel: bool,
                         info: Option<DeviceInfo>)

  predicate IsValidValue(e: Entry) {
    Numeric(e.value) && !e.sentinel
  }

  /** The answer of `GetValuesSince`. */
  datatype Poll = PollError | Polled(values: seq<Entry>, time: int)

  // ------------------------------------------------------------------
  // What a sequence of polled values means
  // ------------------------------------------------------------------

  type Key = (nat, string)

  /** The devices seen, and the statistics of each metric of each device. */
  datatype Devices = Devices(info: map<nat, DeviceInfo>, stats: map<Key, Stats>)

  const NO_DEVICES: Devices := Devices(map[], map[])

  predicate KnownAt(info: map<nat, DeviceInfo>, e: Entry) {
    e.isGpu && (e.gpu in info || e.info.Some?)
  }

  function Discover(info: map<nat, DeviceInfo>, e: Entry): map<nat, DeviceInfo> {
    if KnownAt(info, e) && e.gpu !in info then info[e.gpu := e.info.value] else info
  }

  /** The value reaches a metric: a GPU's, its device known, and not a sentinel. */
  predicate Uses(info: map<nat, DeviceInfo>, e: Entry) {
    KnownAt(info, e) && IsValidValue(e)
  }

  function StatsOf(stats: map<Key, Stats>, key: Key): Stats {
    if key in stats then stats[key] else NEW
  }

  function Ingest(d: Devices, e: Entry): Devices {
    var key := (e.gpu, e.field);
    Devices(Discover(d.info, e),
            if Uses(d.info, e) then d.stats[key := Updated(StatsOf(d.stats, key), e.value)] else d.stats)
  }

  function IngestAll(d: Devices, es: seq<Entry>): Devices {
    if es == [] then d else Ingest(IngestAll(d, es[..|es| - 1]), es[|es| - 1])
  }

  lemma {:induction false} IngestConcat(d: Devices, a: seq<Entry>, b: seq<Entry>)
    ensures IngestAll(d, a + b) == IngestAll(IngestAll(d, a), b)
  {
    if b == [] {
      assert a + b == a;
    } else {
      assert (a + b)[..|a + b| - 1] == a + b[..|b| - 1];
      IngestConcat(d, a, b[..|b| - 1]);
    }
  }

  /** The lookup of device `g` has succeeded during these values. */
  predicate Discovered(es: seq<Entry>, g: nat) {
    exists j | 0 <= j < |es| :: es[j].isGpu && es[j].gpu == g && es[j].info.Some?
  }

  /** The valid values of one field of one device, from its discovery on. */
  function ValuesOf(key: Key, es: seq<Entry>): seq<FieldValue> {
    if es == [] then []
    else
      var k := |es| - 1;
      var e := es[k];
      ValuesOf(key, es[..k])
      + (if e.isGpu && (e.gpu, e.field) == key && !e.value.OtherField? && !e.sentinel && Discovered(es, key.0)
         then [e.value] else [])
  }

  lemma DiscoveredGrows(es: seq<Entry>, g: nat)
    requires es != []
    ensures var k := |es| - 1;
            Discovered(es, g) <==> Discovered(es[..k], g) || (es[k].isGpu && es[k].gpu == g && es[k].info.Some?)
  {
    var k := |es| - 1;
    if Discovered(es[..k], g) {
      var j :| 0 <= j < k && es[..k][j].isGpu && es[..k][j].gpu == g && es[..k][j].info.Some?;
      assert es[j].isGpu;
    }
    if Discovered(es, g) {
      var j :| 0 <= j < |es| && es[j].isGpu && es[j].gpu == g && es[j].info.Some?;
      if j < k {
        assert es[..k][j].isGpu;
      }
    }
  }

  function MetricOf(d: Devices, key: Key): Option<Stats> {
    if key in d.stats then Some(d.stats[key]) else None
  }

  /** What one value does to one metric of one device. */
  lemma IngestAt(d: Devices, e: Entry, key: Key)
    ensures var d' := Ingest(d, e);
            && (key.0 in d'.info <==> key.0 in d.info || (e.isGpu && e.gpu == key.0 && e.info.Some?))
            && MetricOf(d', key)
               == if e.isGpu && (e.gpu, e.field) == key && IsValidValue(e) && key.0 in d'.info
                  then Some(Updated(MetricOf(d, key).GetOr(NEW), e.value)) else MetricOf(d, key)
  {
    hide Updated;
  }

  /** Each metric of each device is the fold of `Update` over that device's and field's own valid values. */
  lemma {:induction false} MetricsAreFolds(es: seq<Entry>, key: Key)
    ensures var d, vs := IngestAll(NO_DEVICES, es), ValuesOf(key, es);
            && (key.0 in d.info <==> Discovered(es, key.0))
            && MetricOf(d, key) == if vs == [] then None else Some(After(vs))
  {
    if es != [] {
      var k := |es| - 1;
      MetricsAreFolds(es[..k], key);
      DiscoveredGrows(es, key.0);
      IngestAt(IngestAll(NO_DEVICES, es[..k]), es[k], key);
      hide Updated, Ingest, MetricOf, Discovered;
      var vs, vs' := ValuesOf(key, es[..k]), ValuesOf(key, es);
      if vs' != vs {
        assert vs'[..|vs'| - 1] == vs;
      }
    }
  }

  /** The answer of the first lookup of device `g` that succeeded. */
  predicate FirstAnswer(es: seq<Entry>, g: nat, j: nat) {
    && j < |es| && es[j].isGpu && es[j].gpu == g && es[j].info.Some?
    && forall i | 0 <= i < j && es[i].isGpu && es[i].gpu == g :: es[i].info.None?
  }

  /** A device is described by the first lookup that succeeded, and never again by another. */
  lemma {:induction false} DeviceIsFirstAnswer(es: seq<Entry>, g: nat, j: nat)
    requires FirstAnswer(es, g, j)
    ensures var info := IngestAll(NO_DEVICES, es).info; g in info && info[g] == es[j].info.value
  {
    hide Updated, StatsOf;
    var k := |es| - 1;
    if j < k {
      assert forall i | 0 <= i < k :: es[..k][i] == es[i];
      DeviceIsFirstAnswer(es[..k], g, j);
    } else {
      MetricsAreFolds(es[..k], (g, ""));
      assert !Discovered(es[..k], g);
    }
  }

  lemma {:induction false} ValuesGrow(key: Key, es: seq<Entry>, more: seq<Entry>)
    ensures ValuesOf(key, es) <= ValuesOf(key, es + more)
  {
    if more == [] {
      assert es + more == es;
    } else {
      ValuesGrow(key, es, more[..|more| - 1]);
      assert (es + more)[..|es + more| - 1] == es + more[..|more| - 1];
    }
  }

  /**
   A later snapshot of the same session still has every metric of an earlier one, with a timestamp that is no
   older and, for non-negative rates, no fewer integrated seconds.
   */
  lemma SnapshotsNeverGoBack(es: seq<Entry>, more: seq<Entry>, key: Key)
    ensures var a, b := MetricOf(IngestAll(NO_DEVICES, es), key), MetricOf(IngestAll(NO_DEVICES, es + more), key);
            var acc := Accepted(ValuesOf(key, es + more));
            && (a.Some? ==> b.Some?)
            && (a.Some? && a.value.last.Some? ==>
                  b.value.last.Some? && a.value.last.value.ts <= b.value.last.value.ts)
            && (a.Some? && InRange(acc) && NonNegativeRates(acc) ==> a.value.seconds <= b.value.seconds)
  {
    MetricsAreFolds(es, key);
    MetricsAreFolds(es + more, key);
    ValuesGrow(key, es, more);
    var vs, vs' := ValuesOf(key, es), ValuesOf(key, es + more);
    assert vs' == vs + vs'[|vs|..];
    if After(vs).last.Some? {
      TimestampNeverDecreases(vs, vs'[|vs|..]);
    }
    if InRange(Accepted(vs')) && NonNegativeRates(Accepted(vs')) {
      SecondsNeverDecrease(vs, vs'[|vs|..]);
    }
  }

  // ------------------------------------------------------------------
  // The delays
  // ------------------------------------------------------------------

  const MILLISECOND: int := 1_000_000
  const SECOND: int := 1000 * MILLISECOND
  const MICROSECOND: int := 1000

  const MAX_KEEP_SAMPLES: int := 100
  const SCRAPE_POLLING_INTERVAL: int := 100 * MILLISECOND

  /** The oldest timestamp used, from `math.MaxInt64` down. */
  function Oldest(d: Devices, es: seq<Entry>): Int64 {
    if es == [] then INT64_MAX
    else
      var k := |es| - 1;
      var o := Oldest(d, es[..k]);
      if Uses(IngestAll(d, es[..k]).info, es[k]) then Min(o, es[k].value.ts) else o
  }

  /** The newest timestamp used, from 0 up. */
  function Newest(d: Devices, es: seq<Entry>): Int64 {
    if es == [] then 0
    else
      var k := |es| - 1;
      var n := Newest(d, es[..k]);
      if Uses(IngestAll(d, es[..k]).info, es[k]) then Max(n, es[k].value.ts) else n
  }

  /** `time.Duration(newest-oldest) * time.Microsecond`, in int64. */
  function Span(oldest: Int64, newest: Int64): Int64 {
    Wrap64(Wrap64(newest - oldest) * MICROSECOND)
  }

  function CollectDuration(oldest: Int64, newest: Int64): (d: Int64)
    ensures d >= 10 * SECOND
  {
    Max(Span(oldest, newest), SCRAPE_POLLING_INTERVAL * MAX_KEEP_SAMPLES)
  }

  /** The timestamp of a used value. */
  predicate UsedAt(d: Devices, es: seq<Entry>, ts: Int64) {
    exists k :: 0 <= k < |es| && Uses(IngestAll(d, es[..k]).info, es[k]) && es[k].value.ts == ts
  }

  lemma UsedStep(d: Devices, es: seq<Entry>, ts: Int64)
    requires es != []
    ensures var n := |es| - 1;
            UsedAt(d, es, ts) <==>
              UsedAt(d, es[..n], ts) || (Uses(IngestAll(d, es[..n]).info, es[n]) && es[n].value.ts == ts)
  {
    hide Uses, IngestAll;
    var n := |es| - 1;
    assert forall k | 0 <= k < n :: es[..n][..k] == es[..k] && es[..n][k] == es[k];
    if UsedAt(d, es[..n], ts) {
      var k :| 0 <= k < n && Uses(IngestAll(d, es[..n][..k]).info, es[..n][k]) && es[..n][k].value.ts == ts;
      assert Uses(IngestAll(d, es[..k]).info, es[k]);
    }
    if UsedAt(d, es, ts) {
      var k :| 0 <= k < |es| && Uses(IngestAll(d, es[..k]).info, es[k]) && es[k].value.ts == ts;
      if k < n {
        assert Uses(IngestAll(d, es[..n][..k]).info, es[..n][k]);
      }
    }
  }

  /** Of the timestamps used the oldest and the newest: each is one of them or the value the search starts from. */
  lemma {:induction false} OldestAndNewest(d: Devices, es: seq<Entry>, ts: Int64)
    ensures UsedAt(d, es, ts) ==> Oldest(d, es) <= ts <= Newest(d, es)
    ensures Oldest(d, es) == INT64_MAX || UsedAt(d, es, Oldest(d, es))
    ensures Newest(d, es) == 0 || UsedAt(d, es, Newest(d, es))
  {
    hide Uses, IngestAll, UsedAt;
    if es != [] {
      OldestAndNewest(d, es[..|es| - 1], ts);
      UsedStep(d, es, ts);
      UsedStep(d, es, Oldest(d, es));
      UsedStep(d, es, Newest(d, es));
    } else {
      assert !UsedAt(d, [], ts) by { NoneUsed(d, ts); }
    }
  }

  lemma NoneUsed(d: Devices, ts: Int64)
    ensures !UsedAt(d, [], ts)
  {
  }

  /** From the oldest to the newest microsecond in nanoseconds, but ten seconds at least. */
  lemma DurationOfSpan(oldest: Int64, newest: Int64)
    requires 0 <= newest - oldest <= INT64_MAX / 1000
    ensures CollectDuration(oldest, newest) == Max(1000 * (newest - oldest), 10_000_000_000)
  {
  }

  /** A poll that returned nothing usable spans a negative time that wraps around to one microsecond. */
  lemma EmptyPollWraps(d: Devices, es: seq<Entry>)
    requires forall k | 0 <= k < |es| :: !Uses(IngestAll(d, es[..k]).info, es[k])
    ensures Span(Oldest(d, es), Newest(d, es)) == MICROSECOND
  {
    NothingUsed(d, es);
  }

  lemma {:induction false} NothingUsed(d: Devices, es: seq<Entry>)
    requires forall k | 0 <= k < |es| :: !Uses(IngestAll(d, es[..k]).info, es[k])
    ensures Oldest(d, es) == INT64_MAX && Newest(d, es) == 0
  {
    if es != [] {
      var n := |es| - 1;
      forall k | 0 <= k < n ensures !Uses(IngestAll(d, es[..n][..k]).info, es[..n][k]) {
        assert es[..n][..k] == es[..k];
      }
      NothingUsed(d, es[..n]);
    }
  }

  function WaitTime(collectionInterval: Int64, collected: Int64): (w: int) {
    Max(100 * MILLISECOND, Quo(Min(collectionInterval, collected), 2))
  }

  /**
   Every delay is at least 100 ms, and polling happens twice per collection interval exactly when
   that interval is at least 200 ms. Then it is half of the shorter of that interval and the samples' span.
   */
  lemma PollsTwicePerInterval(collectionInterval: Int64, collected: Int64)
    ensures WaitTime(collectionInterval, collected) >= 100 * MILLISECOND
    ensures 2 * WaitTime(collectionInterval, collected) <= collectionInterval <==> collectionInterval >= 200 * MILLISECOND
    ensures var w, shorter := WaitTime(collectionInterval, collected), Min(collectionInterval, collected);
            if shorter < 200 * MILLISECOND then w == 100 * MILLISECOND else 2 * w <= shorter < 2 * w + 2
  {
    QuoRem(Min(collectionInterval, collected), 2);
  }

  // ------------------------------------------------------------------
  // The devices on the heap
  // ------------------------------------------------------------------

  /** A device map as the client holds it and as a scrape receives it: the statistics are behind pointers. */
  datatype DeviceMetrics = DeviceMetrics(info: map<nat, DeviceInfo>, metrics: map<Key, MetricStats>)

  ghost function Pointees(cells: set<MetricStats>): set<FieldBox>
    reads cells
  {
    set c | c in cells && c.lastFieldValue != null :: c.lastFieldValue
  }

  /** These devices currently read as `d`; no two metrics share their statistics. */
  ghost predicate ReadsAs(ds: DeviceMetrics, d: Devices)
    reads ds.metrics.Values, Pointees(ds.metrics.Values)
  {
    && ds.info == d.info
    && ds.metrics.Keys == d.stats.Keys
    && (forall k | k in ds.metrics :: ds.metrics[k].key == k && ds.metrics[k].State() == d.stats[k])
  }

  /** The devices after one more poll. */
  function Polls(enabledFields: nat, d: Devices, poll: Poll): Devices {
    if enabledFields > 0 && poll.Polled? then IngestAll(d, poll.values) else d
  }

  class Client {
    const enabledFields: nat
    var devices: DeviceMetrics
    var lastSuccessfulPoll: int
    ghost var state: Devices
    ghost var cells: set<MetricStats>

    ghost predicate Valid()
      reads this, cells, Pointees(cells)
    {
      devices.metrics.Values <= cells && ReadsAs(devices, state)
    }

    constructor (enabledFields: nat, now: int)
      ensures Valid() && cells == {} && state == NO_DEVICES
      ensures this.enabledFields == enabledFields && lastSuccessfulPoll == now
    {
      this.enabledFields := enabledFields;
      devices, state, cells := DeviceMetrics(map[], map[]), NO_DEVICES, {};
      lastSuccessfulPoll := now;
    }

    /** The device of a GPU's value, looked up at its first appearance. */
    method EnsureDevice(e: Entry) returns (known: bool)
      requires Valid() && e.isGpu
      modifies this`devices, this`state
      ensures Valid() && devices.metrics == old(devices.metrics)
      ensures state == Devices(Discover(old(state).info, e), old(state).stats)
      ensures known == KnownAt(old(state).info, e)
    {
      state := state.(info := Discover(state.info, e));
      known := true;
      if e.gpu !in devices.info {
        if e.info.None? {
          return false;
        }
        devices := devices.(info := devices.info[e.gpu := e.info.value]);
      }
    }

    /** Updates a metric, whose statistics are allocated at its first valid value. */
    method UpdateMetric(key: Key, value: FieldValue)
      requires Valid()
      modifies this`devices, this`state, this`cells, cells
      ensures Valid() && fresh(cells - old(cells)) && devices.info == old(devices.info)
      ensures state == old(state).(stats := old(state).stats[key := Updated(StatsOf(old(state).stats, key), value)])
    {
      hide Updated, MetricStats.State;
      state := state.(stats := state.stats[key := Updated(StatsOf(state.stats, key), value)]);
      if key !in devices.metrics {
        var cell := new MetricStats(key);
        devices := devices.(metrics := devices.metrics[key := cell]);
        cells := cells + {cell};
      }
      assert devices.metrics[key] in devices.metrics.Values;
      devices.metrics[key].Update(value);
    }

    /** One turn of the loop in `collect`. `used` tells that the value reached its metric. */
    method ProcessFieldValue(e: Entry) returns (used: bool)
      requires Valid()
      modifies this`devices, this`state, this`cells, cells
      ensures Valid() && fresh(cells - old(cells))
      ensures state == Ingest(old(state), e)
      ensures used == Uses(old(state).info, e)
    {
      hide Updated, StatsOf, ReadsAs;
      used := false;
      if !e.isGpu {
        return;
      }
      var known := EnsureDevice(e);
      used := known && IsValidValue(e);
      if used {
        UpdateMetric((e.gpu, e.field), e.value);
      }
    }

    /** Polls once. With no field enabled nothing is polled; a failed poll changes nothing. */
    method Collect(poll: Poll) returns (duration: Int64, failed: bool)
      requires Valid()
      modifies this, cells
      ensures Valid() && fresh(cells - old(cells))
      ensures state == Polls(enabledFields, old(state), poll)
      ensures failed <==> enabledFields > 0 && poll.PollError?
      ensures enabledFields > 0 && poll.Polled? ==>
                lastSuccessfulPoll == poll.time &&
                duration == CollectDuration(Oldest(old(state), poll.values), Newest(old(state), poll.values))
      ensures enabledFields == 0 || poll.PollError? ==>
                lastSuccessfulPoll == old(lastSuccessfulPoll) && duration == 0
    {
      hide Updated, Ingest, CollectDuration, MetricStats.State;
      if enabledFields == 0 {
        return 0, false;
      }
      if poll.PollError? {
        return 0, true;
      }
      lastSuccessfulPoll := poll.time;
      var es := poll.values;
      ghost var d := state;
      var oldestTs: Int64, newestTs: Int64 := INT64_MAX, 0;
      for k := 0 to |es|
        invariant Valid() && fresh(cells - old(cells))
        invariant lastSuccessfulPoll == poll.time
        invariant state == IngestAll(d, es[..k])
        invariant oldestTs == Oldest(d, es[..k]) && newestTs == Newest(d, es[..k])
      {
        assert es[..k + 1][..k] == es[..k];
        var used := ProcessFieldValue(es[k]);
        if used {
          oldestTs := Min(oldestTs, es[k].value.ts);
          newestTs := Max(newestTs, es[k].value.ts);
        }
      }
      assert es[..|es|] == es;
      return CollectDuration(oldestTs, newestTs), false;
    }

    /** A deep copy of the devices. Only the pointees of `lastFieldValue` are shared. */
    method GetDeviceMetrics() returns (out: DeviceMetrics)
      requires Valid()
      ensures ReadsAs(out, state) && fresh(out.metrics.Values)
      ensures forall k | k in out.metrics ::
                k in devices.metrics && out.metrics[k].lastFieldValue == devices.metrics[k].lastFieldValue
    {
      hide MetricStats.State;
      out := DeviceMetrics(devices.info, map[]);
      var rest := devices.metrics.Keys;
      ghost var copies: set<MetricStats> := {};
      while rest != {}
        invariant rest + out.metrics.Keys == devices.metrics.Keys && rest !! out.metrics.Keys
        invariant out.info == devices.info && out.metrics.Values <= copies && fresh(copies)
        invariant forall k | k in out.metrics ::
                    && out.metrics[k].key == k
                    && out.metrics[k].State() == devices.metrics[k].State()
                    && out.metrics[k].lastFieldValue == devices.metrics[k].lastFieldValue
        decreases rest
      {
        var k :| k in rest;
        var newValue := new MetricStats.Copy(devices.metrics[k]);
        out := out.(metrics := out.metrics[k := newValue]);
        copies := copies + {newValue};
        rest := rest - {k};
      }
    }
  }

  // ------------------------------------------------------------------
  // A whole session of polls and deliveries
  // ------------------------------------------------------------------

  /** One turn of the outer loop in `pollClient`: a poll, then this many deliveries before it polls again or stops. */
  datatype Round = Round(poll: Poll, deliveries: nat)

  function AfterRounds(enabledFields: nat, d: Devices, rounds: seq<Round>): Devices {
    if rounds == [] then d
    else
      var k := |rounds| - 1;
      Polls(enabledFields, AfterRounds(enabledFields, d, rounds[..k]), rounds[k].poll)
  }

  /** What the deliveries of a session have to read as: the devices after the polls so far. */
  function Deliveries(enabledFields: nat, d: Devices, rounds: seq<Round>): seq<Devices> {
    if rounds == [] then []
    else
      var k := |rounds| - 1;
      Deliveries(enabledFields, d, rounds[..k])
      + seq(rounds[k].deliveries, _ => AfterRounds(enabledFields, d, rounds))
  }

  /** The delay after a poll; one that failed is tried again after ten seconds, as far as the interval allows. */
  function RoundWait(enabledFields: nat, d: Devices, collectionInterval: Int64, poll: Poll): (w: int)
    ensures w >= 100_000_000
    ensures enabledFields > 0 && poll.PollError? && collectionInterval >= 10_000_000_000 ==> w == 5_000_000_000
    ensures enabledFields == 0 ==> w == 100_000_000
  {
    WaitTime(collectionInterval,
             if enabledFields == 0 then 0
             else if poll.PollError? then 10 * SECOND
             else CollectDuration(Oldest(d, poll.values), Newest(d, poll.values)))
  }

  /** The delays of a session, each after the poll of its round. */
  function Waits(enabledFields: nat, d: Devices, collectionInterval: Int64, rounds: seq<Round>): (ws: seq<int>)
    ensures |ws| == |rounds|
  {
    if rounds == [] then []
    else
      var k := |rounds| - 1;
      Waits(enabledFields, d, collectionInterval, rounds[..k])
      + [RoundWait(enabledFields, AfterRounds(enabledFields, d, rounds[..k]), collectionInterval, rounds[k].poll)]
  }

  /** Delivered map number `k` currently reads as `ds[k]`. */
  ghost predicate AllRead(delivered: seq<DeviceMetrics>, ds: seq<Devices>, copies: set<MetricStats>)
    reads copies, Pointees(copies)
  {
    && |delivered| == |ds|
    && forall k | 0 <= k < |delivered| :: delivered[k].metrics.Values <= copies && ReadsAs(delivered[k], ds[k])
  }

  /** The inner loop of `pollClient`: a new snapshot for every delivery. */
  method Deliver(client: Client, deliveries: nat, before: seq<DeviceMetrics>,
                 ghost ds: seq<Devices>, ghost known: set<MetricStats>)
    returns (delivered: seq<DeviceMetrics>, ghost copies: set<MetricStats>)
    requires client.Valid() && AllRead(before, ds, known)
    ensures var d := client.state;
            AllRead(delivered, ds + seq(deliveries, _ => d), copies)
    ensures fresh(copies - known)
  {
    hide MetricStats.State;
    delivered, copies := before, known;
    ghost var d := client.state;
    for i := 0 to deliveries
      invariant AllRead(delivered, ds + seq(i, _ => d), copies)
      invariant fresh(copies - known)
    {
      var deviceMetrics := client.GetDeviceMetrics();
      delivered, copies := delivered + [deviceMetrics], copies + deviceMetrics.metrics.Values;
    }
  }

  /**
   Runs a session. At its end every map delivered along the way still reads as the devices did when it was
   delivered, whatever has been collected since.
   */
  method PollClient(client: Client, collectionInterval: Int64, rounds: seq<Round>)
    returns (delivered: seq<DeviceMetrics>, ghost copies: set<MetricStats>, waits: seq<int>)
    requires client.Valid()
    modifies client, client.cells
    ensures client.Valid() && client.state == AfterRounds(client.enabledFields, old(client.state), rounds)
    ensures AllRead(delivered, Deliveries(client.enabledFields, old(client.state), rounds), copies)
    ensures waits == Waits(client.enabledFields, old(client.state), collectionInterval, rounds)
  {
    hide Polls, MetricStats.State, WaitTime, CollectDuration, Oldest, Newest;
    ghost var n, d := client.enabledFields, client.state;
    delivered, waits, copies := [], [], {};
    for r := 0 to |rounds|
      invariant client.Valid() && fresh(client.cells - old(client.cells))
      invariant client.state == AfterRounds(n, d, rounds[..r])
      invariant AllRead(delivered, Deliveries(n, d, rounds[..r]), copies)
      invariant fresh(copies) && copies !! client.cells
      invariant waits == Waits(n, d, collectionInterval, rounds[..r])
    {
      assert rounds[..r + 1][..r] == rounds[..r];
      var waitTime, failed := client.Collect(rounds[r].poll);
      if failed {
        waitTime := 10 * SECOND;
      }
      waits := waits + [WaitTime(collectionInterval, waitTime)];
      delivered, copies := Deliver(client, rounds[r].deliveries, delivered, Deliveries(n, d, rounds[..r]), copies);
    }
    assert rounds[..|rounds|] == rounds;
  }
}
