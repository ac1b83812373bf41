/** Batches that no stage of the agent metrics processor panics on. */
module AgentSupport {
  import opened Go
  import opened Pdata
  import opened AgentStages
  import opened AgentMetrics
  import LabelKeys
  import CombineProcess
  import CombineProcessStage
  import CombineProcessErrors
  import SplitReadWrite
  import Utilizations
  import UtilizationStage
  import AverageDisk
  import AverageDiskStage
  import AverageDiskRuns

  // ------------------------------------------------------------------
  // Metrics and scopes of the right shape
  // ------------------------------------------------------------------

  /** A label that neither the version stage nor the process labels touch. */
  predicate HasOwnLabel(p: Point) {
    exists k :: k in p.attrs && k != VERSION && k !in CombineProcess.LABELS
  }

  predicate AllOwnLabels(ps: seq<Point>) {
    forall i | 0 <= i < |ps| :: HasOwnLabel(ps[i])
  }

  predicate AllLabelled(ps: seq<Point>) {
    forall i | 0 <= i < |ps| :: AverageDisk.Labelled(ps[i])
  }

  /** What the utilization and the disk stage take for granted of a metric they work on. */
  predicate Shaped(m: Metric) {
    && (m.name == Utilizations.CPU_TIME ==> m.data.Sum?)
    && (Utilizations.HasUtilization(m.name) ==> AllOwnLabels(m.Points()))
    && (AverageDisk.IsDisk(m) ==> m.data.Sum? && AllLabelled(m.Points()))
  }

  predicate AllShaped(ms: seq<Metric>) {
    forall k | 0 <= k < |ms| :: Shaped(ms[k])
  }

  /** A metric that neither of these stages works on. */
  predicate Neutral(m: Metric) {
    !AverageDisk.IsDisk(m) && !Utilizations.HasUtilization(m.name)
  }

  predicate NoDisk(ms: seq<Metric>) {
    forall k | 0 <= k < |ms| :: !AverageDisk.IsDisk(ms[k])
  }

  /** The metric has a point of this device and direction. */
  predicate HasKey(m: Metric, key: AverageDisk.OpKey) {
    exists i :: 0 <= i < |m.Points()| && AverageDisk.KeyOfPoint(m.Points()[i]) == key
  }

  predicate Mentions(ms: seq<Metric>, name: string, key: AverageDisk.OpKey) {
    exists k :: 0 <= k < |ms| && ms[k].name == name && HasKey(ms[k], key)
  }

  /** Whatever is in one of the two disk metrics of a scope is in the other. */
  ghost predicate BothDisk(ms: seq<Metric>) {
    forall key :: Mentions(ms, AverageDisk.OP_NAME, key) <==> Mentions(ms, AverageDisk.OP_TIME_NAME, key)
  }

  ghost predicate Good(ms: seq<Metric>) {
    AllShaped(ms) && BothDisk(ms)
  }

  ghost predicate GoodScopes(scopes: seq<seq<Metric>>) {
    forall n | 0 <= n < |scopes| :: Good(scopes[n])
  }

  ghost predicate GoodResources(rms: seq<ResourceMetrics>) {
    forall i | 0 <= i < |rms| :: GoodScopes(rms[i].scopes)
  }

  /** The shape is kept, and of a disk metric the name and the keys of its points. */
  ghost predicate MetricKept(m: Metric, m': Metric) {
    && Shaped(m')
    && (AverageDisk.IsDisk(m) || AverageDisk.IsDisk(m') ==>
          m'.name == m.name && forall key :: HasKey(m', key) <==> HasKey(m, key))
  }

  ghost predicate ScopeKept(ms: seq<Metric>, ms': seq<Metric>) {
    |ms'| == |ms| && forall k | 0 <= k < |ms| :: MetricKept(ms[k], ms'[k])
  }

  lemma MentionsKept(ms: seq<Metric>, ms': seq<Metric>, name: string, key: AverageDisk.OpKey)
    requires ScopeKept(ms, ms') && (name == AverageDisk.OP_NAME || name == AverageDisk.OP_TIME_NAME)
    ensures Mentions(ms', name, key) <==> Mentions(ms, name, key)
  {
    hide Shaped, HasKey;
    if Mentions(ms, name, key) {
      var k :| 0 <= k < |ms| && ms[k].name == name && HasKey(ms[k], key);
      assert MetricKept(ms[k], ms'[k]);
    }
    if Mentions(ms', name, key) {
      var k :| 0 <= k < |ms'| && ms'[k].name == name && HasKey(ms'[k], key);
      assert MetricKept(ms[k], ms'[k]);
    }
  }

  lemma GoodKept(ms: seq<Metric>, ms': seq<Metric>)
    requires BothDisk(ms) && ScopeKept(ms, ms')
    ensures Good(ms')
  {
    hide Shaped, Mentions;
    forall key ensures Mentions(ms', AverageDisk.OP_NAME, key) <==> Mentions(ms', AverageDisk.OP_TIME_NAME, key) {
      MentionsKept(ms, ms', AverageDisk.OP_NAME, key);
      MentionsKept(ms, ms', AverageDisk.OP_TIME_NAME, key);
      hide ScopeKept;
    }
  }

  lemma MentionsAppended(ms: seq<Metric>, added: seq<Metric>, name: string, key: AverageDisk.OpKey)
    requires NoDisk(added) && (name == AverageDisk.OP_NAME || name == AverageDisk.OP_TIME_NAME)
    ensures Mentions(ms + added, name, key) <==> Mentions(ms, name, key)
  {
    hide HasKey;
    if Mentions(ms, name, key) {
      var k :| 0 <= k < |ms| && ms[k].name == name && HasKey(ms[k], key);
      assert (ms + added)[k] == ms[k];
    }
    if Mentions(ms + added, name, key) {
      var k :| 0 <= k < |ms + added| && (ms + added)[k].name == name && HasKey((ms + added)[k], key);
      assert k < |ms|;
    }
  }

  /** Metrics of other names may be added. */
  lemma GoodAppended(ms: seq<Metric>, added: seq<Metric>)
    requires Good(ms) && AllShaped(added) && NoDisk(added)
    ensures Good(ms + added)
  {
    hide Shaped, Mentions;
    forall key
      ensures Mentions(ms + added, AverageDisk.OP_NAME, key) <==> Mentions(ms + added, AverageDisk.OP_TIME_NAME, key)
    {
      MentionsAppended(ms, added, AverageDisk.OP_NAME, key);
      MentionsAppended(ms, added, AverageDisk.OP_TIME_NAME, key);
      hide NoDisk;
    }
  }

  lemma NeutralIsShaped(m: Metric)
    requires Neutral(m)
    ensures Shaped(m)
  {
  }

  /** Labels that the stages rewrite points by leave the others there, with their values but for `cpu`. */
  predicate PointKept(p: Point, p': Point) {
    forall k | k in p.attrs && k != VERSION && k !in CombineProcess.LABELS ::
      k in p'.attrs && (k == "cpu" || p'.attrs[k] == p.attrs[k])
  }

  predicate PointsKept(ps: seq<Point>, ps': seq<Point>) {
    |ps'| == |ps| && forall i | 0 <= i < |ps| :: PointKept(ps[i], ps'[i])
  }

  lemma PointStaysLabelled(p: Point, p': Point)
    requires PointKept(p, p')
    ensures HasOwnLabel(p) ==> HasOwnLabel(p')
    ensures AverageDisk.Labelled(p) ==>
              AverageDisk.Labelled(p') && AverageDisk.KeyOfPoint(p') == AverageDisk.KeyOfPoint(p)
  {
    assert "device" !in CombineProcess.LABELS && "direction" !in CombineProcess.LABELS;
  }

  /** A metric whose points keep their labels. */
  lemma RewrittenIsKept(m: Metric, m': Metric)
    requires Shaped(m) && m'.name == m.name && PointsKept(m.Points(), m'.Points())
    requires m.name == Utilizations.CPU_TIME || AverageDisk.IsDisk(m) ==> m'.data.Sum?
    ensures MetricKept(m, m')
  {
    hide HasOwnLabel, AverageDisk.Labelled, AverageDisk.KeyOfPoint, PointKept;
    forall i | 0 <= i < |m.Points()|
      ensures HasOwnLabel(m.Points()[i]) ==> HasOwnLabel(m'.Points()[i])
      ensures AverageDisk.Labelled(m.Points()[i]) ==>
                && AverageDisk.Labelled(m'.Points()[i])
                && AverageDisk.KeyOfPoint(m'.Points()[i]) == AverageDisk.KeyOfPoint(m.Points()[i])
    {
      PointStaysLabelled(m.Points()[i], m'.Points()[i]);
    }
  }

  // ------------------------------------------------------------------
  // The first two stages
  // ------------------------------------------------------------------

  predicate MonotonicSum(m: Metric) {
    m.data.Sum? && m.data.monotonic
  }

  /** A metric handed in: a Sum or Gauge, and what a later stage needs as a Sum is monotonic. */
  predicate Supported(m: Metric) {
    && !m.data.OtherData? && Shaped(m)
    && (m.name == Utilizations.CPU_TIME || AverageDisk.IsDisk(m) ==> MonotonicSum(m))
  }

  predicate AllSupported(ms: seq<Metric>) {
    forall k | 0 <= k < |ms| :: Supported(ms[k])
  }

  /** A metric after the first two stages. */
  function Rewritten(m: Metric): Metric {
    WithoutVersion(ToGauge(m))
  }

  lemma VersionlessKept(m: Metric)
    requires Supported(m)
    ensures MetricKept(m, Rewritten(m)) && !Rewritten(m).data.OtherData?
    ensures Rewritten(m).data.Sum? <==> MonotonicSum(m)
    ensures Rewritten(m).name == m.name
  {
    hide MapLabels, Shaped;
    var m' := Rewritten(m);
    assert PointsKept(m.Points(), m'.Points());
    RewrittenIsKept(m, m');
  }

  /** The scopes after the first two stages, metric by metric. */
  ghost predicate VersionlessScopes(scopes: seq<seq<Metric>>, scopes': seq<seq<Metric>>) {
    |scopes'| == |scopes|
    && forall n | 0 <= n < |scopes| ::
         |scopes'[n]| == |scopes[n]| && forall k | 0 <= k < |scopes[n]| :: scopes'[n][k] == Rewritten(scopes[n][k])
  }

  lemma FirstStagesAreVersionless(scopes: seq<seq<Metric>>, scopes': seq<seq<Metric>>)
    requires FirstStages(scopes, scopes')
    ensures VersionlessScopes(scopes, scopes')
  {
    hide MapMetrics, ToGauge, WithoutVersion;
    var gauged :| Mapped(ToGauge, scopes, gauged) && AllNumeric(gauged) && Mapped(WithoutVersion, gauged, scopes');
    forall n | 0 <= n < |scopes|
      ensures |scopes'[n]| == |scopes[n]| && forall k | 0 <= k < |scopes[n]| :: scopes'[n][k] == Rewritten(scopes[n][k])
    {
      assert gauged[n] == MapMetrics(scopes[n], ToGauge) && scopes'[n] == MapMetrics(gauged[n], WithoutVersion);
    }
  }

  lemma VersionlessIsGood(scopes: seq<seq<Metric>>, scopes': seq<seq<Metric>>)
    requires VersionlessScopes(scopes, scopes')
    requires forall n | 0 <= n < |scopes| :: AllSupported(scopes[n]) && BothDisk(scopes[n])
    ensures GoodScopes(scopes')
  {
    hide Rewritten, Supported, Good, BothDisk, MetricKept;
    forall n | 0 <= n < |scopes'| ensures Good(scopes'[n]) {
      forall k | 0 <= k < |scopes[n]| ensures MetricKept(scopes[n][k], scopes'[n][k]) {
        VersionlessKept(scopes[n][k]);
      }
      GoodKept(scopes[n], scopes'[n]);
    }
  }

  lemma NeverNotNumeric(scopes: seq<seq<Metric>>, gauged: seq<seq<Metric>>)
    requires Mapped(ToGauge, scopes, gauged)
    requires forall n | 0 <= n < |scopes| :: AllSupported(scopes[n])
    ensures AllNumeric(gauged)
  {
    hide MapMetrics, Shaped;
    forall n | 0 <= n < |gauged| ensures forall k | 0 <= k < |gauged[n]| :: !gauged[n][k].data.OtherData? {
      assert gauged[n] == MapMetrics(scopes[n], ToGauge) && AllSupported(scopes[n]);
    }
  }

  // ------------------------------------------------------------------
  // Combining
  // ------------------------------------------------------------------

  type Entry = CombineProcessStage.Entry

  /** The process metrics of one name are all monotonic Sums or none of them is. */
  predicate OneTypePerName(es: seq<Entry>) {
    forall i, j | 0 <= i < |es| && 0 <= j < |es| && es[i].metric.name == es[j].metric.name ::
      MonotonicSum(es[i].metric) == MonotonicSum(es[j].metric)
  }

  lemma {:induction false} FirstNamedOrigin(es: seq<Entry>, name: string) returns (i: nat)
    requires CombineProcessStage.FirstNamed(es, name).Some?
    ensures i < |es| && es[i].metric.name == name
    ensures CombineProcessStage.FirstNamed(es, name) == Some(CombineProcessStage.NewMetric(es[i].metric))
  {
    hide CombineProcessStage.NewMetric;
    var k := |es| - 1;
    if CombineProcessStage.FirstNamed(es[..k], name).Some? {
      i := FirstNamedOrigin(es[..k], name);
    } else {
      i := k;
    }
  }

  /** Entries whose types agree name by name never clash. */
  lemma NoClash(es: seq<Entry>, j: nat)
    requires j < |es| && !es[j].metric.data.OtherData?
    requires forall i | 0 <= i < |es| && es[i].metric.name == es[j].metric.name ::
      CombineProcessStage.SameType(es[i].metric, es[j].metric)
    ensures !CombineProcessErrors.Clashes(es, j)
  {
    if CombineProcessStage.FirstNamed(es[..j], es[j].metric.name).Some? {
      var i := FirstNamedOrigin(es[..j], es[j].metric.name);
      assert es[i] == es[..j][i];
    }
  }

  lemma {:induction false} NoClashNoPanic(es: seq<Entry>, n: nat)
    requires n <= |es| && forall j | 0 <= j < n :: !CombineProcessErrors.Clashes(es, j)
    ensures !CombineProcessStage.EntriesStatus(es[..n]).Panicked?
  {
    hide CombineProcessErrors.Clashes, CombineProcessErrors.Unlabellable, CombineProcessStage.Next;
    if n > 0 {
      NoClashNoPanic(es, n - 1);
      assert es[..n][..n - 1] == es[..n - 1] && es[..n][n - 1] == es[n - 1];
      CombineProcessErrors.NextIs(es, n - 1);
    }
  }

  /** Entries before and after the first two stages. */
  ghost predicate VersionlessEntries(es: seq<Entry>, es': seq<Entry>) {
    |es'| == |es| && forall i | 0 <= i < |es| :: es'[i].metric == Rewritten(es[i].metric)
  }

  lemma VersionlessEntriesConcat(a: seq<Entry>, a': seq<Entry>, b: seq<Entry>, b': seq<Entry>)
    requires VersionlessEntries(a, a') && VersionlessEntries(b, b')
    ensures VersionlessEntries(a + b, a' + b')
  {
    hide Rewritten;
  }

  lemma {:induction false} EntriesOfVersionless(ms: seq<Metric>, ms': seq<Metric>, resource: Attributes)
    requires |ms'| == |ms| && forall k | 0 <= k < |ms| :: ms'[k] == Rewritten(ms[k])
    ensures VersionlessEntries(CombineProcessStage.Entries(ms, resource), CombineProcessStage.Entries(ms', resource))
  {
    hide Rewritten;
    if ms != [] {
      EntriesOfVersionless(ms[..|ms| - 1], ms'[..|ms'| - 1], resource);
    }
  }

  lemma {:induction false} ProcessEntriesOfVersionless(scopes: seq<seq<Metric>>, scopes': seq<seq<Metric>>,
      owners: seq<Attributes>)
    requires VersionlessScopes(scopes, scopes') && |owners| == |scopes|
    ensures VersionlessEntries(CombineProcessStage.ProcessEntries(scopes, owners),
                               CombineProcessStage.ProcessEntries(scopes', owners))
  {
    hide Rewritten, VersionlessEntries, CombineProcessStage.Entries, CombineProcess.IncludesProcessAttributes;
    if scopes == [] {
      NoEntriesVersionless();
    } else {
      var k := |scopes| - 1;
      ProcessEntriesOfVersionless(scopes[..k], scopes'[..k], owners[..k]);
      NoEntriesVersionless();
      EntriesOfVersionless(scopes[k], scopes'[k], owners[k]);
      var a := CombineProcessStage.ProcessEntries(scopes[..k], owners[..k]);
      var a' := CombineProcessStage.ProcessEntries(scopes'[..k], owners[..k]);
      if CombineProcess.IncludesProcessAttributes(owners[k]) {
        VersionlessEntriesConcat(a, a', CombineProcessStage.Entries(scopes[k], owners[k]),
                                 CombineProcessStage.Entries(scopes'[k], owners[k]));
      } else {
        assert a + [] == a && a' + [] == a';
      }
    }
  }

  lemma NoEntriesVersionless()
    ensures VersionlessEntries([], [])
  {
  }

  /** A property of the metrics of all scopes is one of all entries. */
  lemma {:induction false} EntriesFrom(ms: seq<Metric>, resource: Attributes, i: nat) returns (k: nat)
    requires i < |CombineProcessStage.Entries(ms, resource)|
    ensures k < |ms| && CombineProcessStage.Entries(ms, resource)[i].metric == ms[k]
  {
    if i < |CombineProcessStage.Entries(ms[..|ms| - 1], resource)| {
      k := EntriesFrom(ms[..|ms| - 1], resource, i);
    } else {
      k := |ms| - 1;
    }
  }

  lemma {:induction false} ProcessEntriesFrom(scopes: seq<seq<Metric>>, owners: seq<Attributes>, i: nat)
      returns (n: nat, k: nat)
    requires |owners| == |scopes| && i < |CombineProcessStage.ProcessEntries(scopes, owners)|
    ensures n < |scopes| && CombineProcess.IncludesProcessAttributes(owners[n])
    ensures k < |scopes[n]| && CombineProcessStage.ProcessEntries(scopes, owners)[i].metric == scopes[n][k]
  {
    hide CombineProcess.IncludesProcessAttributes, CombineProcessStage.Entries;
    var l := |scopes| - 1;
    var before := CombineProcessStage.ProcessEntries(scopes[..l], owners[..l]);
    if i < |before| {
      n, k := ProcessEntriesFrom(scopes[..l], owners[..l], i);
    } else {
      n := l;
      k := EntriesFrom(scopes[l], owners[l], i - |before|);
    }
  }

  lemma {:induction false} OwnersOfShape(a: seq<ResourceMetrics>, b: seq<ResourceMetrics>)
    requires SameShape(a, b)
    ensures CombineProcessStage.Owners(a) == CombineProcessStage.Owners(b)
  {
    if a != [] {
      var k := |a| - 1;
      assert a[k].resource == b[k].resource && |a[k].scopes| == |b[k].scopes|;
      OwnersOfShape(a[..k], b[..k]);
    }
  }

  lemma {:induction false} OthersOfShape(a: seq<ResourceMetrics>, b: seq<ResourceMetrics>)
    requires SameShape(a, b)
    ensures SameShape(CombineProcessStage.Others(a), CombineProcessStage.Others(b))
  {
    hide CombineProcess.IncludesProcessAttributes;
    if a != [] {
      var k := |a| - 1;
      assert a[k].resource == b[k].resource && |a[k].scopes| == |b[k].scopes|;
      OthersOfShape(a[..k], b[..k]);
    }
  }

  // ------------------------------------------------------------------
  // A supported batch
  // ------------------------------------------------------------------

  /**
   What a caller can look up in the batch: Sums and Gauges only; CPU time and the disk metrics as monotonic Sums whose
   points have the labels that are asked of them; in each scope both disk metrics of a key or none; of processes no
   disk operations, and one type for each name; and a first resource that is no process, with a scope.
   */
  ghost predicate SupportedBatch(rms: seq<ResourceMetrics>) {
    && (forall n | 0 <= n < |Scopes(rms)| :: AllSupported(Scopes(rms)[n]) && BothDisk(Scopes(rms)[n]))
    && (forall n | 0 <= n < |Scopes(rms)| && CombineProcess.IncludesProcessAttributes(CombineProcessStage.Owners(rms)[n]) ::
          NoDisk(Scopes(rms)[n]))
    && OneTypePerName(CombineProcessStage.EntriesOf(rms))
    && CombineProcessStage.Others(rms) != [] && CombineProcessStage.Others(rms)[0].scopes != []
  }

  /** What a host's scraper hands over: CPU time and the two disk metrics, with the same devices and directions. */
  lemma HostBatchIsSupported(cpu: Metric, ops: Metric, time: Metric)
    requires Supported(cpu) && Supported(ops) && Supported(time)
    requires cpu.name == Utilizations.CPU_TIME && ops.name == AverageDisk.OP_NAME && time.name == AverageDisk.OP_TIME_NAME
    requires forall key :: HasKey(ops, key) <==> HasKey(time, key)
    ensures SupportedBatch([ResourceMetrics(map[], [[cpu, ops, time]])])
  {
    hide Supported, HasKey, Mentions, CombineProcessStage.EntriesOf, CombineProcessStage.Others, Scopes;
    hide CombineProcessStage.Owners;
    var ms := [cpu, ops, time];
    var rm := ResourceMetrics(map[], [ms]);
    OneResource(rm);
    NamesDiffer();
    forall key ensures Mentions(ms, AverageDisk.OP_NAME, key) <==> Mentions(ms, AverageDisk.OP_TIME_NAME, key) {
      MentionedOnce(ms, 1, key);
      MentionedOnce(ms, 2, key);
    }
  }

  lemma NamesDiffer()
    ensures Utilizations.CPU_TIME != AverageDisk.OP_NAME && Utilizations.CPU_TIME != AverageDisk.OP_TIME_NAME
    ensures AverageDisk.OP_NAME != AverageDisk.OP_TIME_NAME
  {
    assert |AverageDisk.OP_NAME| == 22 && |AverageDisk.OP_TIME_NAME| == 26 && |Utilizations.CPU_TIME| == 15;
  }

  /** Only the metric of a name speaks of it. */
  lemma MentionedOnce(ms: seq<Metric>, i: nat, key: AverageDisk.OpKey)
    requires i < |ms| && forall k | 0 <= k < |ms| && k != i :: ms[k].name != ms[i].name
    ensures Mentions(ms, ms[i].name, key) <==> HasKey(ms[i], key)
  {
    hide HasKey;
  }

  /** One disk read in one direction, as both disk metrics report it, and the idle time of one CPU. */
  lemma SmallBatchIsSupported(operations: int, busy: real, idle: real, ts: nat)
    ensures var disk: Attributes := map["device" := Str("sda"), "direction" := Str("read")];
            var ops := Metric("system.disk.operations", "", "1", Sum([Point(disk, 0, ts, Integer(operations))], true, 2));
            var time := Metric("system.disk.operation_time", "", "s", Sum([Point(disk, 0, ts, Real(busy))], true, 2));
            var state: Attributes := map["cpu" := Str("cpu0"), "state" := Str("idle")];
            var cpu := Metric("system.cpu.time", "", "s", Sum([Point(state, 0, ts, Real(idle))], true, 2));
            SupportedBatch([ResourceMetrics(map[], [[cpu, ops, time]])])
  {
    var disk: Attributes := map["device" := Str("sda"), "direction" := Str("read")];
    var p, q := Point(disk, 0, ts, Integer(operations)), Point(disk, 0, ts, Real(busy));
    var ops := Metric("system.disk.operations", "", "1", Sum([p], true, 2));
    var time := Metric("system.disk.operation_time", "", "s", Sum([q], true, 2));
    var state: Attributes := map["cpu" := Str("cpu0"), "state" := Str("idle")];
    var cpu := Metric("system.cpu.time", "", "s", Sum([Point(state, 0, ts, Real(idle))], true, 2));
    NamesDiffer();
    NoTriggers();
    assert ops.Points() == [p] && time.Points() == [q];
    assert AverageDisk.Labelled(p) && AverageDisk.Labelled(q);
    assert "cpu" in state && "cpu" != VERSION && "cpu" !in CombineProcess.LABELS by {
      assert |"cpu"| == 3 && |VERSION| == 15 && |"pid"| == 3 && "cpu"[0] != "pid"[0];
    }
    assert HasOwnLabel(cpu.Points()[0]);
    hide HasOwnLabel, Utilizations.HasUtilization, AverageDisk.Labelled;
    assert Supported(cpu) && Supported(ops) && Supported(time);
    hide Supported;
    forall key ensures HasKey(ops, key) <==> HasKey(time, key) {
      OnePointKey(ops, p, key);
      OnePointKey(time, q, key);
    }
    HostBatchIsSupported(cpu, ops, time);
  }

  lemma OnePointKey(m: Metric, p: Point, key: AverageDisk.OpKey)
    requires m.Points() == [p]
    ensures HasKey(m, key) <==> AverageDisk.KeyOfPoint(p) == key
  {
    hide AverageDisk.KeyOfPoint;
    if AverageDisk.KeyOfPoint(p) == key {
      assert AverageDisk.KeyOfPoint(m.Points()[0]) == key;
    }
  }

  lemma NoTriggers()
    ensures !Utilizations.HasUtilization(AverageDisk.OP_NAME) && !Utilizations.HasUtilization(AverageDisk.OP_TIME_NAME)
  {
    assert |AverageDisk.OP_NAME| == 22 && |AverageDisk.OP_TIME_NAME| == 26;
    assert |"system.cpu.time"| == 15 && |"system.memory.usage"| == 19 && |"system.paging.usage"| == 19;
    assert |"system.filesystem.usage"| == 23;
  }

  lemma OneResource(rm: ResourceMetrics)
    requires |rm.scopes| == 1 && !CombineProcess.IncludesProcessAttributes(rm.resource)
    ensures Scopes([rm]) == rm.scopes && CombineProcessStage.Owners([rm]) == [rm.resource]
    ensures CombineProcessStage.EntriesOf([rm]) == [] && CombineProcessStage.Others([rm]) == [rm]
  {
    hide CombineProcess.IncludesProcessAttributes;
    var none: seq<ResourceMetrics> := [];
    assert [rm][..0] == none && Scopes(none) == [] && CombineProcessStage.Owners(none) == [];
    assert CombineProcessStage.Others(none) == [];
    var scopes, owners := Scopes([rm]), CombineProcessStage.Owners([rm]);
    assert scopes == rm.scopes && owners == [rm.resource];
    assert scopes[..0] == [] && owners[..0] == [];
    assert CombineProcessStage.ProcessEntries(scopes[..0], owners[..0]) == [];
  }

  /** Each key remembered has a time point. */
  predicate Timed(prev: map<AverageDisk.OpKey, AverageDisk.OpData>) {
    forall key | key in prev :: prev[key].time.Some?
  }

  ghost predicate AfterVersion(rms: seq<ResourceMetrics>, v: seq<ResourceMetrics>) {
    SameShape(rms, v) && FirstStages(Scopes(rms), Scopes(v))
  }

  /** The entries that are combined are shaped, and none is a disk metric. */
  predicate EntriesShaped(es: seq<Entry>) {
    forall i | 0 <= i < |es| :: Shaped(es[i].metric) && !AverageDisk.IsDisk(es[i].metric)
  }

  lemma EntriesAreSupported(rms: seq<ResourceMetrics>, i: nat)
    requires SupportedBatch(rms) && i < |CombineProcessStage.EntriesOf(rms)|
    ensures var m := CombineProcessStage.EntriesOf(rms)[i].metric; Supported(m) && !AverageDisk.IsDisk(m)
  {
    hide Scopes, Supported, BothDisk, CombineProcessStage.ProcessEntries, CombineProcess.IncludesProcessAttributes;
    hide OneTypePerName, CombineProcessStage.Others;
    var n, k := ProcessEntriesFrom(Scopes(rms), CombineProcessStage.Owners(rms), i);
    assert AllSupported(Scopes(rms)[n]) && NoDisk(Scopes(rms)[n]);
  }

  lemma EntriesAfterVersion(rms: seq<ResourceMetrics>, v: seq<ResourceMetrics>)
    requires AfterVersion(rms, v)
    ensures VersionlessEntries(CombineProcessStage.EntriesOf(rms), CombineProcessStage.EntriesOf(v))
  {
    hide Scopes, CombineProcessStage.ProcessEntries, FirstStages, VersionlessEntries, Rewritten;
    OwnersOfShape(rms, v);
    FirstStagesAreVersionless(Scopes(rms), Scopes(v));
    ProcessEntriesOfVersionless(Scopes(rms), Scopes(v), CombineProcessStage.Owners(rms));
  }

  lemma VersionlessEntriesShaped(rms: seq<ResourceMetrics>, v: seq<ResourceMetrics>)
    requires SupportedBatch(rms) && AfterVersion(rms, v)
    ensures EntriesShaped(CombineProcessStage.EntriesOf(v))
  {
    hide SupportedBatch, AfterVersion, Supported, Rewritten, CombineProcessStage.EntriesOf, Shaped;
    EntriesAfterVersion(rms, v);
    var es, es' := CombineProcessStage.EntriesOf(rms), CombineProcessStage.EntriesOf(v);
    forall i | 0 <= i < |es'| ensures Shaped(es'[i].metric) && !AverageDisk.IsDisk(es'[i].metric) {
      EntriesAreSupported(rms, i);
      VersionlessKept(es[i].metric);
    }
  }

  /** The combination does not panic on what the first two stages leave of a supported batch. */
  lemma CombinePanicsNever(rms: seq<ResourceMetrics>, v: seq<ResourceMetrics>)
    requires SupportedBatch(rms) && AfterVersion(rms, v)
    ensures !CombineProcessStage.CombineStatus(v).Panicked?
  {
    var es, es' := CombineProcessStage.EntriesOf(rms), CombineProcessStage.EntriesOf(v);
    assert OneTypePerName(es) && SameShape(rms, v);
    EntriesAfterVersion(rms, v);
    OthersOfShape(rms, v);
    assert CombineProcessStage.Others(v) != [] && CombineProcessStage.Others(v)[0].scopes != [];
    forall j | 0 <= j < |es'| ensures !CombineProcessErrors.Clashes(es', j) {
      TypesAgree(rms, v, j);
    }
    hide CombineProcessErrors.Clashes, CombineProcessStage.EntriesStatus;
    NoClashNoPanic(es', |es'|);
    assert es'[..|es'|] == es';
  }

  lemma TypesAgree(rms: seq<ResourceMetrics>, v: seq<ResourceMetrics>, j: nat)
    requires SupportedBatch(rms) && AfterVersion(rms, v) && j < |CombineProcessStage.EntriesOf(v)|
    ensures !CombineProcessErrors.Clashes(CombineProcessStage.EntriesOf(v), j)
  {
    hide AfterVersion, Supported, Rewritten, CombineProcessStage.EntriesOf, CombineProcessErrors.Clashes;
    var es, es' := CombineProcessStage.EntriesOf(rms), CombineProcessStage.EntriesOf(v);
    assert OneTypePerName(es);
    hide SupportedBatch;
    EntriesAfterVersion(rms, v);
    EntriesAreSupported(rms, j);
    VersionlessKept(es[j].metric);
    forall i | 0 <= i < |es'| && es'[i].metric.name == es'[j].metric.name
      ensures CombineProcessStage.SameType(es'[i].metric, es'[j].metric)
    {
      EntriesAreSupported(rms, i);
      VersionlessKept(es[i].metric);
    }
    hide MetricKept, MonotonicSum;
    NoClash(es', j);
  }

  // ------------------------------------------------------------------
  // What the combination leaves
  // ------------------------------------------------------------------

  lemma LabelledKept(p: Point, resource: Attributes)
    ensures PointKept(p, CombineProcess.LabelledPoint(p, resource))
  {
    var labels := CombineProcess.ProcessLabels(resource);
    assert forall k | k in labels :: k in CombineProcess.LABELS;
    hide CombineProcess.ProcessLabels;
  }

  lemma {:induction false} PointsNamedOwn(es: seq<Entry>, name: string)
    requires EntriesShaped(es) && Utilizations.HasUtilization(name)
    ensures AllOwnLabels(CombineProcessStage.PointsNamed(es, name))
  {
    hide HasOwnLabel, CombineProcess.LabelledPoint, Utilizations.HasUtilization, AllLabelled;
    if es != [] {
      var e := es[|es| - 1];
      PointsNamedOwn(es[..|es| - 1], name);
      if e.metric.name == name {
        assert Shaped(e.metric);
        forall i | 0 <= i < |e.metric.Points()|
          ensures HasOwnLabel(CombineProcess.LabelledPoints(e.metric.Points(), e.resource)[i])
        {
          CombineProcessStage.LabelledPointsAt(e.metric.Points(), e.resource, i);
          LabelledKept(e.metric.Points()[i], e.resource);
          PointStaysLabelled(e.metric.Points()[i], CombineProcess.LabelledPoint(e.metric.Points()[i], e.resource));
        }
      }
    }
  }

  lemma AddedIsShaped(es: seq<Entry>, added: seq<Metric>)
    requires EntriesShaped(es) && CombineProcessStage.AddedFor(es, added)
    ensures AllShaped(added) && NoDisk(added)
  {
    hide CombineProcessStage.FirstNamed, CombineProcessStage.PointsNamed, HasOwnLabel;
    forall n | 0 <= n < |added| ensures Shaped(added[n]) && !AverageDisk.IsDisk(added[n]) {
      var m := added[n];
      var i := FirstNamedOrigin(es, m.name);
      assert Shaped(es[i].metric) && !AverageDisk.IsDisk(es[i].metric);
      if Utilizations.HasUtilization(m.name) {
        PointsNamedOwn(es, m.name);
      }
    }
  }

  lemma {:induction false} ResourcesOfGoodScopes(rms: seq<ResourceMetrics>)
    ensures GoodScopes(Scopes(rms)) <==> GoodResources(rms)
  {
    hide Good;
    if rms != [] {
      var k := |rms| - 1;
      ResourcesOfGoodScopes(rms[..k]);
      GoodConcat(Scopes(rms[..k]), rms[k].scopes);
      assert forall i | 0 <= i < k :: rms[..k][i] == rms[i];
    }
  }

  lemma GoodConcat(a: seq<seq<Metric>>, b: seq<seq<Metric>>)
    ensures GoodScopes(a + b) <==> GoodScopes(a) && GoodScopes(b)
  {
    hide Good;
    if GoodScopes(a + b) {
      assert forall i | 0 <= i < |a| :: (a + b)[i] == a[i];
      assert forall i | 0 <= i < |b| :: (a + b)[|a| + i] == b[i];
    }
  }

  lemma {:induction false} OthersAreGood(rms: seq<ResourceMetrics>)
    requires GoodResources(rms)
    ensures GoodResources(CombineProcessStage.Others(rms))
  {
    hide GoodScopes, CombineProcess.IncludesProcessAttributes;
    if rms != [] {
      OthersAreGood(rms[..|rms| - 1]);
    }
  }

  lemma CombinedIsGood(v: seq<ResourceMetrics>, rms': seq<ResourceMetrics>)
    requires GoodScopes(Scopes(v)) && EntriesShaped(CombineProcessStage.EntriesOf(v))
    requires CombineProcessStage.Combined(v, rms')
    ensures GoodScopes(Scopes(rms'))
  {
    hide CombineProcessStage.Others, CombineProcessStage.EntriesOf, CombineProcessStage.AddedFor, Scopes, Good;
    hide EntriesShaped;
    ResourcesOfGoodScopes(v);
    OthersAreGood(v);
    var others, es := CombineProcessStage.Others(v), CombineProcessStage.EntriesOf(v);
    var added :| CombineProcessStage.AddedFor(es, added)
      && rms' == others[0 := others[0].(scopes := others[0].scopes[0 := others[0].scopes[0] + added])];
    AddedIsShaped(es, added);
    assert GoodScopes(others[0].scopes) && Good(others[0].scopes[0]);
    GoodAppended(others[0].scopes[0], added);
    assert GoodScopes(rms'[0].scopes);
    ResourcesOfGoodScopes(rms');
  }

  lemma LeftIsKept(m: Metric, m': Metric)
    requires Shaped(m) && !AverageDisk.IsDisk(m)
    requires m' == m || m' == CombineProcessStage.Drained(m) || CombineProcessStage.Relabelled(m, m')
    ensures MetricKept(m, m')
  {
    hide HasOwnLabel;
    if CombineProcessStage.Relabelled(m, m') {
      forall i | 0 <= i < |m.Points()| ensures HasOwnLabel(m.Points()[i]) ==> HasOwnLabel(m'.Points()[i]) {
        assert CombineProcessStage.PointRelabelled(m.Points()[i], m'.Points()[i]);
        PointStaysLabelled(m.Points()[i], m'.Points()[i]);
      }
    }
  }

  lemma LeftScopeIsGood(es: seq<Entry>, ms: seq<Metric>, resource: Attributes, out: seq<Metric>)
    requires Good(ms) && NoDisk(ms) && CombineProcessStage.ScopeLeft(es, ms, resource, out)
    ensures Good(out)
  {
    hide Shaped, CombineProcessStage.EntriesStatus, CombineProcessStage.Entries, BothDisk, MetricKept;
    hide CombineProcessStage.Drained, CombineProcessStage.Relabelled, AverageDisk.IsDisk;
    forall k | 0 <= k < |ms| ensures MetricKept(ms[k], out[k]) {
      assert CombineProcessStage.LeftOf(es, ms, resource, k, out[k]);
      LeftIsKept(ms[k], out[k]);
    }
    GoodKept(ms, out);
  }

  lemma BatchLeftIsGood(scopes: seq<seq<Metric>>, owners: seq<Attributes>, out: seq<seq<Metric>>)
    requires |owners| == |scopes| && GoodScopes(scopes) && CombineProcessStage.BatchLeft(scopes, owners, out)
    requires forall n | 0 <= n < |scopes| && CombineProcess.IncludesProcessAttributes(owners[n]) :: NoDisk(scopes[n])
    ensures GoodScopes(out)
  {
    hide Good, NoDisk, CombineProcessStage.ScopeLeft, CombineProcessStage.ProcessEntries;
    hide CombineProcess.IncludesProcessAttributes;
    forall n | 0 <= n < |out| ensures Good(out[n]) {
      if CombineProcess.IncludesProcessAttributes(owners[n]) {
        LeftScopeIsGood(CombineProcessStage.ProcessEntries(scopes[..n], owners[..n]), scopes[n], owners[n], out[n]);
      }
    }
  }

  lemma ProcessScopesHaveNoDisk(rms: seq<ResourceMetrics>, v: seq<ResourceMetrics>, n: nat)
    requires SupportedBatch(rms) && AfterVersion(rms, v) && n < |Scopes(v)|
    requires CombineProcess.IncludesProcessAttributes(CombineProcessStage.Owners(v)[n])
    ensures NoDisk(Scopes(v)[n])
  {
    hide Scopes, FirstStages, Supported, BothDisk, OneTypePerName, CombineProcessStage.Others;
    hide CombineProcess.IncludesProcessAttributes, CombineProcessStage.EntriesOf;
    OwnersOfShape(rms, v);
    FirstStagesAreVersionless(Scopes(rms), Scopes(v));
    assert AllSupported(Scopes(rms)[n]) && NoDisk(Scopes(rms)[n]);
    hide SupportedBatch;
    forall k | 0 <= k < |Scopes(v)[n]| ensures !AverageDisk.IsDisk(Scopes(v)[n][k]) {
      VersionlessKept(Scopes(rms)[n][k]);
    }
  }

  lemma CombineStepIsGood(rms: seq<ResourceMetrics>, v: seq<ResourceMetrics>, rms': seq<ResourceMetrics>)
    requires SupportedBatch(rms) && AfterVersion(rms, v) && CombineStep(v, rms')
    ensures GoodScopes(Scopes(rms'))
  {
    assert GoodScopes(Scopes(v)) by {
      hide Scopes, FirstStages, Good, CombineProcessStage.EntriesOf, CombineProcessStage.Others, OneTypePerName;
      hide AllSupported, BothDisk;
      FirstStagesAreVersionless(Scopes(rms), Scopes(v));
      VersionlessIsGood(Scopes(rms), Scopes(v));
    }
    VersionlessEntriesShaped(rms, v);
    forall n | 0 <= n < |Scopes(v)| && CombineProcess.IncludesProcessAttributes(CombineProcessStage.Owners(v)[n])
      ensures NoDisk(Scopes(v)[n])
    {
      ProcessScopesHaveNoDisk(rms, v, n);
    }
    hide Scopes, GoodScopes, SupportedBatch, AfterVersion, CombineProcessStage.Combined, CombineProcessStage.BatchLeft;
    hide CombineProcessStage.CombineStatus, EntriesShaped, NoDisk, CombineProcess.IncludesProcessAttributes, SameShape;
    match CombineProcessStage.CombineStatus(v)
    case Going => CombinedIsGood(v, rms');
    case Failed => BatchLeftIsGood(Scopes(v), CombineProcessStage.Owners(v), Scopes(rms'));
    case Panicked =>
  }
}
