/** The stages that rewrite one metric at a time, and what every later stage keeps of their work. */
module AgentStages {
  import opened Pdata
  import CombineProcess
  import CombineProcessStage
  import SplitReadWrite

  // ------------------------------------------------------------------
  // One metric at a time
  // ------------------------------------------------------------------

  /** `forEachPoint` with a function that changes the labels only. */
  function MapLabels(ps: seq<Point>, f: Attributes -> Attributes): (r: seq<Point>)
    ensures |r| == |ps| && forall i | 0 <= i < |ps| :: r[i] == ps[i].(attrs := f(ps[i].attrs))
  {
    if ps == [] then []
    else
      var p := ps[|ps| - 1];
      MapLabels(ps[..|ps| - 1], f) + [p.(attrs := f(p.attrs))]
  }

  function ForEachPoint(m: Metric, f: Attributes -> Attributes): Metric {
    if m.data.OtherData? then m else m.WithPoints(MapLabels(m.Points(), f))
  }

  /** `convertNonMonotonicSumsToGauges`. */
  function ToGauge(m: Metric): (g: Metric)
    ensures g.Points() == m.Points() && g.name == m.name && g.description == m.description && g.unit == m.unit
    ensures g.data.Sum? <==> m.data.Sum? && m.data.monotonic
  {
    if m.data.Sum? && !m.data.monotonic then m.(data := Gauge(m.data.points)) else m
  }

  const VERSION: string := "service_version"

  function WithoutVersion(m: Metric): Metric {
    ForEachPoint(m, (attrs: Attributes) => attrs - {VERSION})
  }

  /** `strings.TrimPrefix`. */
  function TrimPrefix(s: string, prefix: string): string {
    if |prefix| <= |s| && s[..|prefix|] == prefix then s[|prefix|..] else s
  }

  /** `value.SetStr(strings.TrimPrefix(value.Str(), "cpu"))`, where `Str` reads "" of a value that is no string. */
  function CleanCpuLabel(attrs: Attributes): Attributes {
    if "cpu" in attrs then
      attrs["cpu" := Str(TrimPrefix(if attrs["cpu"].Str? then attrs["cpu"].s else "", "cpu"))]
    else attrs
  }

  function CleanCpuNumber(m: Metric): Metric {
    ForEachPoint(m, CleanCpuLabel)
  }

  const BLANK: string := "blank"

  function AddBlankLabel(names: seq<string>, m: Metric): Metric {
    if m.name in names then ForEachPoint(m, (attrs: Attributes) => attrs[BLANK := Str("")]) else m
  }

  /** Points as they were but for one label. */
  predicate SameButFor(name: string, ps: seq<Point>, ps': seq<Point>) {
    |ps| == |ps'| && forall i | 0 <= i < |ps| ::
      ps'[i] == ps[i].(attrs := ps'[i].attrs) && ps'[i].attrs - {name} == ps[i].attrs - {name}
  }

  /**
   Each stage changes its own label only, of no point's value or time, and no descriptor: the version is gone, and the
   blank label is "" on every point of the metrics named and untouched on the others.
   */
  lemma OneLabelEach(m: Metric, names: seq<string>)
    ensures var u, v, w := WithoutVersion(m), CleanCpuNumber(m), AddBlankLabel(names, m);
            && (m.data.OtherData? ==> u == v == w == m)
            && (!m.data.OtherData? ==>
                  && u == m.WithPoints(u.Points()) && SameButFor(VERSION, m.Points(), u.Points())
                  && v == m.WithPoints(v.Points()) && SameButFor("cpu", m.Points(), v.Points())
                  && w == m.WithPoints(w.Points()) && SameButFor(BLANK, m.Points(), w.Points()))
            && (m.name !in names ==> w == m)
            && (m.name in names ==> forall i | 0 <= i < |w.Points()| ::
                  "blank" in w.Points()[i].attrs && w.Points()[i].attrs["blank"] == Str(""))
            && (forall i | 0 <= i < |u.Points()| :: "service_version" !in u.Points()[i].attrs)
            && (forall i | 0 <= i < |v.Points()| :: v.Points()[i].attrs == CleanCpuLabel(m.Points()[i].attrs))
  {
    hide MapLabels, TrimPrefix, CleanCpuLabel;
    forall i | 0 <= i < |m.Points()|
      ensures CleanCpuLabel(m.Points()[i].attrs) - {"cpu"} == m.Points()[i].attrs - {"cpu"}
    {
      OtherLabelsStay(m.Points()[i].attrs);
    }
  }

  lemma OtherLabelsStay(attrs: Attributes)
    ensures CleanCpuLabel(attrs) - {"cpu"} == attrs - {"cpu"}
  {
    hide TrimPrefix;
  }

  /** "cpu3" becomes "3"; a label without the prefix stays as it is. */
  lemma CpuNumberOf(attrs: Attributes, number: string)
    ensures "cpu" in attrs && attrs["cpu"] == Str("cpu" + number) ==> CleanCpuLabel(attrs)["cpu"] == Str(number)
    ensures "cpu" in attrs && attrs["cpu"].Str? && !("cpu" <= attrs["cpu"].s) ==> CleanCpuLabel(attrs) == attrs
    ensures "cpu" in attrs && !attrs["cpu"].Str? ==> CleanCpuLabel(attrs)["cpu"] == Str("")
    ensures "cpu" !in attrs ==> CleanCpuLabel(attrs) == attrs
  {
    assert ("cpu" + number)[..3] == "cpu" && ("cpu" + number)[3..] == number;
  }

  function MapMetrics(ms: seq<Metric>, f: Metric -> Metric): (r: seq<Metric>)
    ensures |r| == |ms| && forall i | 0 <= i < |ms| :: r[i] == f(ms[i])
  {
    if ms == [] then [] else MapMetrics(ms[..|ms| - 1], f) + [f(ms[|ms| - 1])]
  }

  ghost predicate Mapped(f: Metric -> Metric, scopes: seq<seq<Metric>>, scopes': seq<seq<Metric>>) {
    |scopes'| == |scopes| && forall n | 0 <= n < |scopes| :: scopes'[n] == MapMetrics(scopes[n], f)
  }

  /** The walk that these stages share. */
  method ForEachMetric(batch: Batch, f: Metric -> Metric)
    modifies batch
    ensures Mapped(f, Scopes(old(batch.rms)), Scopes(batch.rms))
    ensures batch.rms == WithScopes(old(batch.rms), Scopes(batch.rms))
  {
    hide Scopes, WithScopes, MapMetrics;
    var scopes := Scopes(batch.rms);
    var out := scopes;
    for n := 0 to |scopes|
      invariant |out| == |scopes| && out[n..] == scopes[n..]
      invariant forall m | 0 <= m < n :: out[m] == MapMetrics(scopes[m], f)
    {
      var ms := out[n];
      for k := 0 to |ms|
        invariant |ms| == |scopes[n]| && ms[k..] == scopes[n][k..]
        invariant forall j | 0 <= j < k :: ms[j] == f(scopes[n][j])
      {
        ms := ms[k := f(ms[k])];
      }
      assert ms == MapMetrics(scopes[n], f);
      out := out[n := ms];
    }
    batch.SetScopes(out);
  }

  predicate AllNumeric(scopes: seq<seq<Metric>>) {
    forall n | 0 <= n < |scopes| :: forall k | 0 <= k < |scopes[n]| :: !scopes[n][k].data.OtherData?
  }

  /** `removeVersionAttribute` asks every metric for number data points: one of another type has none, and it panics. */
  method RemoveVersionAttribute(batch: Batch) returns (s: Status)
    modifies batch
    ensures s == if AllNumeric(Scopes(old(batch.rms))) then Going else Panicked
    ensures s.Going? ==> Mapped(WithoutVersion, Scopes(old(batch.rms)), Scopes(batch.rms))
    ensures s.Going? ==> batch.rms == WithScopes(old(batch.rms), Scopes(batch.rms))
  {
    if !AllNumeric(Scopes(batch.rms)) {
      return Panicked;
    }
    ForEachMetric(batch, WithoutVersion);
    s := Going;
  }

  // ------------------------------------------------------------------
  // What the first two stages establish
  // ------------------------------------------------------------------

  predicate Versionless(p: Point) {
    VERSION !in p.attrs
  }

  predicate AllVersionless(ps: seq<Point>) {
    forall i | 0 <= i < |ps| :: Versionless(ps[i])
  }

  /** A Sum or Gauge, monotonic if a Sum, none of whose points has a version. */
  predicate CleanMetric(m: Metric) {
    !m.data.OtherData? && (m.data.Sum? ==> m.data.monotonic) && AllVersionless(m.Points())
  }

  predicate CleanScope(ms: seq<Metric>) {
    forall k | 0 <= k < |ms| :: CleanMetric(ms[k])
  }

  predicate CleanScopes(scopes: seq<seq<Metric>>) {
    forall n | 0 <= n < |scopes| :: CleanScope(scopes[n])
  }

  lemma FirstStagesClean(scopes: seq<seq<Metric>>, gauged: seq<seq<Metric>>, out: seq<seq<Metric>>)
    requires Mapped(ToGauge, scopes, gauged) && AllNumeric(gauged) && Mapped(WithoutVersion, gauged, out)
    ensures CleanScopes(out)
  {
    hide MapMetrics, MapLabels;
    forall n | 0 <= n < |out| ensures CleanScope(out[n]) {
      forall k | 0 <= k < |out[n]| ensures CleanMetric(out[n][k]) {
        assert gauged[n][k] == ToGauge(scopes[n][k]) && out[n][k] == WithoutVersion(gauged[n][k]);
      }
    }
  }

  lemma CpuCleanKeeps(m: Metric)
    requires CleanMetric(m)
    ensures CleanMetric(CleanCpuNumber(m))
  {
    hide MapLabels;
  }

  lemma BlankKeeps(names: seq<string>, m: Metric)
    requires CleanMetric(m)
    ensures CleanMetric(AddBlankLabel(names, m)) && AddBlankLabel(names, m).name == m.name
    ensures m.name in names ==> AllBlank(AddBlankLabel(names, m).Points())
  {
    hide MapLabels;
  }

  predicate AllBlank(ps: seq<Point>) {
    forall i | 0 <= i < |ps| :: BLANK in ps[i].attrs && ps[i].attrs[BLANK] == Str("")
  }

  // ------------------------------------------------------------------
  // The split keeps it
  // ------------------------------------------------------------------

  lemma {:induction false} DirectionKeepsVersionless(ps: seq<Point>, direction: string)
    requires AllVersionless(ps)
    ensures AllVersionless(SplitReadWrite.OfDirection(ps, direction))
  {
    if ps != [] {
      DirectionKeepsVersionless(ps[..|ps| - 1], direction);
      assert Versionless(ps[|ps| - 1]);
    }
  }

  lemma HalfIsClean(m: Metric, direction: string)
    requires CleanMetric(m) && SplitReadWrite.CanSplit(m)
    ensures CleanMetric(SplitReadWrite.Half(m, direction))
  {
    hide SplitReadWrite.OfDirection;
    DirectionKeepsVersionless(m.Points(), direction);
  }

  lemma {:induction false} SplitKeepsClean(ms: seq<Metric>)
    requires CleanScope(ms)
    ensures CleanScope(SplitReadWrite.Overwritten(ms)) && CleanScope(SplitReadWrite.WriteHalves(ms))
    ensures CleanScope(SplitReadWrite.Split(ms))
  {
    hide CleanMetric, SplitReadWrite.Half, SplitReadWrite.CanSplit, SplitReadWrite.IsSplit;
    if ms != [] {
      var k := |ms| - 1;
      SplitKeepsClean(ms[..k]);
      if SplitReadWrite.AllSplit(ms) && SplitReadWrite.IsSplit(ms[k].name) {
        HalfIsClean(ms[k], SplitReadWrite.READ);
        HalfIsClean(ms[k], SplitReadWrite.WRITE);
      }
    }
  }

  // ------------------------------------------------------------------
  // Combining keeps it
  // ------------------------------------------------------------------

  lemma LabelsKeepVersionless(p: Point, p': Point)
    requires Versionless(p) && CombineProcess.SameApartFromLabels(p.attrs, p'.attrs)
    ensures Versionless(p')
  {
    assert VERSION !in CombineProcess.LABELS;
  }

  lemma LabelledIsVersionless(ps: seq<Point>, resource: Attributes)
    requires AllVersionless(ps)
    ensures AllVersionless(CombineProcess.LabelledPoints(ps, resource))
  {
    hide Versionless;
    var out := CombineProcess.LabelledPoints(ps, resource);
    forall i | 0 <= i < |out| ensures Versionless(out[i]) {
      CombineProcessStage.LabelledPointsAt(ps, resource, i);
      assert CombineProcess.SameApartFromLabels(ps[i].attrs, out[i].attrs);
      LabelsKeepVersionless(ps[i], out[i]);
    }
  }

  predicate CleanEntries(es: seq<CombineProcessStage.Entry>) {
    forall i | 0 <= i < |es| :: CleanMetric(es[i].metric)
  }

  lemma {:induction false} PointsNamedVersionless(es: seq<CombineProcessStage.Entry>, name: string)
    requires CleanEntries(es)
    ensures AllVersionless(CombineProcessStage.PointsNamed(es, name))
  {
    hide Versionless, CombineProcess.LabelledPoints;
    if es != [] {
      var e := es[|es| - 1];
      PointsNamedVersionless(es[..|es| - 1], name);
      LabelledIsVersionless(e.metric.Points(), e.resource);
    }
  }

  lemma {:induction false} FirstNamedClean(es: seq<CombineProcessStage.Entry>, name: string)
    requires CleanEntries(es) && CombineProcessStage.FirstNamed(es, name).Some?
    ensures CleanMetric(CombineProcessStage.FirstNamed(es, name).value)
  {
    var k := |es| - 1;
    if CombineProcessStage.FirstNamed(es[..k], name).Some? {
      FirstNamedClean(es[..k], name);
    } else {
      assert CleanMetric(es[k].metric);
    }
  }

  lemma AddedIsClean(es: seq<CombineProcessStage.Entry>, added: seq<Metric>)
    requires CleanEntries(es) && CombineProcessStage.AddedFor(es, added)
    ensures CleanScope(added)
  {
    hide CombineProcessStage.FirstNamed, CombineProcessStage.PointsNamed;
    forall i | 0 <= i < |added| ensures CleanMetric(added[i]) {
      FirstNamedClean(es, added[i].name);
      PointsNamedVersionless(es, added[i].name);
    }
  }

  lemma {:induction false} EntriesClean(ms: seq<Metric>, resource: Attributes)
    requires CleanScope(ms)
    ensures CleanEntries(CombineProcessStage.Entries(ms, resource))
  {
    hide CleanMetric;
    if ms != [] {
      EntriesClean(ms[..|ms| - 1], resource);
    }
  }

  lemma {:induction false} ProcessEntriesClean(scopes: seq<seq<Metric>>, owners: seq<Attributes>)
    requires |owners| == |scopes| && CleanScopes(scopes)
    ensures CleanEntries(CombineProcessStage.ProcessEntries(scopes, owners))
  {
    hide CleanMetric, CleanScope, CombineProcessStage.Entries, CombineProcess.IncludesProcessAttributes;
    if scopes != [] {
      var k := |scopes| - 1;
      ProcessEntriesClean(scopes[..k], owners[..k]);
      EntriesClean(scopes[k], owners[k]);
    }
  }

  /** Every resource of a batch has clean scopes only. */
  predicate CleanResources(rms: seq<ResourceMetrics>) {
    forall i | 0 <= i < |rms| :: CleanScopes(rms[i].scopes)
  }

  lemma {:induction false} ResourcesOfCleanScopes(rms: seq<ResourceMetrics>)
    ensures CleanScopes(Scopes(rms)) <==> CleanResources(rms)
  {
    hide CleanScope;
    if rms != [] {
      var k := |rms| - 1;
      ResourcesOfCleanScopes(rms[..k]);
      assert rms == rms[..k] + [rms[k]];
      CleanScopesConcat(Scopes(rms[..k]), rms[k].scopes);
      assert forall i | 0 <= i < k :: rms[..k][i] == rms[i];
    }
  }

  lemma CleanScopesConcat(a: seq<seq<Metric>>, b: seq<seq<Metric>>)
    ensures CleanScopes(a + b) <==> CleanScopes(a) && CleanScopes(b)
  {
    hide CleanScope;
    if CleanScopes(a + b) {
      assert forall i | 0 <= i < |a| :: (a + b)[i] == a[i];
      assert forall i | 0 <= i < |b| :: (a + b)[|a| + i] == b[i];
    }
  }

  lemma {:induction false} OthersAreClean(rms: seq<ResourceMetrics>)
    requires CleanResources(rms)
    ensures CleanResources(CombineProcessStage.Others(rms))
  {
    hide CleanScopes, CombineProcess.IncludesProcessAttributes;
    if rms != [] {
      OthersAreClean(rms[..|rms| - 1]);
    }
  }

  lemma CombinedIsClean(rms: seq<ResourceMetrics>, rms': seq<ResourceMetrics>)
    requires CleanScopes(Scopes(rms)) && CombineProcessStage.Combined(rms, rms')
    ensures CleanScopes(Scopes(rms'))
  {
    ResourcesOfCleanScopes(rms);
    OthersAreClean(rms);
    ProcessEntriesClean(Scopes(rms), CombineProcessStage.Owners(rms));
    hide CombineProcessStage.Others, CombineProcessStage.ProcessEntries, CombineProcessStage.AddedFor, Scopes, CleanMetric;
    var others, es := CombineProcessStage.Others(rms), CombineProcessStage.EntriesOf(rms);
    var added :| CombineProcessStage.AddedFor(es, added)
      && rms' == others[0 := others[0].(scopes := others[0].scopes[0 := others[0].scopes[0] + added])];
    AddedIsClean(es, added);
    assert CleanScopes(others[0].scopes) && CleanScope(others[0].scopes[0]);
    assert CleanScope(others[0].scopes[0] + added);
    assert CleanScopes(rms'[0].scopes);
    ResourcesOfCleanScopes(rms');
  }

  lemma LeftIsClean(m: Metric, m': Metric)
    requires CleanMetric(m)
    requires m' == m || m' == CombineProcessStage.Drained(m) || CombineProcessStage.Relabelled(m, m')
    ensures CleanMetric(m')
  {
    if CombineProcessStage.Relabelled(m, m') {
      hide Versionless;
      forall i | 0 <= i < |m'.Points()| ensures Versionless(m'.Points()[i]) {
        assert CombineProcessStage.PointRelabelled(m.Points()[i], m'.Points()[i]);
        LabelsKeepVersionless(m.Points()[i], m'.Points()[i]);
      }
    }
  }

  lemma BatchLeftIsClean(scopes: seq<seq<Metric>>, owners: seq<Attributes>, out: seq<seq<Metric>>)
    requires |owners| == |scopes| && CleanScopes(scopes) && CombineProcessStage.BatchLeft(scopes, owners, out)
    ensures CleanScopes(out)
  {
    hide CleanMetric, CombineProcessStage.EntriesStatus, CombineProcessStage.Entries, CombineProcessStage.ProcessEntries;
    hide CombineProcessStage.Drained, CombineProcessStage.Relabelled, CombineProcess.IncludesProcessAttributes;
    forall n | 0 <= n < |out| ensures CleanScope(out[n]) {
      assert CleanScope(scopes[n]);
      if CombineProcess.IncludesProcessAttributes(owners[n]) {
        forall k | 0 <= k < |out[n]| ensures CleanMetric(out[n][k]) {
          assert CombineProcessStage.LeftOf(CombineProcessStage.ProcessEntries(scopes[..n], owners[..n]), scopes[n],
                                            owners[n], k, out[n][k]);
          LeftIsClean(scopes[n][k], out[n][k]);
        }
      }
    }
  }
}
