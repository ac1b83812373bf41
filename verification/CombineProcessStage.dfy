/** Combining the metrics of all processes of a batch, by name, into the first scope that is not a process's. */
module CombineProcessStage {
  import opened Go
  import opened Pdata
  import opened CombineProcess

  /** A metric of a process, with the resource that names the process. */
  datatype Entry = Entry(metric: Metric, resource: Attributes)

  /** `newMetric`: the descriptor alone. */
  function NewMetric(m: Metric): Metric {
    m.(data := match m.data
         case Sum(_, monotonic, temporality) => Sum([], monotonic, temporality)
         case Gauge(_) => Gauge([])
         case OtherData(_) => OtherData(0))
  }

  // ------------------------------------------------------------------
  // What is combined
  // ------------------------------------------------------------------

  /** The descriptor a name got from the first metric that has it. */
  function FirstNamed(es: seq<Entry>, name: string): Option<Metric> {
    if es == [] then None
    else
      var k := |es| - 1;
      var first := FirstNamed(es[..k], name);
      if first.None? && es[k].metric.name == name then Some(NewMetric(es[k].metric)) else first
  }

  /** The points of all metrics of a name, in order, each with the labels of its own process. */
  function PointsNamed(es: seq<Entry>, name: string): seq<Point> {
    if es == [] then []
    else
      var e := es[|es| - 1];
      PointsNamed(es[..|es| - 1], name)
        + (if e.metric.name == name then LabelledPoints(e.metric.Points(), e.resource) else [])
  }

  function Converted(es: seq<Entry>, name: string): Metric
    requires FirstNamed(es, name).Some?
  {
    var first := FirstNamed(es, name).value;
    if first.data.OtherData? then first else first.WithPoints(PointsNamed(es, name))
  }

  /** A combined metric is described as the first metric of its name is. */
  lemma {:induction false} DescribedAsFirst(es: seq<Entry>, i: nat)
    requires i < |es| && forall j | 0 <= j < i :: es[j].metric.name != es[i].metric.name
    ensures var m := es[i].metric;
            && FirstNamed(es, m.name).Some?
            && var c := Converted(es, m.name);
            && c.name == m.name && c.description == m.description && c.unit == m.unit
            && (c.data.Gauge? <==> m.data.Gauge?) && (c.data.Sum? <==> m.data.Sum?)
            && (m.data.Sum? ==> c.data.monotonic == m.data.monotonic && c.data.temporality == m.data.temporality)
  {
    hide PointsNamed;
    FirstNamedAt(es, i);
  }

  lemma {:induction false} FirstNamedAt(es: seq<Entry>, i: nat)
    requires i < |es| && forall j | 0 <= j < i :: es[j].metric.name != es[i].metric.name
    ensures FirstNamed(es, es[i].metric.name) == Some(NewMetric(es[i].metric))
  {
    hide NewMetric;
    var k := |es| - 1;
    if i < k {
      FirstNamedAt(es[..k], i);
    } else {
      NotNamed(es[..k], es[i].metric.name);
    }
  }

  lemma {:induction false} NotNamed(es: seq<Entry>, name: string)
    requires forall j | 0 <= j < |es| :: es[j].metric.name != name
    ensures FirstNamed(es, name).None?
  {
    if es != [] {
      NotNamed(es[..|es| - 1], name);
    }
  }

  predicate SameType(a: Metric, b: Metric) {
    (a.data.Sum? && b.data.Sum?) || (a.data.Gauge? && b.data.Gauge?)
  }

  /** How one more metric ends: a Sum or Gauge whose name belongs to another type takes points that are not there. */
  function Next(es: seq<Entry>, e: Entry): Status {
    if e.metric.data.OtherData? then Going
    else if !SameType(FirstNamed(es, e.metric.name).GetOr(e.metric), e.metric) then Panicked
    else if e.metric.Points() != [] && Unprintable(e.resource) then Failed
    else Going
  }

  function EntriesStatus(es: seq<Entry>): Status {
    if es == [] then Going
    else
      var k := |es| - 1;
      if EntriesStatus(es[..k]).Going? then Next(es[..k], es[k]) else EntriesStatus(es[..k])
  }

  /** Each process metric's points are a block of the combined points, behind those of the processes before it. */
  ghost predicate IsBlock(ps: seq<Point>, at: nat, block: seq<Point>) {
    at + |block| <= |ps| && ps[at..at + |block|] == block
  }

  lemma BlockOfLonger(ps: seq<Point>, at: nat, block: seq<Point>, more: seq<Point>)
    requires IsBlock(ps, at, block)
    ensures IsBlock(ps + more, at, block)
  {
    assert (ps + more)[..|ps|] == ps;
    assert (ps + more)[at..at + |block|] == ps[at..at + |block|];
  }

  lemma BlockAtEnd(ps: seq<Point>, block: seq<Point>)
    ensures IsBlock(ps + block, |ps|, block)
  {
  }

  lemma {:induction false} BlockOfProcess(es: seq<Entry>, i: nat)
    requires i < |es|
    ensures var name := es[i].metric.name;
            IsBlock(PointsNamed(es, name), |PointsNamed(es[..i], name)|,
                    LabelledPoints(es[i].metric.Points(), es[i].resource))
  {
    hide LabelledPoints, IsBlock;
    var k, name := |es| - 1, es[i].metric.name;
    if i < k {
      assert es[..k][..i] == es[..i];
      BlockOfProcess(es[..k], i);
      BlockOfLonger(PointsNamed(es[..k], name), |PointsNamed(es[..i], name)|,
                    LabelledPoints(es[i].metric.Points(), es[i].resource),
                    if es[k].metric.name == name then LabelledPoints(es[k].metric.Points(), es[k].resource) else []);
    } else {
      BlockAtEnd(PointsNamed(es[..k], name), LabelledPoints(es[k].metric.Points(), es[k].resource));
    }
  }

  function TotalPoints(es: seq<Entry>, name: string): nat {
    if es == [] then 0
    else
      var e := es[|es| - 1];
      TotalPoints(es[..|es| - 1], name) + (if e.metric.name == name then |e.metric.Points()| else 0)
  }

  /** No point is added or lost. */
  lemma {:induction false} CombinedCount(es: seq<Entry>, name: string)
    ensures |PointsNamed(es, name)| == TotalPoints(es, name)
  {
    if es != [] {
      CombinedCount(es[..|es| - 1], name);
    }
  }

  lemma {:induction false} LabelledPointsAt(ps: seq<Point>, resource: Attributes, i: nat)
    requires i < |ps|
    ensures LabelledPoints(ps, resource)[i] == LabelledPoint(ps[i], resource)
  {
    hide LabelledPoint;
    if i < |ps| - 1 {
      LabelledPointsAt(ps[..|ps| - 1], resource, i);
    }
  }

  /**
   A combined point keeps its value, timestamps and other labels. Of the four labels it has those its process has
   an attribute for, each with the first 1024 bytes of the attribute's text.
   */
  lemma LabelsOfProcess(p: Point, resource: Attributes, l: string)
    requires !Unprintable(resource)
    ensures var q := LabelledPoint(p, resource);
            && q == p.(attrs := q.attrs) && SameApartFromLabels(p.attrs, q.attrs)
            && (l in LABELS && AttributeOf(l) in resource ==> HasLabel(q, l, resource[AttributeOf(l)]))
            && (l in LABELS && AttributeOf(l) !in resource ==> (l in q.attrs <==> l in p.attrs))
  {
    hide AttributeOf, StringValue;
    var labels := ProcessLabels(resource);
    assert l in labels <==> l in LABELS && AttributeOf(l) in resource;
    assert forall k | k in labels :: k in LABELS;
    hide ProcessLabels;
  }

  /** A label has the first 1024 bytes of an attribute's text. */
  predicate HasLabel(q: Point, l: string, v: AttrValue) {
    StringValue(v).Ok? && l in q.attrs && q.attrs[l] == Str(StringValue(v).value)
  }

  // ------------------------------------------------------------------
  // The map of converted metrics
  // ------------------------------------------------------------------

  ghost predicate ConvertedName(cms: map<string, Metric>, es: seq<Entry>, name: string) {
    && (name in cms <==> FirstNamed(es, name).Some?)
    && (name in cms ==> cms[name] == Converted(es, name))
  }

  ghost predicate IsConverted(cms: map<string, Metric>, es: seq<Entry>) {
    forall name :: ConvertedName(cms, es, name)
  }

  /** An emptied metric: its points were moved away. */
  function Drained(m: Metric): Metric {
    if m.data.OtherData? then m else m.WithPoints([])
  }

  ghost predicate PointRelabelled(p: Point, p': Point) {
    p' == p.(attrs := p'.attrs) && SameApartFromLabels(p.attrs, p'.attrs)
  }

  /** The metric at which an error occurred: labels may have been put on its points. */
  ghost predicate Relabelled(m: Metric, m': Metric) {
    !m.data.OtherData? && m' == m.WithPoints(m'.Points()) && AllRelabelled(m.Points(), m'.Points())
  }

  lemma LabelledOne(ps: seq<Point>, i: nat, out: seq<Point>, resource: Attributes)
    requires i < |ps| && out == LabelledPoints(ps[..i], resource) + ps[i..]
    ensures out[i] == ps[i]
    ensures out[i := LabelledPoint(ps[i], resource)] == LabelledPoints(ps[..i + 1], resource) + ps[i + 1..]
  {
    hide LabelledPoint;
    assert ps[..i + 1][..i] == ps[..i];
    var before, p := LabelledPoints(ps[..i], resource), LabelledPoint(ps[i], resource);
    assert ps[i..] == [ps[i]] + ps[i + 1..];
    Replaced(before, ps[i], ps[i + 1..], p);
  }

  lemma Replaced<T>(a: seq<T>, x: T, b: seq<T>, y: T)
    ensures (a + ([x] + b))[|a|] == x && (a + ([x] + b))[|a| := y] == (a + [y]) + b
  {
  }

  ghost predicate AllRelabelled(ps: seq<Point>, ps': seq<Point>) {
    |ps| == |ps'| && forall i | 0 <= i < |ps| :: PointRelabelled(ps[i], ps'[i])
  }

  /** Labels the points in place. */
  method AppendNumberDataSlice(ps: seq<Point>, resource: Attributes) returns (failed: bool, out: seq<Point>)
    ensures failed <==> ps != [] && Unprintable(resource)
    ensures !failed ==> out == LabelledPoints(ps, resource)
    ensures AllRelabelled(ps, out)
  {
    hide Unprintable, ProcessLabels, SameApartFromLabels, LabelledPoints;
    out, failed := ps, false;
    forall p ensures PointRelabelled(p, p) {
      SameLabels(p.attrs);
    }
    NoLabelledPoints(resource);
    assert ps == [] + ps[0..] && ps[..0] == [];
    for i := 0 to |ps|
      invariant AllRelabelled(ps, out)
      invariant out == LabelledPoints(ps[..i], resource) + ps[i..]
      invariant i > 0 ==> !Unprintable(resource)
    {
      LabelledOne(ps, i, out, resource);
      var attrs;
      failed, attrs := AppendAttributesToLabels(out[i].attrs, resource);
      out := out[i := out[i].(attrs := attrs)];
      if failed {
        return;
      }
    }
    assert ps[..|ps|] == ps && ps[|ps|..] == [];
  }

  lemma SameLabels(attrs: Attributes)
    ensures SameApartFromLabels(attrs, attrs)
  {
  }

  lemma FirstNamedStep(es: seq<Entry>, e: Entry, name: string)
    ensures FirstNamed(es + [e], name) == if FirstNamed(es, name).None? && e.metric.name == name then Some(NewMetric(e.metric))
                                          else FirstNamed(es, name)
    ensures PointsNamed(es + [e], name) == PointsNamed(es, name)
         + if e.metric.name == name then LabelledPoints(e.metric.Points(), e.resource) else []
  {
    assert (es + [e])[..|es|] == es;
  }

  lemma {:induction false} UnnamedHasNoPoints(es: seq<Entry>, name: string)
    ensures FirstNamed(es, name).None? ==> PointsNamed(es, name) == []
    ensures FirstNamed(es, name).Some? ==> FirstNamed(es, name).value.name == name
  {
    if es != [] {
      UnnamedHasNoPoints(es[..|es| - 1], name);
    }
  }

  lemma OtherNamesKept(cms: map<string, Metric>, es: seq<Entry>, e: Entry, m: Metric, name: string)
    requires ConvertedName(cms, es, name) && name != e.metric.name
    ensures ConvertedName(cms[e.metric.name := m], es + [e], name)
  {
    FirstNamedStep(es, e, name);
    assert PointsNamed(es, name) + [] == PointsNamed(es, name);
    hide FirstNamed, PointsNamed, NewMetric;
  }

  lemma OneMoreNamed(cms: map<string, Metric>, es: seq<Entry>, e: Entry, m: Metric)
    requires ConvertedName(cms, es, e.metric.name) && Next(es, e).Going?
    requires var cm := if e.metric.name in cms then cms[e.metric.name] else NewMetric(e.metric);
             m == if e.metric.data.OtherData? then cm
                  else cm.(data := cm.data.(points := cm.Points() + LabelledPoints(e.metric.Points(), e.resource)))
    ensures ConvertedName(cms[e.metric.name := m], es + [e], e.metric.name)
  {
    var name := e.metric.name;
    FirstNamedStep(es, e, name);
    UnnamedHasNoPoints(es, name);
    hide FirstNamed, PointsNamed, LabelledPoints, Unprintable;
    assert e.metric.data.OtherData? ==> LabelledPoints([], e.resource) == [] by { NoLabelledPoints(e.resource); }
    assert PointsNamed(es, name) + [] == PointsNamed(es, name);
  }

  lemma NoLabelledPoints(resource: Attributes)
    ensures LabelledPoints([], resource) == []
  {
  }

  lemma ConvertedStep(cms: map<string, Metric>, es: seq<Entry>, e: Entry, m: Metric)
    requires IsConverted(cms, es) && Next(es, e).Going?
    requires var cm := if e.metric.name in cms then cms[e.metric.name] else NewMetric(e.metric);
             m == if e.metric.data.OtherData? then cm
                  else cm.(data := cm.data.(points := cm.Points() + LabelledPoints(e.metric.Points(), e.resource)))
    ensures IsConverted(cms[e.metric.name := m], es + [e])
  {
    hide Next, NewMetric, LabelledPoints;
    assert ConvertedName(cms, es, e.metric.name);
    OneMoreNamed(cms, es, e, m);
    hide ConvertedName;
    var cms', es' := cms[e.metric.name := m], es + [e];
    forall name ensures ConvertedName(cms', es', name) {
      assert ConvertedName(cms, es, name);
      if name != e.metric.name {
        OtherNamesKept(cms, es, e, m, name);
      }
    }
  }

  /** The converted metric of a name has the type of the first metric of that name. */
  lemma ConvertedType(cms: map<string, Metric>, es: seq<Entry>, e: Entry)
    requires IsConverted(cms, es)
    ensures var cm := if e.metric.name in cms then cms[e.metric.name] else NewMetric(e.metric);
            SameType(cm, e.metric) <==> SameType(FirstNamed(es, e.metric.name).GetOr(e.metric), e.metric)
  {
    assert ConvertedName(cms, es, e.metric.name);
  }

  /** `convertedMetrics.append`: the points are moved out of the metric into the converted one. */
  method Append(cms: map<string, Metric>, m: Metric, resource: Attributes, ghost es: seq<Entry>)
      returns (s: Status, cms': map<string, Metric>, m': Metric)
    requires IsConverted(cms, es)
    ensures s == Next(es, Entry(m, resource))
    ensures s.Going? ==> IsConverted(cms', es + [Entry(m, resource)]) && m' == Drained(m)
    ensures s.Failed? ==> Relabelled(m, m')
  {
    hide LabelledPoints, FirstNamed, IsConverted, Unprintable, AllRelabelled;
    ghost var e := Entry(m, resource);
    var cm := if m.name in cms then cms[m.name] else NewMetric(m);
    cms', m' := cms, m;
    ConvertedType(cms, es, e);
    if m.data.OtherData? {
      ConvertedStep(cms, es, e, cm);
      return Going, cms[m.name := cm], m;
    }
    if !SameType(cm, m) {
      return Panicked, cms, m;
    }
    var failed, labelled := AppendNumberDataSlice(m.data.points, resource);
    if failed {
      return Failed, cms, m.WithPoints(labelled);
    }
    cm := cm.WithPoints(cm.Points() + labelled);
    ConvertedStep(cms, es, e, cm);
    return Going, cms[m.name := cm], m.WithPoints([]);
  }

  // ------------------------------------------------------------------
  // Scopes
  // ------------------------------------------------------------------

  function Entries(ms: seq<Metric>, resource: Attributes): seq<Entry> {
    if ms == [] then [] else Entries(ms[..|ms| - 1], resource) + [Entry(ms[|ms| - 1], resource)]
  }

  /** What is left of the `k`-th metric of a process after the walk, which may have ended before. */
  ghost predicate LeftOf(es: seq<Entry>, ms: seq<Metric>, resource: Attributes, k: nat, m': Metric)
    requires k < |ms|
  {
    if EntriesStatus(es + Entries(ms[..k + 1], resource)).Going? then m' == Drained(ms[k])
    else if EntriesStatus(es + Entries(ms[..k], resource)).Going? then Relabelled(ms[k], m')
    else m' == ms[k]
  }

  ghost predicate ScopeLeft(es: seq<Entry>, ms: seq<Metric>, resource: Attributes, out: seq<Metric>) {
    |out| == |ms| && forall k | 0 <= k < |ms| :: LeftOf(es, ms, resource, k, out[k])
  }

  lemma StatusStep(es: seq<Entry>, e: Entry)
    ensures EntriesStatus(es + [e]) == if EntriesStatus(es).Going? then Next(es, e) else EntriesStatus(es)
  {
    assert (es + [e])[..|es|] == es;
  }

  lemma EntriesStep(es: seq<Entry>, ms: seq<Metric>, resource: Attributes, k: nat)
    requires k < |ms|
    ensures es + Entries(ms[..k + 1], resource) == (es + Entries(ms[..k], resource)) + [Entry(ms[k], resource)]
  {
    assert ms[..k + 1][..k] == ms[..k];
  }

  lemma {:induction false} ErrorSticks(es: seq<Entry>, more: seq<Entry>)
    requires !EntriesStatus(es).Going?
    ensures EntriesStatus(es + more) == EntriesStatus(es)
  {
    if more == [] {
      assert es + more == es;
    } else {
      var k := |more| - 1;
      ErrorSticks(es, more[..k]);
      assert es + more == (es + more[..k]) + [more[k]];
      StatusStep(es + more[..k], more[k]);
    }
  }

  lemma {:induction false} ErrorSticksInScope(es: seq<Entry>, ms: seq<Metric>, resource: Attributes, k: nat, j: nat)
    requires k <= j <= |ms| && !EntriesStatus(es + Entries(ms[..k], resource)).Going?
    ensures EntriesStatus(es + Entries(ms[..j], resource)) == EntriesStatus(es + Entries(ms[..k], resource))
  {
    if k < j {
      ErrorSticksInScope(es, ms, resource, k, j - 1);
      EntriesStep(es, ms, resource, j - 1);
      StatusStep(es + Entries(ms[..j - 1], resource), Entry(ms[j - 1], resource));
    }
  }

  /** The metrics of one scope of a process. */
  method AppendScope(cms: map<string, Metric>, ms: seq<Metric>, resource: Attributes, ghost es: seq<Entry>)
      returns (s: Status, cms': map<string, Metric>, out: seq<Metric>)
    requires IsConverted(cms, es) && EntriesStatus(es).Going?
    ensures s == EntriesStatus(es + Entries(ms, resource))
    ensures s.Going? ==> IsConverted(cms', es + Entries(ms, resource))
    ensures !s.Panicked? ==> ScopeLeft(es, ms, resource, out)
  {
    hide Entries, EntriesStatus, IsConverted, Next, Relabelled, Drained;
    s, cms', out := Going, cms, ms;
    NoEntries(resource);
    assert ms[..0] == [] && es + [] == es;
    for k := 0 to |ms|
      invariant |out| == |ms| && out[k..] == ms[k..]
      invariant s == Going && EntriesStatus(es + Entries(ms[..k], resource)).Going?
      invariant IsConverted(cms', es + Entries(ms[..k], resource))
      invariant forall j | 0 <= j < k :: LeftOf(es, ms, resource, j, out[j])
    {
      EntriesStep(es, ms, resource, k);
      StatusStep(es + Entries(ms[..k], resource), Entry(ms[k], resource));
      assert out[k] == ms[k];
      var m;
      s, cms', m := Append(cms', out[k], resource, es + Entries(ms[..k], resource));
      out := out[k := m];
      if !s.Going? {
        forall j | k < j <= |ms|
          ensures EntriesStatus(es + Entries(ms[..j], resource)) == s
        {
          ErrorSticksInScope(es, ms, resource, k + 1, j);
        }
        assert ms[..|ms|] == ms;
        assert forall j | k < j < |ms| :: out[j] == ms[k..][j - k];
        return;
      }
    }
    assert ms[..|ms|] == ms;
  }

  lemma NoEntries(resource: Attributes)
    ensures Entries([], resource) == []
  {
  }

  // ------------------------------------------------------------------
  // The batch
  // ------------------------------------------------------------------

  /** The resource of each scope of a batch. */
  function Owners(rms: seq<ResourceMetrics>): (r: seq<Attributes>)
    ensures |r| == |Scopes(rms)|
  {
    if rms == [] then []
    else
      var rm := rms[|rms| - 1];
      Owners(rms[..|rms| - 1]) + seq(|rm.scopes|, _ => rm.resource)
  }

  /** The process metrics of a batch in the order in which they are walked. */
  function ProcessEntries(scopes: seq<seq<Metric>>, owners: seq<Attributes>): seq<Entry>
    requires |owners| == |scopes|
  {
    if scopes == [] then []
    else
      var k := |scopes| - 1;
      ProcessEntries(scopes[..k], owners[..k])
        + (if IncludesProcessAttributes(owners[k]) then Entries(scopes[k], owners[k]) else [])
  }

  function EntriesOf(rms: seq<ResourceMetrics>): seq<Entry> {
    ProcessEntries(Scopes(rms), Owners(rms))
  }

  /** The resources that are not processes. */
  function Others(rms: seq<ResourceMetrics>): seq<ResourceMetrics> {
    if rms == [] then []
    else
      var rm := rms[|rms| - 1];
      Others(rms[..|rms| - 1]) + (if IncludesProcessAttributes(rm.resource) then [] else [rm])
  }

  method OtherMetrics(rms: seq<ResourceMetrics>) returns (out: seq<ResourceMetrics>)
    ensures out == Others(rms)
  {
    hide IncludesProcessAttributes;
    out := [];
    for i := 0 to |rms|
      invariant out == Others(rms[..i])
    {
      assert rms[..i + 1][..i] == rms[..i];
      if !IncludesProcessAttributes(rms[i].resource) {
        out := out + [rms[i]];
      }
    }
    assert rms[..|rms|] == rms;
  }

  /** What is left of a batch's scopes: those of processes are emptied, up to an error. */
  ghost predicate BatchLeft(scopes: seq<seq<Metric>>, owners: seq<Attributes>, out: seq<seq<Metric>>)
    requires |owners| == |scopes|
  {
    && |out| == |scopes|
    && forall n | 0 <= n < |scopes| ::
         if IncludesProcessAttributes(owners[n]) then
           ScopeLeft(ProcessEntries(scopes[..n], owners[..n]), scopes[n], owners[n], out[n])
         else out[n] == scopes[n]
  }

  lemma ProcessEntriesStep(scopes: seq<seq<Metric>>, owners: seq<Attributes>, n: nat)
    requires |owners| == |scopes| && n < |scopes|
    ensures ProcessEntries(scopes[..n + 1], owners[..n + 1]) == ProcessEntries(scopes[..n], owners[..n])
         + if IncludesProcessAttributes(owners[n]) then Entries(scopes[n], owners[n]) else []
  {
    assert scopes[..n + 1][..n] == scopes[..n] && owners[..n + 1][..n] == owners[..n];
  }

  lemma {:induction false} ErrorSticksInBatch(scopes: seq<seq<Metric>>, owners: seq<Attributes>, n: nat, m: nat)
    requires |owners| == |scopes| && n <= m <= |scopes|
    requires !EntriesStatus(ProcessEntries(scopes[..n], owners[..n])).Going?
    ensures EntriesStatus(ProcessEntries(scopes[..m], owners[..m]))
         == EntriesStatus(ProcessEntries(scopes[..n], owners[..n]))
  {
    hide EntriesStatus, Entries, ProcessEntries;
    if n < m {
      ErrorSticksInBatch(scopes, owners, n, m - 1);
      ProcessEntriesStep(scopes, owners, m - 1);
      ErrorSticks(ProcessEntries(scopes[..m - 1], owners[..m - 1]),
                  if IncludesProcessAttributes(owners[m - 1]) then Entries(scopes[m - 1], owners[m - 1]) else []);
    }
  }

  /** After an error the scopes that follow are as they were. */
  lemma UntouchedAfterError(es: seq<Entry>, ms: seq<Metric>, resource: Attributes)
    requires !EntriesStatus(es).Going?
    ensures ScopeLeft(es, ms, resource, ms)
  {
    forall k | 0 <= k < |ms| ensures LeftOf(es, ms, resource, k, ms[k]) {
      ErrorSticks(es, Entries(ms[..k + 1], resource));
      ErrorSticks(es, Entries(ms[..k], resource));
    }
  }

  /** `createProcessMetrics`: walks the scopes of the processes and stops at the first error. */
  method CreateProcessMetrics(scopes: seq<seq<Metric>>, owners: seq<Attributes>)
      returns (s: Status, cms: map<string, Metric>, out: seq<seq<Metric>>)
    requires |owners| == |scopes|
    ensures s == EntriesStatus(ProcessEntries(scopes, owners))
    ensures s.Going? ==> IsConverted(cms, ProcessEntries(scopes, owners))
    ensures !s.Panicked? ==> BatchLeft(scopes, owners, out)
  {
    hide ProcessEntries, Entries, EntriesStatus, IsConverted, ScopeLeft, IncludesProcessAttributes;
    s, cms, out := Going, map[], scopes;
    NothingConverted(scopes, owners);
    for n := 0 to |scopes|
      invariant |out| == |scopes| && out[n..] == scopes[n..]
      invariant s == Going && EntriesStatus(ProcessEntries(scopes[..n], owners[..n])).Going?
      invariant IsConverted(cms, ProcessEntries(scopes[..n], owners[..n]))
      invariant forall m | 0 <= m < n ::
                  if IncludesProcessAttributes(owners[m]) then
                    ScopeLeft(ProcessEntries(scopes[..m], owners[..m]), scopes[m], owners[m], out[m])
                  else out[m] == scopes[m]
    {
      ghost var es := ProcessEntries(scopes[..n], owners[..n]);
      ProcessEntriesStep(scopes, owners, n);
      assert out[n] == scopes[n];
      if IncludesProcessAttributes(owners[n]) {
        var ms;
        s, cms, ms := AppendScope(cms, scopes[n], owners[n], es);
        out := out[n := ms];
        if !s.Going? {
          forall m | n < m <= |scopes|
            ensures EntriesStatus(ProcessEntries(scopes[..m], owners[..m])) == s
          {
            ErrorSticksInBatch(scopes, owners, n + 1, m);
          }
          assert scopes[..|scopes|] == scopes && owners[..|scopes|] == owners;
          forall m | n < m < |scopes|
            ensures ScopeLeft(ProcessEntries(scopes[..m], owners[..m]), scopes[m], owners[m], out[m]) && out[m] == scopes[m]
          {
            assert out[m] == scopes[n..][m - n];
            UntouchedAfterError(ProcessEntries(scopes[..m], owners[..m]), scopes[m], owners[m]);
          }
          return;
        }
      } else {
        assert es + [] == es;
      }
    }
    assert scopes[..|scopes|] == scopes && owners[..|scopes|] == owners;
  }

  lemma NothingConverted(scopes: seq<seq<Metric>>, owners: seq<Attributes>)
    requires |owners| == |scopes|
    ensures IsConverted(map[], ProcessEntries(scopes[..0], owners[..0]))
    ensures EntriesStatus(ProcessEntries(scopes[..0], owners[..0])).Going?
  {
  }

  /** `At(0)` on a batch without any resource left, or on one without a scope, panics. */
  function CombineStatus(rms: seq<ResourceMetrics>): Status {
    var s, others := EntriesStatus(EntriesOf(rms)), Others(rms);
    if s.Going? && (others == [] || others[0].scopes == []) then Panicked else s
  }

  /** One metric per name, in any order. */
  ghost predicate AddedFor(es: seq<Entry>, added: seq<Metric>) {
    && (forall i | 0 <= i < |added| :: FirstNamed(es, added[i].name).Some? && added[i] == Converted(es, added[i].name))
    && (forall i, j | 0 <= i < j < |added| :: added[i].name != added[j].name)
    && (forall name | FirstNamed(es, name).Some? :: exists i :: 0 <= i < |added| && added[i].name == name)
  }

  /** Only the resources that are no processes are left; the first scope of the first of them got the new metrics. */
  ghost predicate Combined(rms: seq<ResourceMetrics>, rms': seq<ResourceMetrics>) {
    var others := Others(rms);
    && others != [] && others[0].scopes != []
    && exists added :: AddedFor(EntriesOf(rms), added)
         && rms' == others[0 := others[0].(scopes := others[0].scopes[0 := others[0].scopes[0] + added])]
  }

  /** The stage. On an error the batch keeps all its resources, but what was walked before has lost its points. */
  method CombineProcessMetrics(batch: Batch) returns (s: Status)
    modifies batch
    ensures s == CombineStatus(old(batch.rms))
    ensures s.Going? ==> Combined(old(batch.rms), batch.rms)
    ensures s.Failed? ==> |Scopes(batch.rms)| == |Scopes(old(batch.rms))|
    ensures s.Failed? ==> batch.rms == WithScopes(old(batch.rms), Scopes(batch.rms))
    ensures s.Failed? ==> BatchLeft(Scopes(old(batch.rms)), Owners(old(batch.rms)), Scopes(batch.rms))
  {
    hide Scopes, WithScopes, ProcessEntries, EntriesStatus, Others, ScopeLeft, FirstNamed, IncludesProcessAttributes;
    var others := OtherMetrics(batch.rms);
    var scopes, owners := Scopes(batch.rms), Owners(batch.rms);
    ghost var es := EntriesOf(batch.rms);
    var cms, out;
    s, cms, out := CreateProcessMetrics(scopes, owners);
    if s.Panicked? {
      return;
    }
    if s.Failed? {
      batch.SetScopes(out);
      return;
    }
    if others == [] || others[0].scopes == [] {
      return Panicked;
    }
    var added := Listed(cms, es);
    batch.rms := others[0 := others[0].(scopes := others[0].scopes[0 := others[0].scopes[0] + added])];
  }

  /** The loop over the converted metrics, in the order of Go's map iteration. */
  method Listed(cms: map<string, Metric>, ghost es: seq<Entry>) returns (added: seq<Metric>)
    requires IsConverted(cms, es)
    ensures AddedFor(es, added)
  {
    hide FirstNamed, PointsNamed;
    added := [];
    var rest := cms.Keys;
    while rest != {}
      invariant rest <= cms.Keys
      invariant forall i | 0 <= i < |added| :: added[i].name in cms && added[i].name !in rest && added[i] == cms[added[i].name]
      invariant forall i, j | 0 <= i < j < |added| :: added[i].name != added[j].name
      invariant forall name | name in cms && name !in rest :: exists i :: 0 <= i < |added| && added[i].name == name
      decreases rest
    {
      var name :| name in rest;
      assert ConvertedName(cms, es, name);
      UnnamedHasNoPoints(es, name);
      ghost var before := added;
      added := added + [cms[name]];
      rest := rest - {name};
      forall n | n in cms && n !in rest ensures exists i :: 0 <= i < |added| && added[i].name == n {
        if n == name {
          assert added[|before|].name == n;
        } else {
          var i :| 0 <= i < |before| && before[i].name == n;
          assert added[i].name == n;
        }
      }
    }
    forall i | 0 <= i < |added|
      ensures FirstNamed(es, added[i].name).Some? && added[i] == Converted(es, added[i].name)
    {
      assert ConvertedName(cms, es, added[i].name);
    }
    forall name | FirstNamed(es, name).Some? ensures exists i :: 0 <= i < |added| && added[i].name == name {
      assert ConvertedName(cms, es, name);
    }
  }
}
