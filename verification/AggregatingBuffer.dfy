/**
 The generated metrics builder: each metric buffers the points recorded for the current resource and, if it has
 attributes, aggregates points that become equal once its disabled attributes are gone.
 */
module AggregatingBuffer {
  import opened Go
  import opened Pdata

  /** `Plain` never aggregates: a metric without attributes, or a strategy that is none of the four. */
  datatype Strategy = SumUp | Average | Minimum | Maximum | Plain

  // ------------------------------------------------------------------
  // Arithmetic on int64 and float64 values
  // ------------------------------------------------------------------

  function Plus(a: Number, b: Number): Number {
    if a.Integer? then Integer(Wrap64(a.IntValue() + b.IntValue())) else Real(a.DoubleValue() + b.DoubleValue())
  }

  predicate Less(a: Number, b: Number) {
    if a.Integer? then a.IntValue() < b.IntValue() else a.DoubleValue() < b.DoubleValue()
  }

  function Over(a: Number, n: nat): Number
    requires n > 0
  {
    if a.Integer? then Integer(Quo(a.i, n)) else Real(a.DoubleValue() / n as real)
  }

  /** The type of the values a metric records. */
  datatype ValueType = Int64Values | Float64Values

  predicate HasType(t: ValueType, v: Number) {
    match t
    case Int64Values => v.Integer? && IsInt64(v.i)
    case Float64Values => v.Real?
  }

  // ------------------------------------------------------------------
  // The plain grouped fold
  // ------------------------------------------------------------------

  /** What makes two points the same one. */
  datatype Key = Key(attrs: Attributes, startTs: nat, ts: nat)

  /** One recorded point, its attributes already projected. */
  datatype Record = Record(key: Key, value: Number)

  /** The distinct keys, in the order of their first occurrence. */
  function Keys(rs: seq<Record>): (ks: seq<Key>)
    ensures forall i, j | 0 <= i < j < |ks| :: ks[i] != ks[j]
    ensures forall k :: k in ks <==> exists i | 0 <= i < |rs| :: rs[i].key == k
  {
    if rs == [] then []
    else
      var n := |rs| - 1;
      var ks := Keys(rs[..n]);
      assert forall k :: k in ks <==> exists i | 0 <= i < n :: rs[i].key == k by {
        assert forall i | 0 <= i < n :: rs[..n][i] == rs[i];
      }
      if rs[n].key in ks then ks else ks + [rs[n].key]
  }

  /** The values recorded under one key, in order. */
  function Group(rs: seq<Record>, k: Key): seq<Number> {
    if rs == [] then []
    else
      var n := |rs| - 1;
      Group(rs[..n], k) + (if rs[n].key == k then [rs[n].value] else [])
  }

  function Combine(s: Strategy, acc: Number, v: Number): Number {
    match s
    case SumUp => Plus(acc, v)
    case Average => Plus(acc, v)
    case Minimum => if Less(v, acc) then v else acc
    case Maximum => if Less(acc, v) then v else acc
    case Plain => acc
  }

  function Aggregate(s: Strategy, vs: seq<Number>): Number
    requires vs != []
  {
    if |vs| == 1 then vs[0] else Combine(s, Aggregate(s, vs[..|vs| - 1]), vs[|vs| - 1])
  }

  function PointAt(k: Key, v: Number): Point {
    Point(k.attrs, k.startTs, k.ts, v)
  }

  function KeyOf(p: Point): Key {
    Key(p.attrs, p.startTs, p.ts)
  }

  lemma {:induction false} GroupOfKey(rs: seq<Record>, k: Key)
    ensures k in Keys(rs) <==> Group(rs, k) != []
  {
    if rs != [] {
      var n := |rs| - 1;
      GroupOfKey(rs[..n], k);
      assert forall i | 0 <= i < n :: rs[..n][i] == rs[i];
    }
  }

  /** The point that stands for one group. */
  function GroupPoint(s: Strategy, rs: seq<Record>, k: Key): Point
    requires k in Keys(rs)
  {
    GroupOfKey(rs, k);
    PointAt(k, Aggregate(s, Group(rs, k)))
  }

  /** How many records the average of one group divides by; minimum and maximum do not count. */
  function GroupCount(s: Strategy, rs: seq<Record>, k: Key): (c: nat)
    requires k in Keys(rs)
    ensures c >= 1
  {
    GroupOfKey(rs, k);
    if s.SumUp? || s.Average? then |Group(rs, k)| else 1
  }

  /** The points and counts of a buffer after these records: one a group, or for a plain metric one a record. */
  predicate Buffers(s: Strategy, rs: seq<Record>, ps: seq<Point>, cs: seq<nat>) {
    if s.Plain? then
      && |ps| == |cs| == |rs|
      && (forall i | 0 <= i < |ps| :: ps[i] == PointAt(rs[i].key, rs[i].value) && cs[i] == 1)
    else
      var ks := Keys(rs);
      && |ps| == |cs| == |ks|
      && (forall i | 0 <= i < |ps| :: ps[i] == GroupPoint(s, rs, ks[i]) && cs[i] == GroupCount(s, rs, ks[i]))
  }

  // ------------------------------------------------------------------
  // How one more record changes the grouping
  // ------------------------------------------------------------------

  /** A record changes nothing about the other groups. */
  lemma OtherGroup(s: Strategy, rs: seq<Record>, r: Record, k: Key)
    requires k in Keys(rs) && k != r.key
    ensures k in Keys(rs + [r])
    ensures GroupPoint(s, rs + [r], k) == GroupPoint(s, rs, k)
    ensures GroupCount(s, rs + [r], k) == GroupCount(s, rs, k)
  {
    assert (rs + [r])[..|rs|] == rs;
    assert Group(rs + [r], k) == Group(rs, k);
  }

  lemma NewGroup(s: Strategy, rs: seq<Record>, r: Record)
    requires r.key !in Keys(rs)
    ensures Keys(rs + [r]) == Keys(rs) + [r.key]
    ensures GroupPoint(s, rs + [r], r.key) == PointAt(r.key, r.value)
    ensures GroupCount(s, rs + [r], r.key) == 1
  {
    assert (rs + [r])[..|rs|] == rs;
    GroupOfKey(rs, r.key);
    assert Group(rs + [r], r.key) == [r.value];
  }

  lemma SameGroup(s: Strategy, rs: seq<Record>, r: Record)
    requires r.key in Keys(rs)
    ensures Keys(rs + [r]) == Keys(rs)
    ensures var p := GroupPoint(s, rs, r.key);
            GroupPoint(s, rs + [r], r.key) == p.(value := Combine(s, p.value, r.value))
    ensures var c := GroupCount(s, rs, r.key);
            GroupCount(s, rs + [r], r.key) == if s.SumUp? || s.Average? then c + 1 else 1
  {
    assert (rs + [r])[..|rs|] == rs;
    GroupOfKey(rs, r.key);
    var vs, vs' := Group(rs, r.key), Group(rs + [r], r.key);
    assert vs' == vs + [r.value] && vs'[..|vs'| - 1] == vs;
  }

  lemma NewKeyAt(s: Strategy, rs: seq<Record>, r: Record, ps: seq<Point>, cs: seq<nat>, i: nat)
    requires Buffers(s, rs, ps, cs) && !s.Plain? && r.key !in Keys(rs) && i <= |ps|
    ensures i < |Keys(rs + [r])|
    ensures (ps + [PointAt(r.key, r.value)])[i] == GroupPoint(s, rs + [r], Keys(rs + [r])[i])
    ensures (cs + [1])[i] == GroupCount(s, rs + [r], Keys(rs + [r])[i])
  {
    NewGroup(s, rs, r);
    if i < |ps| {
      assert Keys(rs + [r])[i] == Keys(rs)[i];
      OtherGroup(s, rs, r, Keys(rs)[i]);
    }
    hide Keys, Group, Aggregate, Combine, GroupPoint, GroupCount, PointAt;
  }

  lemma NewKey(s: Strategy, rs: seq<Record>, r: Record, ps: seq<Point>, cs: seq<nat>)
    requires Buffers(s, rs, ps, cs) && (s.Plain? || r.key !in Keys(rs))
    ensures Buffers(s, rs + [r], ps + [PointAt(r.key, r.value)], cs + [1])
  {
    hide Keys, Group, Aggregate, Combine, GroupPoint, GroupCount, PointAt;
    if !s.Plain? {
      NewGroup(s, rs, r);
      forall i | 0 <= i <= |ps|
        ensures (ps + [PointAt(r.key, r.value)])[i] == GroupPoint(s, rs + [r], Keys(rs + [r])[i])
        ensures (cs + [1])[i] == GroupCount(s, rs + [r], Keys(rs + [r])[i])
      {
        NewKeyAt(s, rs, r, ps, cs, i);
      }
    }
  }

  lemma KnownKey(s: Strategy, rs: seq<Record>, r: Record, ps: seq<Point>, cs: seq<nat>, i: nat)
    requires Buffers(s, rs, ps, cs) && !s.Plain? && i < |ps| && KeyOf(ps[i]) == r.key
    ensures Buffers(s, rs + [r], ps[i := ps[i].(value := Combine(s, ps[i].value, r.value))],
                    cs[i := if s.SumUp? || s.Average? then cs[i] + 1 else cs[i]])
  {
    SameGroup(s, rs, r);
    hide Group, Aggregate, Combine, GroupPoint;
    forall j | 0 <= j < |ps| && j != i
      ensures ps[j] == GroupPoint(s, rs + [r], Keys(rs)[j]) && cs[j] == GroupCount(s, rs + [r], Keys(rs)[j])
    {
      OtherGroup(s, rs, r, Keys(rs)[j]);
    }
  }

  // ------------------------------------------------------------------
  // One metric's buffer
  // ------------------------------------------------------------------

  /** The point that leaves the buffer for one that stayed in it. */
  function EmittedPoint(s: Strategy, p: Point, c: nat): Point
    requires c >= 1
  {
    if s.Average? then p.(value := Over(p.value, c)) else p
  }

  /** The points emitted for a sequence of records: its buffered points, averages divided. */
  predicate Emission(s: Strategy, rs: seq<Record>, ps: seq<Point>) {
    if s.Plain? then |ps| == |rs| && forall i | 0 <= i < |ps| :: ps[i] == PointAt(rs[i].key, rs[i].value)
    else
      var ks := Keys(rs);
      && |ps| == |ks|
      && forall i | 0 <= i < |ps| :: ps[i] == EmittedPoint(s, GroupPoint(s, rs, ks[i]), GroupCount(s, rs, ks[i]))
  }

  predicate Typed(t: ValueType, rs: seq<Record>) {
    forall i | 0 <= i < |rs| :: HasType(t, rs[i].value)
  }

  class MetricBuffer {
    /** Name, unit and type of the metric; its points are in `dps`. */
    const template: Metric
    const enabled: bool
    const strategy: Strategy
    const valueType: ValueType
    const attribute: Option<string>
    const enabledAttributes: seq<string>

    var dps: seq<Point>
    var aggDataPoints: seq<nat>

    /** Everything recorded since the last emission. */
    ghost var records: seq<Record>

    ghost predicate Valid()
      reads this
    {
      && !template.data.OtherData?
      && (!enabled ==> records == [])
      && Typed(valueType, records)
      && Buffers(strategy, records, dps, aggDataPoints)
    }

    constructor (template: Metric, enabled: bool, strategy: Strategy, valueType: ValueType, attribute: Option<string>,
                 enabledAttributes: seq<string>)
      requires !template.data.OtherData?
      ensures Valid() && records == [] && this.valueType == valueType
    {
      this.template, this.enabled, this.strategy, this.valueType := template, enabled, strategy, valueType;
      this.attribute, this.enabledAttributes := attribute, enabledAttributes;
      dps, aggDataPoints, records := [], [], [];
    }

    /** The key a record gets: an attribute that is not enabled is dropped. */
    function Project(startTs: nat, ts: nat, attributeValue: string): Key {
      var attrs: Attributes := if attribute.Some? && attribute.value in enabledAttributes
                               then map[attribute.value := Str(attributeValue)] else map[];
      Key(attrs, startTs, ts)
    }

    /**
     What a key tells apart: the two times always, the attribute's values exactly if the attribute is enabled. Nothing
     else is in it.
     */
    lemma ProjectTells(startTs: nat, ts: nat, value: string, startTs': nat, ts': nat, value': string)
      ensures Project(startTs, ts, value) == Project(startTs', ts', value') <==>
                && startTs == startTs' && ts == ts'
                && (attribute.Some? && attribute.value in enabledAttributes ==> value == value')
      ensures Project(startTs, ts, value).startTs == startTs && Project(startTs, ts, value).ts == ts
      ensures forall a :: a in Project(startTs, ts, value).attrs <==> (attribute == Some(a) && a in enabledAttributes)
      ensures forall a | a in Project(startTs, ts, value).attrs :: Project(startTs, ts, value).attrs[a] == Str(value)
    {
      var k, k' := Project(startTs, ts, value), Project(startTs', ts', value');
      if k == k' && attribute.Some? && attribute.value in enabledAttributes {
        assert k.attrs[attribute.value] == k'.attrs[attribute.value];
      }
    }

    /** The parameter is an int64 or a float64, as the metric's values are. */
    method RecordDataPoint(startTs: nat, ts: nat, val: Number, attributeValue: string)
      requires Valid() && HasType(valueType, val)
      modifies this
      ensures Valid()
      ensures records
           == if enabled then old(records) + [Record(Project(startTs, ts, attributeValue), val)] else old(records)
    {
      hide Keys, GroupPoint, GroupCount, Combine;
      if !enabled {
        return;
      }
      var dp := PointAt(Project(startTs, ts, attributeValue), val);
      ghost var r := Record(KeyOf(dp), val);
      for i := 0 to |dps|
        invariant dps == old(dps) && aggDataPoints == old(aggDataPoints) && records == old(records)
        invariant strategy.Plain? || forall j | 0 <= j < i :: KeyOf(dps[j]) != r.key
      {
        var dpi := dps[i];
        if KeyOf(dp) == KeyOf(dpi) {
          match strategy {
            case SumUp | Average =>
              SumKnown(r, i);
              dps := dps[i := dpi.(value := Plus(dpi.value, val))];
              aggDataPoints := aggDataPoints[i := aggDataPoints[i] + 1];
              records := records + [r];
              return;
            case Minimum =>
              BoundKnown(r, i);
              if Less(val, dpi.value) {
                dps := dps[i := dpi.(value := val)];
              }
              records := records + [r];
              return;
            case Maximum =>
              BoundKnown(r, i);
              if Less(dpi.value, val) {
                dps := dps[i := dpi.(value := val)];
              }
              records := records + [r];
              return;
            case Plain =>
          }
        }
      }
      Unknown(r);
      aggDataPoints := aggDataPoints + [1];
      dps := dps + [dp];
      records := records + [r];
    }

    lemma SumKnown(r: Record, i: nat)
      requires Valid() && i < |dps| && KeyOf(dps[i]) == r.key && (strategy.SumUp? || strategy.Average?)
      ensures Buffers(strategy, records + [r], dps[i := dps[i].(value := Plus(dps[i].value, r.value))],
                      aggDataPoints[i := aggDataPoints[i] + 1])
    {
      KnownKey(strategy, records, r, dps, aggDataPoints, i);
    }

    lemma BoundKnown(r: Record, i: nat)
      requires Valid() && i < |dps| && KeyOf(dps[i]) == r.key && (strategy.Minimum? || strategy.Maximum?)
      ensures var replace := if strategy.Minimum? then Less(r.value, dps[i].value) else Less(dps[i].value, r.value);
              Buffers(strategy, records + [r], if replace then dps[i := dps[i].(value := r.value)] else dps, aggDataPoints)
    {
      KnownKey(strategy, records, r, dps, aggDataPoints, i);
      assert dps[i := dps[i]] == dps && aggDataPoints[i := aggDataPoints[i]] == aggDataPoints;
    }

    lemma Unknown(r: Record)
      requires Valid() && (strategy.Plain? || forall j | 0 <= j < |dps| :: KeyOf(dps[j]) != r.key)
      ensures Buffers(strategy, records + [r], dps + [PointAt(r.key, r.value)], aggDataPoints + [1])
    {
      NewKey(strategy, records, r, dps, aggDataPoints);
    }

    /** Hands over the buffered points, if there are any, and starts afresh. */
    method Emit() returns (metrics: seq<Metric>)
      requires Valid()
      modifies this
      ensures Valid() && records == []
      ensures Typed(valueType, old(records))
      ensures if old(records) == [] then metrics == []
              else |metrics| == 1 && !template.data.OtherData?
                   && Emission(strategy, old(records), metrics[0].Points())
                   && metrics[0] == template.WithPoints(metrics[0].Points())
    {
      hide GroupPoint, Over;
      metrics := [];
      if enabled && |dps| > 0 {
        var out := dps;
        if strategy.Average? {
          for i := 0 to |aggDataPoints|
            invariant |out| == |dps|
            invariant forall j | 0 <= j < i :: out[j] == EmittedPoint(strategy, dps[j], aggDataPoints[j])
            invariant forall j | i <= j < |out| :: out[j] == dps[j]
          {
            out := out[i := out[i].(value := Over(out[i].value, aggDataPoints[i]))];
          }
        }
        metrics := [template.WithPoints(out)];
        dps, aggDataPoints, records := [], [], [];
      }
    }
  }

  // ------------------------------------------------------------------
  // The builder
  // ------------------------------------------------------------------

  /** The metrics that a row of buffers emits for what each of them had recorded. */
  ghost predicate EmissionOfAll(buffers: seq<MetricBuffer>, recorded: seq<seq<Record>>, metrics: seq<Metric>)
    requires |buffers| == |recorded|
  {
    if buffers == [] then metrics == []
    else
      var k := |buffers| - 1;
      if recorded[k] == [] then EmissionOfAll(buffers[..k], recorded[..k], metrics)
      else
        && metrics != []
        && EmissionOfAll(buffers[..k], recorded[..k], metrics[..|metrics| - 1])
        && var m := metrics[|metrics| - 1];
           && !buffers[k].template.data.OtherData?
           && m == buffers[k].template.WithPoints(m.Points())
           && Emission(buffers[k].strategy, recorded[k], m.Points())
  }

  lemma OneMoreBuffer(buffers: seq<MetricBuffer>, recorded: seq<seq<Record>>, metrics: seq<Metric>, k: nat,
      out: seq<Metric>)
    requires |buffers| == |recorded| && k < |buffers| && EmissionOfAll(buffers[..k], recorded[..k], metrics)
    requires if recorded[k] == [] then out == []
             else |out| == 1 && !buffers[k].template.data.OtherData?
                  && Emission(buffers[k].strategy, recorded[k], out[0].Points())
                  && out[0] == buffers[k].template.WithPoints(out[0].Points())
    ensures EmissionOfAll(buffers[..k + 1], recorded[..k + 1], metrics + out)
  {
    hide Emission;
    assert buffers[..k + 1][..k] == buffers[..k] && recorded[..k + 1][..k] == recorded[..k];
    if out != [] {
      assert (metrics + out)[..|metrics + out| - 1] == metrics;
    } else {
      assert metrics + out == metrics;
    }
  }

  lemma NoBuffers()
    ensures EmissionOfAll([], [], [])
  {
  }

  /** An attribute filter: the strings it matches. */
  type Filters = map<string, set<string>>

  /** No include filter misses the resource and no exclude filter hits it; absent attributes are not filtered. */
  predicate Keeps(includes: Filters, excludes: Filters, resource: Attributes) {
    && (forall a | a in includes && a in resource :: AsString(resource[a]) in includes[a])
    && (forall a | a in excludes && a in resource :: AsString(resource[a]) !in excludes[a])
  }

  class MetricsBuilder {
    const buffers: seq<MetricBuffer>
    const includes: Filters
    const excludes: Filters
    var metricsBuffer: seq<ResourceMetrics>

    ghost predicate Valid()
      reads this, buffers
    {
      && (forall i | 0 <= i < |buffers| :: buffers[i].Valid())
      && (forall i, j | 0 <= i < j < |buffers| :: buffers[i] != buffers[j])
    }

    ghost function Recorded(): (r: seq<seq<Record>>)
      reads this, buffers
      ensures |r| == |buffers|
    {
      seq(|buffers|, i requires 0 <= i < |buffers| reads buffers => buffers[i].records)
    }

    constructor (buffers: seq<MetricBuffer>, includes: Filters, excludes: Filters)
      requires forall i | 0 <= i < |buffers| :: buffers[i].Valid()
      requires forall i, j | 0 <= i < j < |buffers| :: buffers[i] != buffers[j]
      ensures Valid() && this.buffers == buffers && metricsBuffer == []
    {
      this.buffers, this.includes, this.excludes, metricsBuffer := buffers, includes, excludes, [];
    }

    /** The emission half of `EmitForResource`: every buffer in turn. */
    method EmitAll() returns (metrics: seq<Metric>)
      requires Valid()
      modifies buffers
      ensures Valid() && forall b | b in buffers :: b.records == []
      ensures EmissionOfAll(buffers, old(Recorded()), metrics)
    {
      hide Emission, EmissionOfAll, MetricBuffer.Valid;
      metrics := [];
      ghost var recorded := Recorded();
      NoBuffers();
      assert buffers[..0] == [] && recorded[..0] == [];
      for k := 0 to |buffers|
        invariant Valid()
        invariant forall i | 0 <= i < k :: buffers[i].records == []
        invariant forall i | k <= i < |buffers| :: buffers[i].records == recorded[i]
        invariant EmissionOfAll(buffers[..k], recorded[..k], metrics)
      {
        var out := buffers[k].Emit();
        OneMoreBuffer(buffers, recorded, metrics, k, out);
        metrics := metrics + out;
      }
      assert buffers[..|buffers|] == buffers && recorded[..|buffers|] == recorded;
    }

    /**
     Moves what was recorded under the given resource. Every buffer is empty afterwards, whether or not a
     filter drops the resource: nothing recorded before can show up under the next one.
     */
    method EmitForResource(resource: Attributes) returns (ghost metrics: seq<Metric>)
      requires Valid()
      modifies this, buffers
      ensures Valid() && forall b | b in buffers :: b.records == []
      ensures EmissionOfAll(buffers, old(Recorded()), metrics)
      ensures metricsBuffer
           == old(metricsBuffer)
              + (if Keeps(includes, excludes, resource) && metrics != [] then [ResourceMetrics(resource, [metrics])] else [])
    {
      hide EmissionOfAll;
      var ms := EmitAll();
      metrics := ms;
      var rest := includes.Keys;
      while rest != {}
        invariant rest <= includes.Keys
        invariant forall a | a in includes.Keys - rest && a in resource :: AsString(resource[a]) in includes[a]
        decreases rest
      {
        var attr :| attr in rest;
        if attr in resource && AsString(resource[attr]) !in includes[attr] {
          return;
        }
        rest := rest - {attr};
      }
      rest := excludes.Keys;
      while rest != {}
        invariant rest <= excludes.Keys
        invariant forall a | a in excludes.Keys - rest && a in resource :: AsString(resource[a]) !in excludes[a]
        decreases rest
      {
        var attr :| attr in rest;
        if attr in resource && AsString(resource[attr]) in excludes[attr] {
          return;
        }
        rest := rest - {attr};
      }
      if |ms| > 0 {
        metricsBuffer := metricsBuffer + [ResourceMetrics(resource, [ms])];
      }
    }

    /** Returns everything accumulated and starts a new batch. */
    method Emit(resource: Attributes) returns (batch: seq<ResourceMetrics>, ghost metrics: seq<Metric>)
      requires Valid()
      modifies this, buffers
      ensures Valid() && metricsBuffer == [] && forall b | b in buffers :: b.records == []
      ensures EmissionOfAll(buffers, old(Recorded()), metrics)
      ensures batch
           == old(metricsBuffer)
              + (if Keeps(includes, excludes, resource) && metrics != [] then [ResourceMetrics(resource, [metrics])] else [])
    {
      metrics := EmitForResource(resource);
      batch := metricsBuffer;
      metricsBuffer := [];
    }
  }

  // ------------------------------------------------------------------
  // What an emitted value is
  // ------------------------------------------------------------------

  function IntTotal(vs: seq<Number>): int {
    if vs == [] then 0 else IntTotal(vs[..|vs| - 1]) + vs[|vs| - 1].IntValue()
  }

  function RealTotal(vs: seq<Number>): real {
    if vs == [] then 0.0 else RealTotal(vs[..|vs| - 1]) + vs[|vs| - 1].DoubleValue()
  }

  predicate AllInts(vs: seq<Number>) {
    forall i | 0 <= i < |vs| :: vs[i].Integer? && IsInt64(vs[i].i)
  }

  predicate AllReals(vs: seq<Number>) {
    forall i | 0 <= i < |vs| :: vs[i].Real?
  }

  /** Integers add up to their total, wrapped around int64 once however often the additions did. */
  lemma {:induction false} IntsAddUp(s: Strategy, vs: seq<Number>)
    requires AllInts(vs) && vs != [] && (s.SumUp? || s.Average?)
    ensures Aggregate(s, vs) == Integer(Wrap64(IntTotal(vs)))
  {
    var k := |vs| - 1;
    if k > 0 {
      IntsAddUp(s, vs[..k]);
      var t := IntTotal(vs[..k]);
      WrapIsCongruent(t);
      CongruentSum(t, Wrap64(t), vs[k].i, vs[k].i);
      CongruentWraps(t + vs[k].i, Wrap64(t) + vs[k].i);
    } else {
      assert vs[..0] == [];
    }
  }

  lemma {:induction false} RealsAddUp(s: Strategy, vs: seq<Number>)
    requires AllReals(vs) && vs != [] && (s.SumUp? || s.Average?)
    ensures Aggregate(s, vs) == Real(RealTotal(vs))
  {
    if |vs| > 1 {
      RealsAddUp(s, vs[..|vs| - 1]);
    } else {
      assert vs[..0] == [];
    }
  }

  /** Two numbers of one type in numeric order. */
  predicate AtMost(a: Number, b: Number) {
    (a.Integer? && b.Integer? && a.i <= b.i) || (a.Real? && b.Real? && a.d <= b.d)
  }

  predicate IsLeast(v: Number, vs: seq<Number>) {
    v in vs && forall i | 0 <= i < |vs| :: AtMost(v, vs[i])
  }

  predicate IsGreatest(v: Number, vs: seq<Number>) {
    v in vs && forall i | 0 <= i < |vs| :: AtMost(vs[i], v)
  }

  /** The least or the greatest of the recorded values, and one of them. */
  lemma {:induction false} BoundIsAttained(s: Strategy, vs: seq<Number>)
    requires (AllInts(vs) || AllReals(vs)) && vs != [] && (s.Minimum? || s.Maximum?)
    ensures if s.Minimum? then IsLeast(Aggregate(s, vs), vs) else IsGreatest(Aggregate(s, vs), vs)
  {
    if |vs| > 1 {
      var k := |vs| - 1;
      BoundIsAttained(s, vs[..k]);
      assert forall i | 0 <= i < k :: vs[..k][i] == vs[i];
      assert Aggregate(s, vs[..k]) in vs;
    }
  }

  /** What one emitted point says about its group of records. */
  lemma EmittedValue(s: Strategy, rs: seq<Record>, ps: seq<Point>, i: nat)
    requires !s.Plain? && Emission(s, rs, ps) && i < |ps|
    ensures var vs, v := Group(rs, KeyOf(ps[i])), ps[i].value;
            && vs != []
            && (AllInts(vs) ==>
                  match s
                  case SumUp => v == Integer(Wrap64(IntTotal(vs)))
                  case Average => v == Integer(Quo(Wrap64(IntTotal(vs)), |vs|))
                  case Minimum => IsLeast(v, vs)
                  case Maximum => IsGreatest(v, vs))
            && (AllReals(vs) ==>
                  match s
                  case SumUp => v == Real(RealTotal(vs))
                  case Average => v == Real(RealTotal(vs) / |vs| as real)
                  case Minimum => IsLeast(v, vs)
                  case Maximum => IsGreatest(v, vs))
  {
    var k := Keys(rs)[i];
    GroupOfKey(rs, k);
    var vs := Group(rs, k);
    hide Keys, Group, Wrap64, Quo;
    if AllInts(vs) && (s.SumUp? || s.Average?) {
      IntsAddUp(s, vs);
    }
    if AllReals(vs) && (s.SumUp? || s.Average?) {
      RealsAddUp(s, vs);
    }
    if (AllInts(vs) || AllReals(vs)) && (s.Minimum? || s.Maximum?) {
      BoundIsAttained(s, vs);
    }
  }

  lemma {:induction false} GroupIsTyped(t: ValueType, rs: seq<Record>, k: Key)
    requires Typed(t, rs)
    ensures if t.Int64Values? then AllInts(Group(rs, k)) else AllReals(Group(rs, k))
  {
    if rs != [] {
      GroupIsTyped(t, rs[..|rs| - 1], k);
      assert HasType(t, rs[|rs| - 1].value);
    }
  }

  /** The value of an emitted point, for the records of a buffer: all of the metric's one type. */
  lemma TypedEmittedValue(s: Strategy, t: ValueType, rs: seq<Record>, ps: seq<Point>, i: nat)
    requires !s.Plain? && Typed(t, rs) && Emission(s, rs, ps) && i < |ps|
    ensures var vs, v := Group(rs, KeyOf(ps[i])), ps[i].value;
            && vs != []
            && match s
               case SumUp => v == if t.Int64Values? then Integer(Wrap64(IntTotal(vs))) else Real(RealTotal(vs))
               case Average =>
                 v == if t.Int64Values? then Integer(Quo(Wrap64(IntTotal(vs)), |vs|)) else Real(RealTotal(vs) / |vs| as real)
               case Minimum => IsLeast(v, vs)
               case Maximum => IsGreatest(v, vs)
  {
    hide Group, Keys, Emission, Wrap64, Quo, AllInts, AllReals, IsLeast, IsGreatest;
    GroupIsTyped(t, rs, KeyOf(ps[i]));
    EmittedValue(s, rs, ps, i);
  }

  /** Emitted keys are distinct unless the metric is plain and the same key was recorded twice. */
  lemma KeysAreDistinct(s: Strategy, rs: seq<Record>, ps: seq<Point>)
    requires Emission(s, rs, ps)
    ensures (forall i, j | 0 <= i < j < |ps| :: KeyOf(ps[i]) != KeyOf(ps[j]))
       <==> !s.Plain? || forall i, j | 0 <= i < j < |rs| :: rs[i].key != rs[j].key
  {
    if s.Plain? {
      assert forall i | 0 <= i < |ps| :: KeyOf(ps[i]) == rs[i].key;
    } else {
      assert forall i | 0 <= i < |ps| :: KeyOf(ps[i]) == Keys(rs)[i];
    }
  }
}
