/** The stage that appends the average time of disk operations, accumulated per device and direction. */
module AverageDisk {
  import opened Go
  import opened Pdata

  const OP_NAME: string := "system.disk.operations"
  const OP_TIME_NAME: string := "system.disk.operation_time"

  datatype OpKey = OpKey(device: string, direction: string)

  /** The last points seen of a key and its accumulator. A point that was never seen is `None`. */
  datatype OpData = OpData(operations: Option<Point>, time: Option<Point>, cumAvgTime: real)

  const ZERO: OpData := OpData(None, None, 0.0)

  predicate Labelled(p: Point) {
    "device" in p.attrs && "direction" in p.attrs
  }

  function Label(p: Point, name: string): string {
    if name in p.attrs then AsString(p.attrs[name]) else ""
  }

  function KeyOfPoint(p: Point): OpKey {
    OpKey(Label(p, "device"), Label(p, "direction"))
  }

  /** The time point, if there is one, is labelled with this key. */
  predicate Keyed(op: OpData, key: OpKey) {
    op.time.Some? ==> Labelled(op.time.value) && KeyOfPoint(op.time.value) == key
  }

  // ------------------------------------------------------------------
  // One key
  // ------------------------------------------------------------------

  /** The difference of two uint64 timestamps. */
  function Interval(a: Point, b: Point): nat {
    (b.ts - a.ts) % TWO_64
  }

  /** The numeric accessors of a point that was never set read 0. */
  function Operations(op: OpData): int {
    if op.operations.Some? then op.operations.value.value.IntValue() else 0
  }

  function BusyTime(op: OpData): real {
    if op.time.Some? then op.time.value.value.DoubleValue() else 0.0
  }

  /** The new operations between two observations. */
  function NewOps(a: OpData, b: OpData): int {
    Wrap64(Operations(b) - Operations(a))
  }

  /** Busy time per operation over the interval, in seconds; nothing if no operation was counted. */
  function Increment(a: OpData, b: OpData): real {
    if NewOps(a, b) <= 0 || a.time.None? || b.time.None? then 0.0
    else
      (BusyTime(b) - BusyTime(a)) / NewOps(a, b) as real * Interval(a.time.value, b.time.value) as real / 1000000000.0
  }

  /**
   A known key is reported by copying its time point, and new operations need the time of the point before. A point
   that was never set has neither.
   */
  predicate KeyPanics(prev: Option<OpData>, op: OpData) {
    prev.Some? && (op.time.None? || (NewOps(prev.value, op) > 0 && prev.value.time.None?))
  }

  /** One reading of a scope: a point of one of the two disk metrics. */
  datatype Reading = Reading(isTime: bool, point: Point)

  function Noted(op: OpData, r: Reading): OpData {
    if r.isTime then op.(time := Some(r.point)) else op.(operations := Some(r.point))
  }

  /** A key's data after the readings of a scope. */
  function Latest(op: OpData, rs: seq<Reading>, key: OpKey): OpData {
    if rs == [] then op
    else
      var before := Latest(op, rs[..|rs| - 1], key);
      if KeyOfPoint(rs[|rs| - 1].point) == key then Noted(before, rs[|rs| - 1]) else before
  }

  predicate Occurs(rs: seq<Reading>, key: OpKey) {
    exists i :: 0 <= i < |rs| && KeyOfPoint(rs[i].point) == key
  }

  function Advanced(prev: Option<OpData>, op: OpData): OpData {
    if prev.Some? then op.(cumAvgTime := op.cumAvgTime + Increment(prev.value, op)) else op
  }

  /** What is kept of a key after a scope. */
  function Observe(prev: Option<OpData>, rs: seq<Reading>, key: OpKey): Option<OpData> {
    if Occurs(rs, key) then Some(Advanced(prev, Latest(prev.GetOr(ZERO), rs, key))) else prev
  }

  /** What a scope reports for a key: nothing on first sight, then one point with the accumulator. */
  function Emits(prev: Option<OpData>, rs: seq<Reading>, key: OpKey): seq<Point> {
    if prev.None? || !Occurs(rs, key) then []
    else
      var op := Observe(prev, rs, key).value;
      if op.time.None? then [] else [op.time.value.(value := Real(op.cumAvgTime))]
  }

  // ------------------------------------------------------------------
  // One scope
  // ------------------------------------------------------------------

  function PointReadings(isTime: bool, ps: seq<Point>): (rs: seq<Reading>)
    ensures |rs| == |ps|
  {
    if ps == [] then [] else PointReadings(isTime, ps[..|ps| - 1]) + [Reading(isTime, ps[|ps| - 1])]
  }

  predicate IsDisk(m: Metric) {
    m.name == OP_NAME || m.name == OP_TIME_NAME
  }

  function Readings(ms: seq<Metric>): seq<Reading> {
    if ms == [] then []
    else
      var m := ms[|ms| - 1];
      Readings(ms[..|ms| - 1]) + (if IsDisk(m) then PointReadings(m.name == OP_TIME_NAME, m.Points()) else [])
  }

  /** Each disk metric is a Sum whose points have both labels. */
  predicate Readable(ms: seq<Metric>) {
    forall i | 0 <= i < |ms| && IsDisk(ms[i]) ::
      ms[i].data.Sum? && forall j | 0 <= j < |ms[i].data.points| :: Labelled(ms[i].data.points[j])
  }

  function Look(prev: map<OpKey, OpData>, key: OpKey): Option<OpData> {
    if key in prev then Some(prev[key]) else None
  }

  function KeysOf(rs: seq<Reading>): set<OpKey> {
    set i | 0 <= i < |rs| :: KeyOfPoint(rs[i].point)
  }

  function AfterScope(prev: map<OpKey, OpData>, ms: seq<Metric>): map<OpKey, OpData> {
    var rs := Readings(ms);
    map key | key in prev.Keys + KeysOf(rs) :: Observe(Look(prev, key), rs, key).GetOr(ZERO)
  }

  /** The last operation time metric of a scope. */
  function TimeMetric(ms: seq<Metric>): Option<Metric> {
    if ms == [] then None
    else if ms[|ms| - 1].name == OP_TIME_NAME then Some(ms[|ms| - 1])
    else TimeMetric(ms[..|ms| - 1])
  }

  ghost predicate SomeKeyPanics(prev: map<OpKey, OpData>, rs: seq<Reading>) {
    exists key :: Occurs(rs, key) && KeyPanics(Look(prev, key), Latest(Look(prev, key).GetOr(ZERO), rs, key))
  }

  /**
   The walk uses something that is not there: a label, the points of a Sum, a time point, or the operation time
   metric to copy.
   */
  ghost predicate Panics(prev: map<OpKey, OpData>, ms: seq<Metric>) {
    var rs := Readings(ms);
    || !Readable(ms)
    || SomeKeyPanics(prev, rs)
    || (TimeMetric(ms).None? && exists key :: key in prev && Occurs(rs, key))
  }

  /** The points of one key. */
  function OfKey(ps: seq<Point>, key: OpKey): seq<Point> {
    if ps == [] then []
    else OfKey(ps[..|ps| - 1], key) + (if KeyOfPoint(ps[|ps| - 1]) == key then [ps[|ps| - 1]] else [])
  }

  ghost predicate ReportsAll(prev: map<OpKey, OpData>, ms: seq<Metric>, ps: seq<Point>) {
    forall key :: OfKey(ps, key) == Emits(Look(prev, key), Readings(ms), key)
  }

  /** The scope is as it was or has one more metric: the operation time metric renamed, with the points to report. */
  ghost predicate ScopeAveraged(prev: map<OpKey, OpData>, ms: seq<Metric>, out: seq<Metric>) {
    if out == ms then ReportsAll(prev, ms, [])
    else
      && |out| == |ms| + 1 && out[..|ms|] == ms
      && TimeMetric(ms).Some? && TimeMetric(ms).value.data.Sum?
      && var m, u := TimeMetric(ms).value, out[|ms|];
      && u == m.(name := WithPostfix(OP_TIME_NAME, "average_operation_time"), data := m.data.(points := u.Points()))
      && u.Points() != [] && ReportsAll(prev, ms, u.Points())
  }

  ghost predicate AllKeyed(prev: map<OpKey, OpData>) {
    forall key | key in prev :: Keyed(prev[key], key)
  }

  // ------------------------------------------------------------------
  // Collecting the points
  // ------------------------------------------------------------------

  /** `newOp` after some readings. */
  function Collected(prev: map<OpKey, OpData>, rs: seq<Reading>): map<OpKey, OpData> {
    if rs == [] then map[]
    else
      var newOp, r := Collected(prev, rs[..|rs| - 1]), rs[|rs| - 1];
      var key := KeyOfPoint(r.point);
      newOp[key := Noted(if key in newOp then newOp[key] else Look(prev, key).GetOr(ZERO), r)]
  }

  lemma {:induction false} CollectedPerKey(prev: map<OpKey, OpData>, rs: seq<Reading>, key: OpKey)
    ensures key in Collected(prev, rs) <==> Occurs(rs, key)
    ensures key in Collected(prev, rs) ==> Collected(prev, rs)[key] == Latest(Look(prev, key).GetOr(ZERO), rs, key)
    ensures !Occurs(rs, key) ==> Latest(Look(prev, key).GetOr(ZERO), rs, key) == Look(prev, key).GetOr(ZERO)
  {
    hide Label, Noted;
    if rs != [] {
      var k := |rs| - 1;
      CollectedPerKey(prev, rs[..k], key);
      OccursStep(rs, key);
    }
  }

  lemma OccursStep(rs: seq<Reading>, key: OpKey)
    requires rs != []
    ensures Occurs(rs, key) <==> Occurs(rs[..|rs| - 1], key) || KeyOfPoint(rs[|rs| - 1].point) == key
  {
    hide KeyOfPoint;
    if Occurs(rs[..|rs| - 1], key) {
      var i :| 0 <= i < |rs| - 1 && KeyOfPoint(rs[..|rs| - 1][i].point) == key;
      assert KeyOfPoint(rs[i].point) == key;
    }
    if Occurs(rs, key) && KeyOfPoint(rs[|rs| - 1].point) != key {
      var i :| 0 <= i < |rs| && KeyOfPoint(rs[i].point) == key;
      assert KeyOfPoint(rs[..|rs| - 1][i].point) == key;
    }
  }

  lemma CollectedStep(prev: map<OpKey, OpData>, rs: seq<Reading>, r: Reading)
    ensures var newOp, key := Collected(prev, rs), KeyOfPoint(r.point);
            Collected(prev, rs + [r])
              == newOp[key := Noted(if key in newOp then newOp[key] else Look(prev, key).GetOr(ZERO), r)]
  {
    assert (rs + [r])[..|rs|] == rs;
  }

  /** The inner loop: the points of one disk metric. */
  method CollectPoints(prev: map<OpKey, OpData>, newOp: map<OpKey, OpData>, ghost rs: seq<Reading>, m: Metric)
      returns (panicked: bool, newOp': map<OpKey, OpData>)
    requires newOp == Collected(prev, rs) && m.data.Sum?
    ensures panicked <==> exists i :: 0 <= i < |m.data.points| && !Labelled(m.data.points[i])
    ensures !panicked ==> newOp' == Collected(prev, rs + PointReadings(m.name == OP_TIME_NAME, m.data.points))
  {
    hide Labelled, KeyOfPoint, Collected;
    var ps, isTime := m.data.points, m.name == OP_TIME_NAME;
    panicked, newOp' := false, newOp;
    assert rs + [] == rs;
    for i := 0 to |ps|
      invariant forall j | 0 <= j < i :: Labelled(ps[j])
      invariant newOp' == Collected(prev, rs + PointReadings(isTime, ps[..i]))
    {
      var p := ps[i];
      if !Labelled(p) {
        return true, newOp';
      }
      assert ps[..i + 1][..i] == ps[..i];
      ghost var before := rs + PointReadings(isTime, ps[..i]);
      assert rs + PointReadings(isTime, ps[..i + 1]) == before + [Reading(isTime, p)];
      CollectedStep(prev, before, Reading(isTime, p));
      var key := KeyOfPoint(p);
      var op := if key in newOp' then newOp'[key] else Look(prev, key).GetOr(ZERO);
      newOp' := newOp'[key := if isTime then op.(time := Some(p)) else op.(operations := Some(p))];
    }
    assert ps[..|ps|] == ps;
  }

  method Collect(prev: map<OpKey, OpData>, ms: seq<Metric>)
      returns (panicked: bool, newOp: map<OpKey, OpData>, opTimeMetric: Option<Metric>)
    ensures panicked <==> !Readable(ms)
    ensures !panicked ==> newOp == Collected(prev, Readings(ms)) && opTimeMetric == TimeMetric(ms)
  {
    hide Labelled, Collected, PointReadings;
    panicked, newOp, opTimeMetric := false, map[], None;
    NothingCollected(prev);
    for k := 0 to |ms|
      invariant Readable(ms[..k])
      invariant newOp == Collected(prev, Readings(ms[..k])) && opTimeMetric == TimeMetric(ms[..k])
    {
      var m := ms[k];
      assert ms[..k + 1][..k] == ms[..k] && ms[..k + 1][k] == m;
      if IsDisk(m) {
        if m.name == OP_TIME_NAME {
          opTimeMetric := Some(m);
        }
        if !m.data.Sum? {
          return true, newOp, opTimeMetric;
        }
        panicked, newOp := CollectPoints(prev, newOp, Readings(ms[..k]), m);
        if panicked {
          return;
        }
      } else {
        assert Readings(ms[..k]) + [] == Readings(ms[..k]);
      }
      assert forall i | 0 <= i < k :: ms[..k + 1][i] == ms[..k][i];
    }
    assert ms[..|ms|] == ms;
  }

  lemma NothingCollected(prev: map<OpKey, OpData>)
    ensures Collected(prev, []) == map[]
  {
  }
}
