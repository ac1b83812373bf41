/** The average disk time stage over scopes, batches and whole runs. */
module AverageDiskStage {
  import opened Go
  import opened Pdata
  import opened AverageDisk

  lemma {:induction false} OfKeyAppended(ps: seq<Point>, p: Point, key: OpKey)
    ensures OfKey(ps + [p], key) == OfKey(ps, key) + (if KeyOfPoint(p) == key then [p] else [])
  {
    assert (ps + [p])[..|ps|] == ps;
  }

  predicate ReadingsLabelled(rs: seq<Reading>) {
    forall i | 0 <= i < |rs| :: Labelled(rs[i].point)
  }

  lemma {:induction false} PointReadingsLabelled(isTime: bool, ps: seq<Point>)
    requires forall j | 0 <= j < |ps| :: Labelled(ps[j])
    ensures ReadingsLabelled(PointReadings(isTime, ps))
  {
    hide Labelled;
    if ps != [] {
      PointReadingsLabelled(isTime, ps[..|ps| - 1]);
    }
  }

  lemma {:induction false} ReadableIsLabelled(ms: seq<Metric>)
    requires Readable(ms)
    ensures ReadingsLabelled(Readings(ms))
  {
    hide Labelled, PointReadings;
    if ms != [] {
      var k := |ms| - 1;
      ReadableIsLabelled(ms[..k]);
      if IsDisk(ms[k]) {
        PointReadingsLabelled(ms[k].name == OP_TIME_NAME, ms[k].Points());
      }
    }
  }

  /** A key's time point is labelled with that key, however old it is. */
  lemma {:induction false} LatestTime(op: OpData, rs: seq<Reading>, key: OpKey)
    requires ReadingsLabelled(rs)
    requires op.time.Some? ==> Labelled(op.time.value) && KeyOfPoint(op.time.value) == key
    ensures var last := Latest(op, rs, key);
            last.time.Some? ==> Labelled(last.time.value) && KeyOfPoint(last.time.value) == key
  {
    hide Labelled, KeyOfPoint;
    if rs != [] {
      LatestTime(op, rs[..|rs| - 1], key);
    }
  }

  lemma LatestIsKeyed(prev: map<OpKey, OpData>, ms: seq<Metric>, key: OpKey)
    requires AllKeyed(prev) && Readable(ms)
    ensures Keyed(Latest(Look(prev, key).GetOr(ZERO), Readings(ms), key), key)
  {
    hide Labelled, KeyOfPoint, Latest;
    ReadableIsLabelled(ms);
    LatestTime(Look(prev, key).GetOr(ZERO), Readings(ms), key);
  }

  /** What a key's readings change is independent of every other key. */
  lemma AfterScopePerKey(prev: map<OpKey, OpData>, ms: seq<Metric>, key: OpKey)
    ensures Look(AfterScope(prev, ms), key) == Observe(Look(prev, key), Readings(ms), key)
  {
    var rs := Readings(ms);
    assert key in KeysOf(rs) <==> Occurs(rs, key);
    hide Readings, KeysOf, KeyOfPoint, Latest;
  }

  /** What `prevOp` holds while the keys of a scope are being reported. */
  ghost predicate PartlyAfter(prev: map<OpKey, OpData>, rs: seq<Reading>, done: set<OpKey>, prevOp: map<OpKey, OpData>) {
    forall key :: Look(prevOp, key) == if key in done then Observe(Look(prev, key), rs, key) else Look(prev, key)
  }

  ghost predicate PartlyReported(prev: map<OpKey, OpData>, rs: seq<Reading>, done: set<OpKey>, ps: seq<Point>) {
    && (forall key :: OfKey(ps, key) == if key in done then Emits(Look(prev, key), rs, key) else [])
    && (ps == [] <==> forall key | key in done :: key !in prev)
  }

  lemma PartlyAfterAll(prev: map<OpKey, OpData>, ms: seq<Metric>, done: set<OpKey>, prevOp: map<OpKey, OpData>)
    requires PartlyAfter(prev, Readings(ms), done, prevOp)
    requires forall key :: key in done <==> Occurs(Readings(ms), key)
    ensures prevOp == AfterScope(prev, ms)
  {
    hide Readings, AfterScope, Occurs;
    var after := AfterScope(prev, ms);
    forall key ensures Look(prevOp, key) == Look(after, key) {
      AfterScopePerKey(prev, ms, key);
    }
    assert forall key :: key in prevOp <==> Look(prevOp, key).Some?;
    assert forall key :: key in after <==> Look(after, key).Some?;
    assert forall key | key in prevOp :: prevOp[key] == Look(prevOp, key).value == Look(after, key).value == after[key];
  }

  lemma StaysKeyed(prev: map<OpKey, OpData>, ms: seq<Metric>)
    requires AllKeyed(prev) && Readable(ms)
    ensures AllKeyed(AfterScope(prev, ms))
  {
    hide Latest, Readings, Labelled, KeyOfPoint, Increment, Readable;
    forall key | key in AfterScope(prev, ms) ensures Keyed(AfterScope(prev, ms)[key], key) {
      AfterScopePerKey(prev, ms, key);
      LatestIsKeyed(prev, ms, key);
      hide AfterScope, Occurs;
    }
  }

  lemma OneMoreKey(prev: map<OpKey, OpData>, rs: seq<Reading>, done: set<OpKey>, prevOp: map<OpKey, OpData>, key: OpKey,
      op: OpData)
    requires PartlyAfter(prev, rs, done, prevOp) && key !in done && Observe(Look(prev, key), rs, key) == Some(op)
    ensures PartlyAfter(prev, rs, done + {key}, prevOp[key := op])
  {
    hide Observe;
    forall k ensures Look(prevOp[key := op], k)
                  == if k in done + {key} then Observe(Look(prev, k), rs, k) else Look(prev, k) {
      assert Look(prevOp, k) == if k in done then Observe(Look(prev, k), rs, k) else Look(prev, k);
    }
  }

  lemma OneMoreReported(prev: map<OpKey, OpData>, rs: seq<Reading>, done: set<OpKey>, ps: seq<Point>, key: OpKey,
      added: seq<Point>)
    requires PartlyReported(prev, rs, done, ps) && key !in done && added == Emits(Look(prev, key), rs, key)
    requires if key in prev then |added| == 1 && KeyOfPoint(added[0]) == key else added == []
    ensures PartlyReported(prev, rs, done + {key}, ps + added)
  {
    hide Emits, KeyOfPoint, OfKey;
    forall k ensures OfKey(ps + added, k) == if k in done + {key} then Emits(Look(prev, k), rs, k) else [] {
      if added == [] {
        assert ps + added == ps;
      } else {
        assert added == [added[0]];
        OfKeyAppended(ps, added[0], k);
      }
    }
    if added == [] {
      assert ps + added == ps;
    }
  }

  /** The body of the second loop for one key: the new data of the key, and the point to report if it was known. */
  method ReportKey(prevOp: map<OpKey, OpData>, key: OpKey, op: OpData) returns (op': OpData, ndps: seq<Point>)
    requires !KeyPanics(Look(prevOp, key), op)
    ensures op' == Advanced(Look(prevOp, key), op)
    ensures ndps == if key in prevOp then [op.time.value.(value := Real(op'.cumAvgTime))] else []
  {
    hide Labelled, KeyOfPoint;
    op', ndps := op, [];
    if key in prevOp {
      var prev := prevOp[key];
      var t := BusyTime(op) - BusyTime(prev);
      var ops := Wrap64(Operations(op) - Operations(prev));
      if ops > 0 {
        var interval := (op.time.value.ts - prev.time.value.ts) % TWO_64;
        op' := op'.(cumAvgTime := op.cumAvgTime + t / ops as real * interval as real / 1000000000.0);
      }
      ndps := [op.time.value.(value := Real(op'.cumAvgTime))];
    }
  }

  /** The part of the processor's state that this stage keeps. */
  class DiskOps {
    var prevOp: map<OpKey, OpData>

    ghost predicate Valid()
      reads this
    {
      AllKeyed(prevOp)
    }

    constructor ()
      ensures Valid() && prevOp == map[]
    {
      prevOp := map[];
    }

    /** The second loop: visits the keys of the scope in the order of Go's map iteration, whatever that is. */
    method ReportKeys(ghost ms: seq<Metric>, newOp: map<OpKey, OpData>) returns (s: Status, ndps: seq<Point>)
      requires Valid() && Readable(ms) && newOp == Collected(prevOp, Readings(ms))
      modifies this
      ensures s.Going? || s.Panicked?
      ensures s.Panicked? <==> SomeKeyPanics(old(prevOp), Readings(ms))
      ensures s.Going? ==> prevOp == AfterScope(old(prevOp), ms) && ReportsAll(old(prevOp), ms, ndps)
      ensures s.Going? ==> (ndps == [] <==> forall key | key in old(prevOp) :: !Occurs(Readings(ms), key))
    {
      ghost var prev, rs := prevOp, Readings(ms);
      forall key ensures key in newOp <==> Occurs(rs, key) {
        CollectedPerKey(prev, rs, key);
      }
      hide Collected, Occurs, Readable, Readings, Latest, KeyPanics, Advanced, Observe, Emits, Label, AfterScope;
      var rest := newOp.Keys;
      ghost var done: set<OpKey> := {};
      s, ndps := Going, [];
      while rest != {}
        invariant done <= newOp.Keys && rest <= newOp.Keys && forall key | key in newOp :: key in done <==> key !in rest
        invariant forall key | key in done :: !KeyPanics(Look(prev, key), Latest(Look(prev, key).GetOr(ZERO), rs, key))
        invariant PartlyAfter(prev, rs, done, prevOp) && PartlyReported(prev, rs, done, ndps)
        decreases rest
      {
        var key :| key in rest;
        var op := newOp[key];
        CollectedPerKey(prev, rs, key);
        assert Look(prevOp, key) == Look(prev, key);
        if KeyPanics(Look(prevOp, key), op) {
          return Panicked, ndps;
        }
        LatestIsKeyed(prev, ms, key);
        var op', added := ReportKey(prevOp, key, op);
        ObservedKey(prev, rs, key, op, op', added);
        OneMoreKey(prev, rs, done, prevOp, key, op');
        OneMoreReported(prev, rs, done, ndps, key, added);
        prevOp := prevOp[key := op'];
        ndps := ndps + added;
        done, rest := done + {key}, rest - {key};
      }
      PartlyAfterAll(prev, ms, done, prevOp);
      AllReported(prev, ms, done, ndps);
    }

    /** One scope: nothing is appended when there is nothing to report. */
    method AppendToScope(ms: seq<Metric>) returns (s: Status, out: seq<Metric>)
      requires Valid()
      modifies this
      ensures s.Going? || s.Panicked?
      ensures s.Panicked? <==> Panics(old(prevOp), ms)
      ensures s.Going? ==> Valid() && prevOp == AfterScope(old(prevOp), ms) && ScopeAveraged(old(prevOp), ms, out)
    {
      hide Readings, Collected, Readable, Latest, AfterScope, Occurs, Emits, WithPostfix;
      s, out := Going, ms;
      ghost var prev := prevOp;
      var panicked, newOp, opTimeMetric := Collect(prevOp, ms);
      if panicked {
        return Panicked, out;
      }
      var ndps;
      s, ndps := ReportKeys(ms, newOp);
      if s.Panicked? {
        return;
      }
      if ndps != [] {
        if opTimeMetric.None? {
          return Panicked, out;
        }
        var m := opTimeMetric.value;
        TimeMetricIs(ms);
        TimeMetricIsSum(ms);
        out := out + [m.(name := WithPostfix(m.name, "average_operation_time"), data := m.data.(points := ndps))];
      }
      StaysKeyed(prev, ms);
    }

    /** The stage: walks the scopes in order. */
    method AppendAverageDiskMetrics(batch: Batch) returns (s: Status)
      requires Valid()
      modifies this, batch
      ensures s.Going? || s.Panicked?
      ensures s.Panicked? <==> SomeScopePanics(old(prevOp), Scopes(old(batch.rms)))
      ensures s.Going? ==> Valid() && prevOp == AfterScopes(old(prevOp), Scopes(old(batch.rms)))
      ensures s.Going? ==> |Scopes(batch.rms)| == |Scopes(old(batch.rms))|
      ensures s.Going? ==> batch.rms == WithScopes(old(batch.rms), Scopes(batch.rms))
      ensures s.Going? ==> forall n | 0 <= n < |Scopes(batch.rms)| ::
                ScopeAveraged(AfterScopes(old(prevOp), Scopes(old(batch.rms))[..n]),
                              Scopes(old(batch.rms))[n], Scopes(batch.rms)[n])
    {
      hide Scopes, WithScopes, ScopeAveraged, Panics, AfterScope, AllKeyed, PanicsAt, SomeScopePanics;
      ghost var prev := prevOp;
      var scopes := Scopes(batch.rms);
      var out := scopes;
      s := Going;
      for n := 0 to |scopes|
        invariant |out| == |scopes| && out[n..] == scopes[n..] && batch.rms == old(batch.rms)
        invariant s == Going && Valid() && prevOp == AfterScopes(prev, scopes[..n])
        invariant forall m | 0 <= m < n :: !PanicsAt(prev, scopes, m)
        invariant forall m | 0 <= m < n :: ScopeAveraged(AfterScopes(prev, scopes[..m]), scopes[m], out[m])
      {
        AfterOneMore(prev, scopes, n);
        var ms;
        s, ms := AppendToScope(scopes[n]);
        if s.Panicked? {
          ScopePanics(prev, scopes, n);
          return;
        }
        out := out[n := ms];
      }
      assert scopes[..|scopes|] == scopes;
      NoScopePanics(prev, scopes);
      batch.SetScopes(out);
    }
  }

  // ------------------------------------------------------------------
  // Batches
  // ------------------------------------------------------------------

  function AfterScopes(prev: map<OpKey, OpData>, scopes: seq<seq<Metric>>): map<OpKey, OpData> {
    if scopes == [] then prev
    else AfterScope(AfterScopes(prev, scopes[..|scopes| - 1]), scopes[|scopes| - 1])
  }

  ghost predicate PanicsAt(prev: map<OpKey, OpData>, scopes: seq<seq<Metric>>, n: nat) {
    n < |scopes| && Panics(AfterScopes(prev, scopes[..n]), scopes[n])
  }

  ghost predicate SomeScopePanics(prev: map<OpKey, OpData>, scopes: seq<seq<Metric>>) {
    exists n :: PanicsAt(prev, scopes, n)
  }

  lemma ScopePanics(prev: map<OpKey, OpData>, scopes: seq<seq<Metric>>, n: nat)
    requires n < |scopes| && Panics(AfterScopes(prev, scopes[..n]), scopes[n])
    ensures SomeScopePanics(prev, scopes)
  {
    assert PanicsAt(prev, scopes, n);
  }

  lemma NoScopePanics(prev: map<OpKey, OpData>, scopes: seq<seq<Metric>>)
    requires forall n: nat | n < |scopes| :: !PanicsAt(prev, scopes, n)
    ensures !SomeScopePanics(prev, scopes)
  {
  }

  lemma AfterOneMore(prev: map<OpKey, OpData>, scopes: seq<seq<Metric>>, n: nat)
    requires n < |scopes|
    ensures AfterScopes(prev, scopes[..n + 1]) == AfterScope(AfterScopes(prev, scopes[..n]), scopes[n])
    ensures PanicsAt(prev, scopes, n) <==> Panics(AfterScopes(prev, scopes[..n]), scopes[n])
  {
    assert scopes[..n + 1][..n] == scopes[..n];
  }

  lemma ObservedKey(prev: map<OpKey, OpData>, rs: seq<Reading>, key: OpKey, op: OpData, op': OpData, added: seq<Point>)
    requires Occurs(rs, key) && op == Latest(Look(prev, key).GetOr(ZERO), rs, key) && Keyed(op, key)
    requires !KeyPanics(Look(prev, key), op)
    requires op' == Advanced(Look(prev, key), op)
    requires added == if key in prev then [op.time.value.(value := Real(op'.cumAvgTime))] else []
    ensures Observe(Look(prev, key), rs, key) == Some(op')
    ensures added == Emits(Look(prev, key), rs, key)
    ensures key in prev ==> KeyOfPoint(added[0]) == key
  {
    hide Occurs, Latest, Increment;
  }

  lemma AllReported(prev: map<OpKey, OpData>, ms: seq<Metric>, done: set<OpKey>, ps: seq<Point>)
    requires PartlyReported(prev, Readings(ms), done, ps)
    requires forall key :: key in done <==> Occurs(Readings(ms), key)
    ensures ReportsAll(prev, ms, ps)
    ensures ps == [] <==> forall key | key in prev :: !Occurs(Readings(ms), key)
  {
    hide Occurs, OfKey, Readings;
  }

  lemma {:induction false} TimeMetricIs(ms: seq<Metric>)
    ensures TimeMetric(ms).Some? ==> TimeMetric(ms).value in ms && TimeMetric(ms).value.name == OP_TIME_NAME
  {
    if ms != [] {
      TimeMetricIs(ms[..|ms| - 1]);
    }
  }

  lemma TimeMetricIsSum(ms: seq<Metric>)
    requires Readable(ms) && TimeMetric(ms).Some?
    ensures TimeMetric(ms).value.data.Sum?
  {
    TimeMetricIs(ms);
  }
}
