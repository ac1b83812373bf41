/** What a failed combination does to the batch that the later stages still get. */
module CombineProcessErrors {
  import opened Pdata
  import opened CombineProcess
  import opened CombineProcessStage

  function PointCount(ms: seq<Metric>): nat {
    if ms == [] then 0 else PointCount(ms[..|ms| - 1]) + |ms[|ms| - 1].Points()|
  }

  /** All points of some scopes. */
  function AllPoints(scopes: seq<seq<Metric>>): nat {
    if scopes == [] then 0 else AllPoints(scopes[..|scopes| - 1]) + PointCount(scopes[|scopes| - 1])
  }

  /** How many points were moved into converted metrics by the time the walk over `es` ended. */
  function Moved(es: seq<Entry>): nat {
    if es == [] then 0
    else
      var k := |es| - 1;
      Moved(es[..k]) + (if EntriesStatus(es).Going? then |es[k].metric.Points()| else 0)
  }

  // ------------------------------------------------------------------
  // What is lost
  // ------------------------------------------------------------------

  lemma RelabelledCount(m: Metric, m': Metric)
    requires Relabelled(m, m')
    ensures |m'.Points()| == |m.Points()|
  {
    hide SameApartFromLabels;
  }

  lemma MovedStep(es: seq<Entry>, e: Entry)
    ensures Moved(es + [e]) == Moved(es) + if EntriesStatus(es + [e]).Going? then |e.metric.Points()| else 0
  {
    assert (es + [e])[..|es|] == es;
  }

  lemma ScopeLeftBefore(es: seq<Entry>, ms: seq<Metric>, resource: Attributes, out: seq<Metric>)
    requires ms != [] && ScopeLeft(es, ms, resource, out)
    ensures ScopeLeft(es, ms[..|ms| - 1], resource, out[..|ms| - 1])
  {
    hide EntriesStatus, Entries, Relabelled, Drained;
    var k := |ms| - 1;
    forall j | 0 <= j < k ensures LeftOf(es, ms[..k], resource, j, out[..k][j]) {
      assert LeftOf(es, ms, resource, j, out[j]);
      assert ms[..k][..j + 1] == ms[..j + 1] && ms[..k][..j] == ms[..j];
    }
  }

  /** What the last metric of a scope keeps. */
  lemma LastMetricLeft(es: seq<Entry>, ms: seq<Metric>, resource: Attributes, m': Metric)
    requires ms != [] && LeftOf(es, ms, resource, |ms| - 1, m')
    ensures |m'.Points()| == if EntriesStatus(es + Entries(ms, resource)).Going? then 0 else |ms[|ms| - 1].Points()|
  {
    hide EntriesStatus, Entries, Relabelled;
    var k := |ms| - 1;
    assert ms[..k + 1] == ms;
    if Relabelled(ms[k], m') {
      RelabelledCount(ms[k], m');
    }
  }

  /** A scope loses exactly the points that were moved while it was walked. */
  lemma {:induction false} ScopeLoses(es: seq<Entry>, ms: seq<Metric>, resource: Attributes, out: seq<Metric>)
    requires ScopeLeft(es, ms, resource, out)
    ensures PointCount(out) + Moved(es + Entries(ms, resource)) == PointCount(ms) + Moved(es)
  {
    hide EntriesStatus, LeftOf, Moved;
    if ms == [] {
      assert es + Entries(ms, resource) == es;
    } else {
      var k := |ms| - 1;
      ScopeLeftBefore(es, ms, resource, out);
      ScopeLoses(es, ms[..k], resource, out[..k]);
      LastMetricLeft(es, ms, resource, out[k]);
      EntriesStep(es, ms, resource, k);
      assert ms[..k + 1] == ms;
      hide Entries;
      MovedStep(es + Entries(ms[..k], resource), Entry(ms[k], resource));
    }
  }

  lemma BatchLeftBefore(scopes: seq<seq<Metric>>, owners: seq<Attributes>, out: seq<seq<Metric>>)
    requires |owners| == |scopes| && scopes != [] && BatchLeft(scopes, owners, out)
    ensures BatchLeft(scopes[..|scopes| - 1], owners[..|scopes| - 1], out[..|scopes| - 1])
  {
    hide ProcessEntries, ScopeLeft, IncludesProcessAttributes;
    var k := |scopes| - 1;
    assert forall n | 0 <= n < k :: scopes[..k][..n] == scopes[..n] && owners[..k][..n] == owners[..n];
  }

  /** The batch loses exactly the points that were moved: after an error the converted metrics are thrown away. */
  lemma {:induction false} BatchLoses(scopes: seq<seq<Metric>>, owners: seq<Attributes>, out: seq<seq<Metric>>)
    requires |owners| == |scopes| && BatchLeft(scopes, owners, out)
    ensures AllPoints(out) + Moved(ProcessEntries(scopes, owners)) == AllPoints(scopes)
  {
    hide ScopeLeft, IncludesProcessAttributes, PointCount, Moved, Entries;
    if scopes == [] {
      NothingMoved();
    } else {
      var k := |scopes| - 1;
      var es := ProcessEntries(scopes[..k], owners[..k]);
      BatchLeftBefore(scopes, owners, out);
      BatchLoses(scopes[..k], owners[..k], out[..k]);
      if IncludesProcessAttributes(owners[k]) {
        ScopeLoses(es, scopes[k], owners[k], out[k]);
      } else {
        assert es + [] == es;
      }
    }
  }

  lemma NothingMoved()
    ensures Moved([]) == 0
  {
  }

  // ------------------------------------------------------------------
  // When it is lost, in terms of the batch handed in
  // ------------------------------------------------------------------

  /** A metric that asks for labels its process has no text for. */
  predicate Unlabellable(e: Entry) {
    e.metric.Points() != [] && Unprintable(e.resource)
  }

  /** A Sum or Gauge whose name belongs to a metric of another type. */
  predicate Clashes(es: seq<Entry>, j: nat)
    requires j < |es|
  {
    !es[j].metric.data.OtherData?
    && !SameType(FirstNamed(es[..j], es[j].metric.name).GetOr(es[j].metric), es[j].metric)
  }

  /** The first trouble on the walk is at `f`: there the labels cannot be printed, and no types clash up to there. */
  ghost predicate FailsAt(es: seq<Entry>, f: nat) {
    && f < |es| && Unlabellable(es[f])
    && (forall j | 0 <= j < f :: !Unlabellable(es[j]))
    && (forall j | 0 <= j <= f :: !Clashes(es, j))
  }

  lemma NextIs(es: seq<Entry>, j: nat)
    requires j < |es|
    ensures Next(es[..j], es[j])
         == if Clashes(es, j) then Panicked else if Unlabellable(es[j]) then Failed else Going
  {
    hide Unprintable, FirstNamed;
  }

  /** The walk over a prefix goes through exactly if nothing in it is trouble. */
  lemma {:induction false} GoingExactly(es: seq<Entry>, n: nat)
    requires n <= |es|
    ensures EntriesStatus(es[..n]).Going? <==> forall j | 0 <= j < n :: !Clashes(es, j) && !Unlabellable(es[j])
  {
    hide Clashes, Unlabellable, Next;
    if n > 0 {
      GoingExactly(es, n - 1);
      assert es[..n][..n - 1] == es[..n - 1];
      NextIs(es, n - 1);
    }
  }

  lemma {:induction false} TroubleStays(es: seq<Entry>, n: nat)
    requires n <= |es| && !EntriesStatus(es[..n]).Going?
    ensures EntriesStatus(es) == EntriesStatus(es[..n]) && Moved(es) == Moved(es[..n])
  {
    hide Next;
    if n < |es| {
      var k := |es| - 1;
      assert es[..k][..n] == es[..n];
      TroubleStays(es[..k], n);
    } else {
      assert es[..n] == es;
    }
  }

  lemma FailsAtIs(es: seq<Entry>, f: nat)
    requires FailsAt(es, f)
    ensures EntriesStatus(es).Failed? && EntriesStatus(es[..f]).Going? && Moved(es) == Moved(es[..f])
  {
    hide Clashes, Unlabellable, Next;
    GoingExactly(es, f);
    NextIs(es, f);
    assert es[..f + 1][..f] == es[..f] && es[..f + 1][f] == es[f];
    assert EntriesStatus(es[..f + 1]) == Failed;
    TroubleStays(es, f + 1);
    assert Moved(es[..f + 1]) == Moved(es[..f]);
  }

  /** The combination fails exactly if the first trouble on the walk is a process that cannot be labelled. */
  lemma {:induction false} FailsExactly(es: seq<Entry>)
    ensures EntriesStatus(es).Failed? <==> exists f :: FailsAt(es, f)
  {
    hide Clashes, Unlabellable, Next;
    if f :| FailsAt(es, f) {
      FailsAtIs(es, f);
    }
    if EntriesStatus(es).Failed? {
      var k := |es| - 1;
      assert es[..|es|] == es;
      if EntriesStatus(es[..k]).Going? {
        GoingExactly(es, k);
        NextIs(es, k);
        assert FailsAt(es, k);
      } else {
        FailsExactly(es[..k]);
        var f :| FailsAt(es[..k], f);
        FailsInLonger(es, k, f);
      }
    }
  }

  lemma FailsInLonger(es: seq<Entry>, k: nat, f: nat)
    requires k <= |es| && FailsAt(es[..k], f)
    ensures FailsAt(es, f)
  {
    hide Unprintable, FirstNamed, SameType;
    forall j | 0 <= j <= f ensures !Clashes(es, j) && es[..k][j] == es[j] {
      assert es[..k][..j] == es[..j];
      assert !Clashes(es[..k], j);
    }
  }

  lemma {:induction false} MovedNothingExactly(es: seq<Entry>)
    requires EntriesStatus(es).Going?
    ensures Moved(es) == 0 <==> forall j | 0 <= j < |es| :: es[j].metric.Points() == []
  {
    hide Next;
    if es != [] {
      MovedNothingExactly(es[..|es| - 1]);
      assert forall j | 0 <= j < |es| - 1 :: es[j] == es[..|es| - 1][j];
    }
  }

  /** The first process metric that has any points belongs to a process whose labels cannot be printed. */
  ghost predicate FirstPointsUnlabellable(es: seq<Entry>) {
    exists f :: 0 <= f < |es| && Unlabellable(es[f]) && forall j | 0 <= j < f :: es[j].metric.Points() == []
  }

  lemma MovedNothingOnError(es: seq<Entry>)
    requires EntriesStatus(es).Failed?
    ensures Moved(es) == 0 <==> FirstPointsUnlabellable(es)
  {
    FailsExactly(es);
    hide EntriesStatus, Moved, Clashes, Unprintable;
    var f: nat :| FailsAt(es, f);
    FailsAtIs(es, f);
    MovedNothingExactly(es[..f]);
    if Moved(es) == 0 {
      assert forall j | 0 <= j < f :: es[j] == es[..f][j];
      assert FirstPointsUnlabellable(es);
    }
    if FirstPointsUnlabellable(es) {
      var g :| 0 <= g < |es| && Unlabellable(es[g]) && forall j | 0 <= j < g :: es[j].metric.Points() == [];
      assert g == f;
    }
  }

  /**
   A failed combination leaves the batch all its points exactly if the first process metric that has any belongs to
   the process that cannot be labelled: else the points of those before it are lost.
   */
  lemma ErrorKeepsPointsExactly(scopes: seq<seq<Metric>>, owners: seq<Attributes>, out: seq<seq<Metric>>)
    requires |owners| == |scopes| && BatchLeft(scopes, owners, out)
    requires EntriesStatus(ProcessEntries(scopes, owners)).Failed?
    ensures AllPoints(out) == AllPoints(scopes) <==> FirstPointsUnlabellable(ProcessEntries(scopes, owners))
  {
    hide BatchLeft, EntriesStatus, ProcessEntries, Moved, FirstPointsUnlabellable, AllPoints;
    BatchLoses(scopes, owners, out);
    MovedNothingOnError(ProcessEntries(scopes, owners));
  }

  // ------------------------------------------------------------------
  // A batch that loses a point
  // ------------------------------------------------------------------

  lemma OneEntry(m: Metric, resource: Attributes)
    ensures Entries([m], resource) == [Entry(m, resource)]
  {
    assert [m][..0] == [];
  }

  lemma TwoEntries(m: Metric, a: Attributes, b: Attributes)
    requires IncludesProcessAttributes(a) && IncludesProcessAttributes(b)
    ensures ProcessEntries([[m], [m]], [a, b]) == [Entry(m, a)] + [Entry(m, b)]
  {
    hide Entries, IncludesProcessAttributes;
    OneEntry(m, a);
    OneEntry(m, b);
    assert [[m]][..0] == [] && [a][..0] == [] && ProcessEntries([], []) == [];
    assert [[m], [m]][..1] == [[m]] && [a, b][..1] == [a];
  }

  lemma TwoStatuses(m: Metric, a: Attributes, b: Attributes)
    requires m.data.Gauge? && m.Points() != [] && !Unprintable(a) && Unprintable(b)
    ensures EntriesStatus([Entry(m, a)] + [Entry(m, b)]).Failed?
    ensures !FirstPointsUnlabellable([Entry(m, a)] + [Entry(m, b)])
  {
    hide Unprintable, EntriesStatus;
    var e, f := Entry(m, a), Entry(m, b);
    NoEntriesGoing();
    StatusStep([], e);
    assert [] + [e] == [e];
    StatusStep([e], f);
    FirstNamedStep([], e, m.name);
    var es := [e] + [f];
    assert es[0] == e && es[0].metric.Points() != [] && !Unlabellable(es[0]);
  }

  lemma NoEntriesGoing()
    ensures EntriesStatus([]).Going?
  {
  }

  /** Behind a process that was converted comes one whose pid has no text: points are lost. */
  lemma PointsAreLost(out: seq<seq<Metric>>)
    requires var m := Metric("m", "", "", Gauge([Point(map[], 0, 0, Integer(1))]));
             BatchLeft([[m], [m]], [map["process.pid" := Int(1)], map["process.pid" := Other("[]")]], out)
    ensures AllPoints(out) < 2
    ensures var m := Metric("m", "", "", Gauge([Point(map[], 0, 0, Integer(1))]));
            AllPoints([[m], [m]]) == 2
  {
    var m := Metric("m", "", "", Gauge([Point(map[], 0, 0, Integer(1))]));
    var a: Attributes, b: Attributes := map["process.pid" := Int(1)], map["process.pid" := Other("[]")];
    assert Unprintable(b) && !Unprintable(a) by {
      assert AttributeOf("pid") == "process.pid" && "pid" in LABELS;
    }
    assert IncludesProcessAttributes(a) && IncludesProcessAttributes(b) by {
      assert "process.pid"[..8] == PROCESS_ATTRIBUTE_PREFIX;
      assert HasPrefix("process.pid", PROCESS_ATTRIBUTE_PREFIX);
    }
    TwoEntries(m, a, b);
    TwoStatuses(m, a, b);
    hide BatchLeft, EntriesStatus, ProcessEntries, FirstPointsUnlabellable, Unprintable, IncludesProcessAttributes, Moved;
    ErrorKeepsPointsExactly([[m], [m]], [a, b], out);
    BatchLoses([[m], [m]], [a, b], out);
    TwoPoints(m);
  }

  lemma TwoPoints(m: Metric)
    requires |m.Points()| == 1
    ensures AllPoints([[m], [m]]) == 2
  {
    assert [m][..0] == [] && [[m]][..0] == [] && [[m], [m]][..1] == [[m]];
    assert PointCount([m]) == 1 && AllPoints([[m]]) == 1;
  }
}
