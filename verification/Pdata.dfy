/** The part of the collector's metric data model that the processors touch. */
module Pdata {
  import opened Go

  /** An attribute value. A double carries the two texts Go renders it to: fixed-point and `AsString`. */
  datatype AttrValue =
    | Str(s: string)
    | Bool(b: bool)
    | Int(i: int)
    | Double(fixed: string, shown: string)
    | Other(shown: string)

  /** `Value.AsString`. */
  function AsString(v: AttrValue): string {
    match v
    case Str(s) => s
    case Bool(b) => if b then "true" else "false"
    case Int(i) => Decimal(i)
    case Double(_, shown) => shown
    case Other(shown) => shown
  }

  /**
   Strings are their own text, a number's text reads back as its magnitude behind a sign if there is one, and the two
   truth values have different texts.
   */
  lemma TextOfValue(s: string, i: int)
    ensures AsString(Str(s)) == s && AsString(Other(s)) == s && forall fixed :: AsString(Double(fixed, s)) == s
    ensures AsString(Bool(true)) == "true" && AsString(Bool(false)) == "false"
    ensures if i < 0 then AsString(Int(i)) != [] && AsString(Int(i))[0] == '-' && ValueOf(AsString(Int(i))[1..]) == -i
            else ValueOf(AsString(Int(i))) == i && AsString(Int(i)) != [] && AsString(Int(i))[0] != '-'
  {
    DigitsRoundTrip(Abs(i));
    hide Digits, ValueOf;
    if i < 0 {
      assert ("-" + Digits(-i))[1..] == Digits(-i);
    }
  }

  /** `pcommon.Map`: each key once, and no order a caller may rely on. */
  type Attributes = map<string, AttrValue>

  /** The value of a number data point. `NonFinite` stands for the NaN or infinity of a division by zero. */
  datatype Number = Integer(i: int) | Real(d: real) | NonFinite | NoValue {

    /** The typed accessors read 0 when the point holds another type. */
    function IntValue(): int {
      if Integer? then i else 0
    }

    function DoubleValue(): real {
      if Real? then d else 0.0
    }

    /** The point's value as a float64, whichever of the two types it holds. */
    function AsReal(): real {
      if Integer? then i as real else DoubleValue()
    }
  }

  datatype Point = Point(attrs: Attributes, startTs: nat, ts: nat, value: Number)

  datatype MetricData =
    | Sum(points: seq<Point>, monotonic: bool, temporality: int)
    | Gauge(points: seq<Point>)
    | OtherData(kind: int)

  datatype Metric = Metric(name: string, description: string, unit: string, data: MetricData) {

    /** The number data points of a Sum or Gauge; a metric of another type has none. */
    function Points(): seq<Point> {
      if data.OtherData? then [] else data.points
    }

    function WithPoints(ps: seq<Point>): Metric
      requires !data.OtherData?
    {
      this.(data := data.(points := ps))
    }
  }

  datatype ResourceMetrics = ResourceMetrics(resource: Attributes, scopes: seq<seq<Metric>>)

  /** The metrics of every scope of a batch, in the order in which the processors walk them. */
  function Scopes(rms: seq<ResourceMetrics>): seq<seq<Metric>> {
    if rms == [] then [] else Scopes(rms[..|rms| - 1]) + rms[|rms| - 1].scopes
  }

  /** The same resources and scopes, holding other metrics. */
  function WithScopes(rms: seq<ResourceMetrics>, scopes: seq<seq<Metric>>): (r: seq<ResourceMetrics>)
    requires |scopes| == |Scopes(rms)|
    ensures |r| == |rms|
  {
    if rms == [] then []
    else
      var k := |rms| - 1;
      var n := |Scopes(rms[..k])|;
      WithScopes(rms[..k], scopes[..n]) + [rms[k].(scopes := scopes[n..])]
  }

  lemma {:induction false} ScopesOfWithScopes(rms: seq<ResourceMetrics>, scopes: seq<seq<Metric>>)
    requires |scopes| == |Scopes(rms)|
    ensures Scopes(WithScopes(rms, scopes)) == scopes
  {
    if rms != [] {
      var k := |rms| - 1;
      var n := |Scopes(rms[..k])|;
      ScopesOfWithScopes(rms[..k], scopes[..n]);
      assert scopes == scopes[..n] + scopes[n..];
      assert WithScopes(rms, scopes)[..k] == WithScopes(rms[..k], scopes[..n]);
    }
  }

  lemma {:induction false} ShapeOfWithScopes(rms: seq<ResourceMetrics>, scopes: seq<seq<Metric>>, i: nat)
    requires |scopes| == |Scopes(rms)| && i < |rms|
    ensures WithScopes(rms, scopes)[i].resource == rms[i].resource
    ensures |WithScopes(rms, scopes)[i].scopes| == |rms[i].scopes|
  {
    var k := |rms| - 1;
    var n := |Scopes(rms[..k])|;
    if i < k {
      ShapeOfWithScopes(rms[..k], scopes[..n], i);
    }
  }

  /** The batch a processor is handed: its stages change it in place. */
  class Batch {
    var rms: seq<ResourceMetrics>

    constructor (rms: seq<ResourceMetrics>)
      ensures this.rms == rms
    {
      this.rms := rms;
    }

    /** Stores what a walk over the scopes has made of them. */
    method SetScopes(scopes: seq<seq<Metric>>)
      requires |scopes| == |Scopes(rms)|
      modifies this
      ensures rms == WithScopes(old(rms), scopes) && Scopes(rms) == scopes
    {
      ScopesOfWithScopes(rms, scopes);
      rms := WithScopes(rms, scopes);
    }
  }

  /** How a stage of a processor ended. A panic takes the collector down with it. */
  datatype Status = Going | Failed | Panicked

  // ------------------------------------------------------------------
  // Metric names
  // ------------------------------------------------------------------

  /** The length of a name up to and with its last dot: where the match of `metricPostfixRegex` begins. */
  function StemLength(name: string): (n: nat)
    ensures n <= |name|
    ensures n > 0 ==> name[n - 1] == '.'
    ensures forall i | n <= i < |name| :: name[i] != '.'
  {
    if name == [] then 0
    else if name[|name| - 1] == '.' then |name|
    else StemLength(name[..|name| - 1])
  }

  /** `metricPostfixRegex.ReplaceAllString(name, postfix)`: replaces what follows the last dot. */
  function WithPostfix(name: string, postfix: string): string {
    name[..StemLength(name)] + postfix
  }

  /** The text that `$1` stands for in such a replacement. */
  function Postfix(name: string): string {
    name[StemLength(name)..]
  }

  /** The last part of a dotted name. */
  lemma {:induction false} PostfixOf(stem: string, last: string)
    requires stem != [] && stem[|stem| - 1] == '.' && forall i | 0 <= i < |last| :: last[i] != '.'
    ensures StemLength(stem + last) == |stem| && Postfix(stem + last) == last
  {
    assert forall i | |stem| <= i < |stem + last| :: (stem + last)[i] == last[i - |stem|];
    assert (stem + last)[|stem| - 1] == '.';
  }

  lemma PostfixReplaced(stem: string, last: string, postfix: string)
    requires stem != [] && stem[|stem| - 1] == '.' && forall i | 0 <= i < |last| :: last[i] != '.'
    ensures WithPostfix(stem + last, postfix) == stem + postfix
  {
    PostfixOf(stem, last);
    assert (stem + last)[..|stem|] == stem;
  }
}
