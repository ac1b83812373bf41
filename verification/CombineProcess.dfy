/** The stage that turns metrics with a process as resource into metrics with the process as labels. */
module CombineProcess {
  import opened Go
  import opened Pdata

  const PROCESS_ATTRIBUTE_PREFIX: string := "process."

  /** `strings.HasPrefix`. */
  predicate HasPrefix(s: string, prefix: string) {
    |prefix| <= |s| && s[..|prefix|] == prefix
  }

  predicate IncludesProcessAttributes(resource: Attributes) {
    exists k :: k in resource && HasPrefix(k, PROCESS_ATTRIBUTE_PREFIX)
  }

  // ------------------------------------------------------------------
  // Labels
  // ------------------------------------------------------------------

  function ToCloudMonitoringLabel(key: string): string {
    if key == "process.pid" then "pid"
    else if key == "process.executable.name" then "command"
    else if key == "process.command_line" then "command_line"
    else if key == "process.owner" then "owner"
    else ""
  }

  const LABELS: set<string> := {"pid", "command", "command_line", "owner"}

  /** The attribute a label is made of. */
  function AttributeOf(name: string): string {
    if name == "pid" then "process.pid"
    else if name == "command" then "process.executable.name"
    else if name == "command_line" then "process.command_line"
    else "process.owner"
  }

  /** Cloud Monitoring takes label values of up to 1024 bytes. */
  function Cut(s: string): (r: string)
    ensures r <= s && |r| == Min(|s|, 1024)
  {
    if |s| > 1024 then s[..1024] else s
  }

  /** The whole text of an attribute, if its type has one. */
  function TextOf(v: AttrValue): Option<string> {
    match v
    case Bool(b) => Some(if b then "true" else "false")
    case Int(i) => Some(Decimal(i))
    case Double(fixed, _) => Some(fixed)
    case Str(s) => Some(s)
    case Other(_) => None
  }

  /** An error exactly for a type that has no text, else the text's first 1024 bytes. */
  function StringValue(v: AttrValue): (r: Result<string>)
    ensures r.Err? <==> TextOf(v).None?
    ensures r.Ok? ==> r.value <= TextOf(v).value && |r.value| == Min(|TextOf(v).value|, 1024)
  {
    match v
    case Bool(b) => Ok(Cut(if b then "true" else "false"))
    case Int(i) => Ok(Cut(Decimal(i)))
    case Double(fixed, _) => Ok(Cut(fixed))
    case Str(s) => Ok(Cut(s))
    case Other(_) => Err("unexpected attribute type")
  }

  /** A resource attribute of a type that has no string form. */
  predicate Unprintable(resource: Attributes) {
    exists l :: l in LABELS && AttributeOf(l) in resource && StringValue(resource[AttributeOf(l)]).Err?
  }

  /** The labels of a process. */
  function ProcessLabels(resource: Attributes): Attributes {
    map l | l in LABELS && AttributeOf(l) in resource && StringValue(resource[AttributeOf(l)]).Ok? ::
      Str(StringValue(resource[AttributeOf(l)]).value)
  }

  function LabelledPoint(p: Point, resource: Attributes): Point {
    p.(attrs := p.attrs + ProcessLabels(resource))
  }

  function LabelledPoints(ps: seq<Point>, resource: Attributes): (r: seq<Point>)
    ensures |r| == |ps|
  {
    if ps == [] then []
    else LabelledPoints(ps[..|ps| - 1], resource) + [LabelledPoint(ps[|ps| - 1], resource)]
  }

  /** The four attributes and the four labels name each other. */
  lemma LabelOfAttribute(key: string, name: string)
    requires name in LABELS
    ensures ToCloudMonitoringLabel(key) == name <==> key == AttributeOf(name)
    ensures ToCloudMonitoringLabel(key) != "" ==> ToCloudMonitoringLabel(key) in LABELS
  {
  }

  /** Nothing changed but the four labels of a process. */
  ghost predicate SameApartFromLabels(before: Attributes, after: Attributes) {
    forall k | k !in LABELS :: (k in before <==> k in after) && (k in before ==> before[k] == after[k])
  }

  /** The label `l` while the attributes in `rest` are still to come. */
  ghost predicate LabelSoFar(labels: Attributes, resource: Attributes, rest: set<string>, out: Attributes, l: string) {
    if AttributeOf(l) in resource && AttributeOf(l) !in rest then
      && StringValue(resource[AttributeOf(l)]).Ok?
      && l in out && out[l] == Str(StringValue(resource[AttributeOf(l)]).value)
    else
      (l in labels <==> l in out) && (l in labels ==> labels[l] == out[l])
  }

  lemma OneMoreAttribute(labels: Attributes, resource: Attributes, rest: set<string>, out: Attributes, k: string,
      out': Attributes)
    requires k in rest && k in resource && forall l | l in LABELS :: LabelSoFar(labels, resource, rest, out, l)
    requires var key := ToCloudMonitoringLabel(k);
             if key == "" then out' == out
             else StringValue(resource[k]).Ok? && out' == out[key := Str(StringValue(resource[k]).value)]
    ensures forall l | l in LABELS :: LabelSoFar(labels, resource, rest - {k}, out', l)
  {
    hide StringValue;
    forall l | l in LABELS ensures LabelSoFar(labels, resource, rest - {k}, out', l) {
      LabelOfAttribute(k, l);
      assert LabelSoFar(labels, resource, rest, out, l);
      hide AttributeOf, ToCloudMonitoringLabel;
      assert l != "";
    }
  }

  lemma AllAttributes(labels: Attributes, resource: Attributes, out: Attributes)
    requires forall l | l in LABELS :: LabelSoFar(labels, resource, {}, out, l)
    requires SameApartFromLabels(labels, out)
    ensures !Unprintable(resource) && out == labels + ProcessLabels(resource)
  {
    hide StringValue, AttributeOf;
    var all := labels + ProcessLabels(resource);
    forall k ensures (k in out <==> k in all) && (k in out ==> out[k] == all[k]) {
      if k in LABELS {
        assert LabelSoFar(labels, resource, {}, out, k);
      }
    }
    forall l | l in LABELS && AttributeOf(l) in resource ensures StringValue(resource[AttributeOf(l)]).Ok? {
      assert LabelSoFar(labels, resource, {}, out, l);
    }
  }

  /** `Range` visits the attributes in an order of its own, and stops at the first that cannot be printed. */
  method AppendAttributesToLabels(labels: Attributes, resource: Attributes) returns (failed: bool, out: Attributes)
    ensures failed <==> Unprintable(resource)
    ensures !failed ==> out == labels + ProcessLabels(resource)
    ensures SameApartFromLabels(labels, out)
  {
    out, failed := labels, false;
    var rest := resource.Keys;
    hide StringValue, AttributeOf, ToCloudMonitoringLabel, Unprintable, ProcessLabels;
    while rest != {}
      invariant rest <= resource.Keys
      invariant forall l | l in LABELS :: LabelSoFar(labels, resource, rest, out, l)
      invariant SameApartFromLabels(labels, out)
      decreases rest
    {
      var k :| k in rest;
      var key := ToCloudMonitoringLabel(k);
      ghost var before := out;
      if key != "" {
        LabelOfAttribute(k, "pid");
        var value := StringValue(resource[k]);
        if value.Err? {
          LabelOfAttribute(k, key);
          UnprintableAttribute(resource, key);
          return true, out;
        }
        out := out[key := Str(value.value)];
      }
      OneMoreAttribute(labels, resource, rest, before, k, out);
      rest := rest - {k};
    }
    AllAttributes(labels, resource, out);
  }

  lemma UnprintableAttribute(resource: Attributes, l: string)
    requires l in LABELS && AttributeOf(l) in resource && StringValue(resource[AttributeOf(l)]).Err?
    ensures Unprintable(resource)
  {
  }

  /** A resource is a process exactly if one of its attributes' names goes on behind "process.". */
  lemma ProcessResourceExactly(resource: Attributes)
    ensures IncludesProcessAttributes(resource) <==> exists rest: string :: "process." + rest in resource
  {
    if IncludesProcessAttributes(resource) {
      var k :| k in resource && HasPrefix(k, PROCESS_ATTRIBUTE_PREFIX);
      assert k == "process." + k[|PROCESS_ATTRIBUTE_PREFIX|..];
    }
    if rest: string :| "process." + rest in resource {
      assert HasPrefix("process." + rest, PROCESS_ATTRIBUTE_PREFIX);
    }
  }

  /** What a process with four short texts is labelled with. */
  lemma ProcessIsNamed(resource: Attributes, pid: int, name: string, line: string, owner: string)
    requires resource == map["process.pid" := Int(pid), "process.executable.name" := Str(name),
                             "process.command_line" := Str(line), "process.owner" := Str(owner)]
    requires |Decimal(pid)| <= 1024 && |name| <= 1024 && |line| <= 1024 && |owner| <= 1024
    ensures !Unprintable(resource)
    ensures ProcessLabels(resource)
         == map["pid" := Str(Decimal(pid)), "command" := Str(name), "command_line" := Str(line), "owner" := Str(owner)]
  {
    hide Decimal;
    KeysDiffer();
    assert resource["process.pid"] == Int(pid) && resource["process.executable.name"] == Str(name);
    assert resource["process.command_line"] == Str(line) && resource["process.owner"] == Str(owner);
  }

  lemma KeysDiffer()
    ensures "process.pid" != "process.executable.name" && "process.pid" != "process.command_line"
    ensures "process.pid" != "process.owner" && "process.executable.name" != "process.command_line"
    ensures "process.executable.name" != "process.owner" && "process.command_line" != "process.owner"
    ensures "pid" != "command" && "pid" != "command_line" && "pid" != "owner"
    ensures "command" != "command_line" && "command" != "owner" && "command_line" != "owner"
  {
    assert |"process.pid"| == 11 && |"process.executable.name"| == 23 && |"process.command_line"| == 20;
    assert |"process.owner"| == 13 && |"pid"| == 3 && |"command"| == 7 && |"command_line"| == 12 && |"owner"| == 5;
  }
}
