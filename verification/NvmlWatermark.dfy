/** The NVML client's average utilization since the last query, with one watermark timestamp a device. */
module NvmlWatermark {
  import opened Go

  /** A sample whose value the driver's type does not let the client decode has no value. */
  datatype Sample = Sample(ts: nat, value: Option<real>)

  /** What `DeviceGetSamples` answers; `None` is an NVML error. */
  type Answer = Option<seq<Sample>>

  // ------------------------------------------------------------------
  // One query
  // ------------------------------------------------------------------

  /** The samples newer than the watermark. */
  function Newer(w: nat, ss: seq<Sample>): seq<Sample> {
    if ss == [] then []
    else
      var k := |ss| - 1;
      Newer(w, ss[..k]) + (if ss[k].ts > w then [ss[k]] else [])
  }

  function Latest(w: nat, ss: seq<Sample>): (l: nat)
    ensures l >= w
  {
    if ss == [] then w
    else
      var k := |ss| - 1;
      Max(Latest(w, ss[..k]), ss[k].ts)
  }

  predicate Decodable(ss: seq<Sample>) {
    forall i | 0 <= i < |ss| :: ss[i].value.Some?
  }

  function Total(ss: seq<Sample>): real {
    if ss == [] then 0.0 else Total(ss[..|ss| - 1]) + ss[|ss| - 1].value.GetOr(0.0)
  }

  function Average(ss: seq<Sample>): real
    requires ss != []
  {
    Total(ss) / (100.0 * |ss| as real)
  }

  /** One more turn of the sample loop. */
  lemma SampleStep(w: nat, ss: seq<Sample>, i: nat)
    requires i < |ss|
    ensures var newer, newer' := Newer(w, ss[..i]), Newer(w, ss[..i + 1]);
            && newer' == (if ss[i].ts > w then newer + [ss[i]] else newer)
            && Total(newer') == Total(newer) + (if ss[i].ts > w then ss[i].value.GetOr(0.0) else 0.0)
            && Latest(w, ss[..i + 1]) == Max(Latest(w, ss[..i]), ss[i].ts)
            && (Decodable(ss[..i + 1]) <==> Decodable(ss[..i]) && ss[i].value.Some?)
  {
    var newer := Newer(w, ss[..i]);
    assert ss[..i + 1][..i] == ss[..i];
    assert (newer + [ss[i]])[..|newer|] == newer;
    assert ss[..i + 1][i] == ss[i];
    assert forall j | 0 <= j < i :: ss[..i][j] == ss[j] == ss[..i + 1][j];
  }

  lemma NoSamples(w: nat)
    ensures Newer(w, []) == [] && Latest(w, []) == w && Total([]) == 0.0
  {
  }

  /** The samples that one query averages; none if it fails. */
  function Counted(w: nat, a: Answer): seq<Sample> {
    if a.Some? && Decodable(a.value) then Newer(w, a.value) else []
  }

  /** The watermark after one query. A failed query, or one with an undecodable sample, does not move it. */
  function Next(w: nat, a: Answer): nat {
    if a.Some? && Decodable(a.value) then Latest(w, a.value) else w
  }

  class Client {
    var deviceToLastSeenTimestamp: map<nat, nat>

    constructor ()
      ensures deviceToLastSeenTimestamp == map[]
    {
      deviceToLastSeenTimestamp := map[];
    }

    function Watermark(device: nat): nat
      reads this
    {
      if device in deviceToLastSeenTimestamp then deviceToLastSeenTimestamp[device] else 0
    }

    method GetAverageGpuUtilizationSinceLastQuery(device: nat, answer: Answer) returns (r: Result<real>)
      modifies this
      ensures Watermark(device) == Next(old(Watermark(device)), answer)
      ensures forall d | d != device :: Watermark(d) == old(Watermark(d))
      ensures var counted := Counted(old(Watermark(device)), answer);
              if counted == [] then r.Err? else r == Ok(Average(counted))
    {
      hide Newer, Latest, Total;
      if answer.None? {
        return Err("NVML error");
      }
      var samples := answer.value;
      var mean, count := 0.0, 0;
      var seen := Watermark(device);
      var latestTimestamp := seen;
      NoSamples(seen);
      assert samples[..0] == [];
      for i := 0 to |samples|
        invariant Decodable(samples[..i])
        invariant mean == Total(Newer(seen, samples[..i])) && count == |Newer(seen, samples[..i])|
        invariant latestTimestamp == Latest(seen, samples[..i])
        invariant deviceToLastSeenTimestamp == old(deviceToLastSeenTimestamp)
      {
        var sample := samples[i];
        SampleStep(seen, samples, i);
        if sample.value.None? {
          return Err("Unable to convert Nvidia NVML sample value to float64");
        }
        if sample.ts > seen {
          mean := mean + sample.value.value;
          count := count + 1;
        }
        if sample.ts > latestTimestamp {
          latestTimestamp := sample.ts;
        }
      }
      assert samples[..|samples|] == samples;
      deviceToLastSeenTimestamp := deviceToLastSeenTimestamp[device := latestTimestamp];
      if count == 0 {
        return Err("No valid samples since last query");
      }
      return Ok(mean / (100.0 * count as real));
    }
  }

  // ------------------------------------------------------------------
  // A run of queries to one device
  // ------------------------------------------------------------------

  function WatermarkAfter(answers: seq<Answer>): nat {
    if answers == [] then 0 else Next(WatermarkAfter(answers[..|answers| - 1]), answers[|answers| - 1])
  }

  /** The samples averaged by query `k` of a run. */
  function CountedIn(answers: seq<Answer>, k: nat): seq<Sample>
    requires k < |answers|
  {
    Counted(WatermarkAfter(answers[..k]), answers[k])
  }

  lemma {:induction false} WatermarkNeverDecreases(answers: seq<Answer>, k: nat)
    requires k <= |answers|
    ensures WatermarkAfter(answers[..k]) <= WatermarkAfter(answers)
  {
    if k == |answers| {
      assert answers[..k] == answers;
    } else {
      WatermarkNeverDecreases(answers[..|answers| - 1], k);
      assert answers[..|answers| - 1][..k] == answers[..k];
    }
  }

  lemma {:induction false} NewerIsBetween(w: nat, ss: seq<Sample>)
    ensures forall s | s in Newer(w, ss) :: w < s.ts <= Latest(w, ss)
  {
    if ss != [] {
      NewerIsBetween(w, ss[..|ss| - 1]);
    }
  }

  /** What a query counts lies above the watermark it found and not above the one it left. */
  lemma CountedBetweenWatermarks(answers: seq<Answer>, k: nat)
    requires k < |answers|
    ensures forall s | s in CountedIn(answers, k) ::
              WatermarkAfter(answers[..k]) < s.ts <= WatermarkAfter(answers[..k + 1])
  {
    assert answers[..k + 1][..k] == answers[..k];
    if answers[k].Some? {
      NewerIsBetween(WatermarkAfter(answers[..k]), answers[k].value);
    }
  }

  /** Everything a later query counts is newer than everything an earlier one counted: no timestamp counts twice. */
  lemma NoTimestampCountsTwice(answers: seq<Answer>, j: nat, k: nat)
    requires j < k < |answers|
    ensures forall s, t | s in CountedIn(answers, j) && t in CountedIn(answers, k) :: s.ts < t.ts
  {
    CountedBetweenWatermarks(answers, j);
    CountedBetweenWatermarks(answers, k);
    WatermarkNeverDecreases(answers[..k], j + 1);
    assert answers[..k][..j + 1] == answers[..j + 1];
  }

  /** A sample that arrives above the watermark in a query that succeeds is counted by it. */
  lemma {:induction false} NewSamplesAreCounted(w: nat, ss: seq<Sample>, s: Sample)
    requires s in ss && s.ts > w
    ensures s in Newer(w, ss)
  {
    if s != ss[|ss| - 1] {
      NewSamplesAreCounted(w, ss[..|ss| - 1], s);
    }
  }

  /** Over a run: a query that succeeds counts every sample above the watermark it found. */
  lemma RunCountsNewSamples(answers: seq<Answer>, k: nat, s: Sample)
    requires k < |answers| && answers[k].Some? && s in answers[k].value && s.ts > WatermarkAfter(answers[..k])
    requires forall i | 0 <= i < |answers[k].value| :: answers[k].value[i].value.Some?
    ensures s in CountedIn(answers, k)
  {
    NewSamplesAreCounted(WatermarkAfter(answers[..k]), answers[k].value, s);
  }

  lemma {:induction false} TotalIsBounded(ss: seq<Sample>)
    requires forall s | s in ss :: s.value.Some? && 0.0 <= s.value.value <= 100.0
    ensures 0.0 <= Total(ss) <= 100.0 * |ss| as real
  {
    if ss != [] {
      assert ss[|ss| - 1] in ss;
      TotalIsBounded(ss[..|ss| - 1]);
    }
  }

  /** The total without a sample. */
  lemma {:induction false} TotalWithout(ss: seq<Sample>, i: nat)
    requires i < |ss| && ss[i].value.Some?
    ensures Total(ss) == Total(ss[..i] + ss[i + 1..]) + ss[i].value.value
  {
    var k := |ss| - 1;
    if i < k {
      TotalWithout(ss[..k], i);
      var rest := ss[..i] + ss[i + 1..];
      assert ss[..k][..i] == ss[..i] && rest[..k - 1] == ss[..k][..i] + ss[..k][i + 1..] && rest[k - 1] == ss[k];
    } else {
      assert ss[..i] + ss[i + 1..] == ss[..k];
    }
  }

  /**
   What a query returns is the mean in hundredths: times a hundred and the number of samples it is their total, to
   which each sample counted contributes its own value once.
   */
  lemma AverageIsMean(answers: seq<Answer>, k: nat, i: nat)
    requires k < |answers| && i < |CountedIn(answers, k)|
    ensures var counted := CountedIn(answers, k);
            && counted[i].value.Some?
            && Average(counted) * 100.0 * |counted| as real
               == Total(counted[..i] + counted[i + 1..]) + counted[i].value.value
  {
    var counted := CountedIn(answers, k);
    NewerIsDecodable(WatermarkAfter(answers[..k]), answers[k].value);
    TotalWithout(counted, i);
    TimesDivided(Total(counted), 100.0 * |counted| as real);
  }

  lemma TimesDivided(x: real, y: real)
    requires y > 0.0
    ensures x / y * y == x
  {
  }

  lemma {:induction false} NewerIsDecodable(w: nat, ss: seq<Sample>)
    requires Decodable(ss)
    ensures Decodable(Newer(w, ss))
  {
    if ss != [] {
      NewerIsDecodable(w, ss[..|ss| - 1]);
    }
  }

  /** Percentages average to a fraction. */
  lemma AverageIsFraction(answers: seq<Answer>, k: nat)
    requires k < |answers| && CountedIn(answers, k) != []
    requires forall s | s in CountedIn(answers, k) :: s.value.Some? && 0.0 <= s.value.value <= 100.0
    ensures var counted := CountedIn(answers, k);
            0.0 <= Average(counted) <= 1.0
  {
    var counted := CountedIn(answers, k);
    TotalIsBounded(counted);
    FractionOf(Total(counted), 100.0 * |counted| as real);
  }

  lemma FractionOf(x: real, y: real)
    requires 0.0 <= x <= y && y > 0.0
    ensures 0.0 <= x / y <= 1.0
  {
  }
}
