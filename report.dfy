/**
 * The diagnostic report: the latency classifier with its recommendations, and the overall
 * status as the worst of the statuses of the individual tests.
 */
module Report {
  import opened Basics
  import opened Protocol
  import opened Types

  const HighLatency: string := "High latency detected. Check network congestion."
  const WiredAdvice: string := "Consider using wired connection instead of WiFi."
  const ModerateLatency: string := "Moderate latency or jitter detected."
  const QosAdvice: string := "Enable QoS on your router for smoother streaming."

  /**
   * The status of a latency measurement. All thresholds are strict: an average above
   * 50 ms is Red whatever the jitter; an average above 20 ms or a jitter above 10 ms is
   * Yellow; anything else is Green.
   */
  function Classify(avg: real, jitter: real): (s: Status)
    ensures s == Red <==> 50.0 < avg
    ensures s == Yellow <==> avg <= 50.0 && (20.0 < avg || 10.0 < jitter)
    ensures s == Green <==> avg <= 20.0 && jitter <= 10.0
  {
    if 50.0 < avg then Red
    else if 20.0 < avg || 10.0 < jitter then Yellow
    else Green
  }

  /**
   * The recommendations that go with the status: Red gives the congestion and the wired
   * advice; Yellow gives the moderate-latency note, followed by the QoS advice exactly
   * when the jitter is above 10 ms; Green gives none.
   */
  function Advice(avg: real, jitter: real): (recs: seq<string>)
    ensures Classify(avg, jitter) == Red ==> recs == [HighLatency, WiredAdvice]
    ensures Classify(avg, jitter) == Yellow ==> |recs| == (if 10.0 < jitter then 2 else 1) && recs[0] == ModerateLatency
    ensures Classify(avg, jitter) == Yellow ==> (QosAdvice in recs <==> 10.0 < jitter)
    ensures Classify(avg, jitter) == Green ==> recs == []
  {
    if 50.0 < avg then [HighLatency, WiredAdvice]
    else if 20.0 < avg || 10.0 < jitter then [ModerateLatency] + (if 10.0 < jitter then [QosAdvice] else [])
    else []
  }

  /**
   * `analyze_latency`: classifies the measurement and pushes the recommendations that go
   * with it onto the list, keeping what was there.
   */
  method AnalyzeLatency(lat: LatencyResults, recommendations: seq<string>)
    returns (status: Status, recs: seq<string>)
    ensures status == Classify(lat.avgMs, lat.jitterMs)
    ensures recs == recommendations + Advice(lat.avgMs, lat.jitterMs)
  {
    recs := recommendations;
    if lat.avgMs > 50.0 {
      recs := recs + [HighLatency];
      recs := recs + [WiredAdvice];
      status := Red;
    } else if lat.avgMs > 20.0 || lat.jitterMs > 10.0 {
      recs := recs + [ModerateLatency];
      if lat.jitterMs > 10.0 {
        recs := recs + [QosAdvice];
      }
      status := Yellow;
    } else {
      status := Green;
    }
  }

  /** The boundaries belong to the better status: 20 ms with 10 ms jitter is Green, 50 ms is never Red. */
  lemma ThresholdsAreStrict(jitter: real)
    ensures Classify(20.0, 10.0) == Green
    ensures Classify(50.0, jitter) != Red
  {
  }

  /** The classifier adds at most two recommendations, and none twice. */
  lemma AdviceIsShortAndDistinct(avg: real, jitter: real)
    ensures var recs := Advice(avg, jitter);
      |recs| <= 2 && forall i, j :: 0 <= i < j < |recs| ==> recs[i] != recs[j]
  {
  }

  /** The rank used to pick the worst status. */
  function Severity(s: Status): (rank: nat)
    ensures 1 <= rank <= 3
  {
    match s
    case Green => 1
    case Yellow => 2
    case Red => 3
  }

  /** Equal rank means equal status, so the worst status is well defined. */
  lemma SeverityInjective(a: Status, b: Status)
    ensures Severity(a) == Severity(b) <==> a == b
  {
  }

  /**
   * The overall status: the worst of the statuses present, Green when none is.
   */
  function Overall(statuses: seq<Option<Status>>): (worst: Status)
    ensures forall i :: 0 <= i < |statuses| && statuses[i].Some? ==> Severity(statuses[i].value) <= Severity(worst)
    ensures worst == Green || Some(worst) in statuses
  {
    if statuses == [] then Green
    else
      var rest := Overall(statuses[..|statuses| - 1]);
      var last := statuses[|statuses| - 1];
      if last.Some? && Severity(rest) <= Severity(last.value) then last.value else rest
  }

  /** Making one status worse never makes the overall status better. */
  lemma {:induction false} OverallMonotone(statuses: seq<Option<Status>>, i: nat, s: Status)
    requires i < |statuses| && statuses[i].Some? && Severity(statuses[i].value) <= Severity(s)
    ensures Severity(Overall(statuses)) <= Severity(Overall(statuses[i := Some(s)]))
  {
    var worse := statuses[i := Some(s)];
    var w := Overall(worse);
    forall j | 0 <= j < |statuses| && statuses[j].Some?
      ensures Severity(statuses[j].value) <= Severity(w)
    {
      if j == i {
        assert worse[i] == Some(s);
      } else {
        assert worse[j] == statuses[j];
      }
    }
    var o := Overall(statuses);
    if o != Green {
      var k :| 0 <= k < |statuses| && statuses[k] == Some(o);
    }
  }

  /** The report built from a set of test results. */
  datatype DiagnosticReport = DiagnosticReport(
    overallStatus: Status,
    latencyStatus: Option<Status>,
    bandwidthStatus: Option<Status>,
    videoStatus: Option<Status>,
    audioStatus: Option<Status>,
    recommendations: seq<string>,
    rawResults: TestResults)

  /**
   * `from_results`: classifies the latency results if there are any (bandwidth, video and
   * audio are not analysed) and takes the worst status as the overall one.
   */
  method FromResults(results: TestResults) returns (report: DiagnosticReport)
    ensures report.rawResults == results
    ensures report.bandwidthStatus == None && report.videoStatus == None && report.audioStatus == None
    ensures report.overallStatus
         == Overall([report.latencyStatus, report.bandwidthStatus, report.videoStatus, report.audioStatus])
    ensures results.latency.None? ==>
      report.latencyStatus == None && report.recommendations == [] && report.overallStatus == Green
    ensures results.latency.Some? ==>
      var lat := results.latency.value;
      && report.latencyStatus == Some(Classify(lat.avgMs, lat.jitterMs))
      && report.overallStatus == Classify(lat.avgMs, lat.jitterMs)
      && report.recommendations == Advice(lat.avgMs, lat.jitterMs)
  {
    var recommendations: seq<string> := [];
    var latencyStatus: Option<Status> := None;
    if results.latency.Some? {
      var status;
      status, recommendations := AnalyzeLatency(results.latency.value, recommendations);
      latencyStatus := Some(status);
    }
    var overall := Overall([latencyStatus, None, None, None]);
    OverallOfOne(latencyStatus);
    report := DiagnosticReport(overall, latencyStatus, None, None, None, recommendations, results);
  }

  /** With a single test analysed, the overall status is that test's status. */
  lemma OverallOfOne(s: Option<Status>)
    ensures Overall([s, None, None, None]) == if s.Some? then s.value else Green
  {
    var one := if s.Some? then s.value else Green;
    assert [s][..0] == [];
    assert Overall([s]) == one;
    assert [s, None][..1] == [s];
    assert Overall([s, None]) == one;
    assert [s, None, None][..2] == [s, None];
    assert Overall([s, None, None]) == one;
    assert [s, None, None, None][..3] == [s, None, None];
  }
}
