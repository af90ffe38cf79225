/**
 * The client side of a session: the sequential probe loop that sends a Ping, waits for
 * the answer and records the round-trip time of every matching Pong, then the
 * statistics and the packaging of the results that are sent to the host.
 */
module Client {
  import opened Basics
  import opened Protocol
  import opened Types
  import opened Wire
  import opened Statistics

  /**
   * What the world supplies for one iteration of the probe loop: the clock reading put
   * into the Ping, what `receive_message` returned, and the measured round trip in ms.
   */
  datatype Probe = Probe(sentAt: Timestamp, reply: Result<Message, WireError>, elapsedMs: real)

  /** The reply is a Pong, whatever its timestamp. */
  predicate IsPong(p: Probe)
  {
    p.reply.Ok? && p.reply.value.Pong?
  }

  /** The reply is a Pong echoing the timestamp of the Ping just sent. */
  predicate Matches(p: Probe)
  {
    IsPong(p) && p.reply.value.timestamp == p.sentAt
  }

  datatype ClientError =
    | Receive(cause: WireError)   // `receive_message` failed
    | UnexpectedMessage           // the reply to a Ping was not a Pong
    | NoSamples                   // no Pong matched, so there is nothing to summarise

  /**
   * The recorded samples: the round-trip times of the matching probes, in probe order.
   * A Pong with another timestamp contributes nothing.
   */
  function Samples(probes: seq<Probe>): (s: seq<real>)
    ensures |s| <= |probes|
  {
    if probes == [] then []
    else
      var last := probes[|probes| - 1];
      Samples(probes[..|probes| - 1]) + (if Matches(last) then [last.elapsedMs] else [])
  }

  /** The index of the first probe whose reply is not a Pong, or the number of probes. */
  function FirstNonPong(probes: seq<Probe>): (k: nat)
    ensures k <= |probes|
    ensures forall i :: 0 <= i < k ==> IsPong(probes[i])
    ensures k < |probes| ==> !IsPong(probes[k])
  {
    if probes == [] || !IsPong(probes[0]) then 0 else 1 + FirstNonPong(probes[1..])
  }

  /** The Pings sent for a run of probes, one per probe, each with its own timestamp. */
  function PingsFor(probes: seq<Probe>): (pings: seq<Message>)
    ensures |pings| == |probes|
    ensures forall i :: 0 <= i < |probes| ==> pings[i] == Ping(probes[i].sentAt)
  {
    seq(|probes|, i requires 0 <= i < |probes| => Ping(probes[i].sentAt))
  }

  /** The error with which the loop stops at a probe whose reply is not a Pong. */
  function AbortCause(p: Probe): (e: ClientError)
    requires !IsPong(p)
    ensures e == UnexpectedMessage <==> p.reply.Ok?
    ensures p.reply.Err? ==> e == Receive(p.reply.error)
  {
    if p.reply.Err? then Receive(p.reply.error) else UnexpectedMessage
  }

  /**
   * `run_latency_test`: for each of the `latencySamples` probes, send a Ping, receive
   * the reply, keep the elapsed time of a matching Pong and drop a mismatched one, abort
   * on anything that is not a Pong, and sleep between probes (not after the last).
   * Returns the statistics, the Pings sent and the number of sleeps.
   */
  method RunLatencyTest(config: TestConfig, probes: seq<Probe>, sqrt: real -> real)
    returns (r: Result<LatencyResults, ClientError>, pings: seq<Message>, sleeps: nat)
    requires |probes| == config.latencySamples
    ensures var k := FirstNonPong(probes);
      k < |probes| ==> r == Err(AbortCause(probes[k])) && pings == PingsFor(probes[..k + 1]) && sleeps == k
    ensures FirstNonPong(probes) == |probes| ==>
      && pings == PingsFor(probes)
      && sleeps == (if probes == [] then 0 else |probes| - 1)
      && r == (if Samples(probes) == [] then Err(NoSamples) else Ok(Summarize(Samples(probes), sqrt)))
  {
    var samples: seq<real> := [];
    pings, sleeps := [], 0;
    var n := config.latencySamples;
    for i := 0 to n
      invariant pings == PingsFor(probes[..i])
      invariant samples == Samples(probes[..i])
      invariant forall j :: 0 <= j < i ==> IsPong(probes[j])
      invariant sleeps == (if i == n && n > 0 then n - 1 else i)
    {
      var probe := probes[i];
      pings := pings + [Ping(probe.sentAt)];
      ProbeStep(probes, i);
      match probe.reply {
        case Err(e) =>
          FirstNonPongAt(probes, i);
          return Err(Receive(e)), pings, sleeps;
        case Ok(response) =>
          match response {
            case Pong(t) =>
              if t == probe.sentAt {
                samples := samples + [probe.elapsedMs];
              }
            case _ =>
              FirstNonPongAt(probes, i);
              return Err(UnexpectedMessage), pings, sleeps;
          }
      }
      if i < n - 1 {
        sleeps := sleeps + 1;
      }
    }
    assert probes[..n] == probes;
    FirstNonPongAt(probes, n);
    if samples == [] {
      return Err(NoSamples), pings, sleeps;
    }
    r := Ok(Summarize(samples, sqrt));
  }

  /** The Pings and samples of the first `i + 1` probes, from those of the first `i`. */
  lemma ProbeStep(probes: seq<Probe>, i: nat)
    requires i < |probes|
    ensures PingsFor(probes[..i + 1]) == PingsFor(probes[..i]) + [Ping(probes[i].sentAt)]
    ensures Samples(probes[..i + 1])
         == Samples(probes[..i]) + (if Matches(probes[i]) then [probes[i].elapsedMs] else [])
  {
    assert probes[..i + 1][..i] == probes[..i];
  }

  /** The first non-Pong is found where every earlier reply is a Pong and this one is not. */
  lemma {:induction false} FirstNonPongAt(probes: seq<Probe>, k: nat)
    requires k <= |probes|
    requires forall j :: 0 <= j < k ==> IsPong(probes[j])
    requires k < |probes| ==> !IsPong(probes[k])
    ensures FirstNonPong(probes) == k
  {
    if k > 0 {
      FirstNonPongAt(probes[1..], k - 1);
    }
  }

  /** If every reply is a matching Pong, one sample per probe is kept, in probe order. */
  lemma {:induction false} AllMatchedKeepsEverySample(probes: seq<Probe>)
    requires forall i :: 0 <= i < |probes| ==> Matches(probes[i])
    ensures Samples(probes) == seq(|probes|, i requires 0 <= i < |probes| => probes[i].elapsedMs)
  {
    if probes != [] {
      AllMatchedKeepsEverySample(probes[..|probes| - 1]);
    }
  }

  /** Every sample is the round-trip time of some probe whose Pong matched. */
  lemma {:induction false} SamplesComeFromMatches(probes: seq<Probe>, j: nat)
    requires j < |Samples(probes)|
    ensures exists i :: 0 <= i < |probes| && Matches(probes[i]) && probes[i].elapsedMs == Samples(probes)[j]
  {
    var p := probes[..|probes| - 1];
    if j < |Samples(p)| {
      SamplesComeFromMatches(p, j);
      var i :| 0 <= i < |p| && Matches(p[i]) && p[i].elapsedMs == Samples(p)[j];
      assert probes[i] == p[i];
    } else {
      assert Matches(probes[|probes| - 1]);
    }
  }

  /**
   * `Client::run` after connecting: run the latency test, package its statistics as the
   * only sub-result, and send them to the host as a TestResults message.
   */
  method Run(config: TestConfig, probes: seq<Probe>, sqrt: real -> real)
    returns (r: Result<TestResults, ClientError>, sent: seq<Message>, sleeps: nat)
    requires |probes| == config.latencySamples
    ensures r.Ok? <==> FirstNonPong(probes) == |probes| && Samples(probes) != []
    ensures r.Ok? ==>
      && r.value == Results(Some(Summarize(Samples(probes), sqrt)), None, None, None)
      && sent == PingsFor(probes) + [Message.TestResults(r.value)]
    ensures r.Err? ==> forall i :: 0 <= i < |sent| ==> sent[i].Ping?
    ensures var k := FirstNonPong(probes);
      k < |probes| ==> r == Err(AbortCause(probes[k])) && sent == PingsFor(probes[..k + 1]) && sleeps == k
    ensures FirstNonPong(probes) == |probes| ==>
      && sleeps == (if probes == [] then 0 else |probes| - 1)
      && (Samples(probes) == [] ==> r == Err(NoSamples) && sent == PingsFor(probes))
  {
    var latency, pings, naps := RunLatencyTest(config, probes, sqrt);
    sent, sleeps := pings, naps;
    if latency.Err? {
      return Err(latency.error), sent, sleeps;
    }
    var results := Results(Some(latency.value), None, None, None);
    sent := sent + [Message.TestResults(results)];
    r := Ok(results);
  }
}
