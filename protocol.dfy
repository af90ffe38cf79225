/**
 * The messages and result records exchanged between client and host. Floating-point
 * fields are exact reals; `Vec<T>` is a sequence; `u32` a bounded integer.
 */
module Protocol {
  import opened Basics

  /**
   * A `DateTime<Utc>`, as nanoseconds since the Unix epoch. The protocol only copies a
   * timestamp from a Ping into its Pong and compares the two for equality.
   */
  type Timestamp = int

  type U32 = n: int | 0 <= n < 0x1_0000_0000

  /**
   * The four message kinds, told apart on the wire by a `"type"` tag. Ping and Pong carry
   * a timestamp of the same type, so an echo copies it unchanged.
   */
  datatype Message =
    | Ping(timestamp: Timestamp)
    | Pong(timestamp: Timestamp)
    | TestResults(results: TestResults)
    | Error(message: string)

  /** The outcome of one client session: four independently optional sub-results. */
  datatype TestResults = Results(
    latency: Option<LatencyResults>,
    bandwidth: Option<BandwidthResults>,
    video: Option<VideoResults>,
    audio: Option<AudioResults>)

  /** Latency statistics in milliseconds, with the samples in probe order. */
  datatype LatencyResults = LatencyResults(
    minMs: real,
    maxMs: real,
    avgMs: real,
    jitterMs: real,
    packetLossPercent: real,
    samples: seq<real>)

  datatype BandwidthResults = BandwidthResults(downloadMbps: real, uploadMbps: real)

  datatype VideoResults = VideoResults(supportedCodecs: seq<string>, decodeFps: Option<real>)

  datatype AudioResults = AudioResults(outputDevices: seq<string>, sampleRate: Option<U32>)
}
