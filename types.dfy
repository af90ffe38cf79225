/** The traffic-light status with its terminal colours, and the test configuration. */
module Types {

  /** Ordered by severity: Green, then Yellow, then Red. */
  datatype Status = Green | Yellow | Red

  const Escape: char := '\U{1B}'

  /**
   * The ANSI escape sequence that switches the terminal foreground to the status's colour:
   * green is SGR 32, yellow SGR 33, red SGR 31.
   */
  function ColorCode(s: Status): (code: string)
    ensures |code| == 5 && code[..3] == [Escape, '[', '3'] && code[4] == 'm'
    ensures code[3] == match s case Green => '2' case Yellow => '3' case Red => '1'
  {
    match s
    case Green => "\U{1B}[32m"
    case Yellow => "\U{1B}[33m"
    case Red => "\U{1B}[31m"
  }

  /** `Status::RESET`: SGR 0, back to the default colour. */
  const Reset: string := "\U{1B}[0m"

  /** The three colour codes are pairwise distinct, and none of them is the reset code. */
  lemma ColorCodesDistinct(a: Status, b: Status)
    ensures a != b ==> ColorCode(a) != ColorCode(b)
    ensures ColorCode(a) != Reset
  {
    assert ColorCode(a)[3] != Reset[3] || |ColorCode(a)| != |Reset|;
    if a != b {
      assert ColorCode(a)[3] != ColorCode(b)[3];
    }
  }

  /** `TestConfig`: the number of probes, the pause between probes, the bandwidth test length. */
  datatype TestConfig = TestConfig(
    latencySamples: nat,
    latencyIntervalMs: nat,
    bandwidthDurationSecs: nat)

  /** `TestConfig::default()`: 100 probes 10 ms apart, a 10 s bandwidth test. */
  function DefaultConfig(): (c: TestConfig)
    ensures c.latencySamples >= 1
  {
    TestConfig(100, 10, 10)
  }
}
