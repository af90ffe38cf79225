# Chequer network diagnostics — a Dafny model

Chequer measures the quality of a network path between two agents. A **client** connects
to a **host** and sends a run of Pings. The host answers each Ping with a Pong carrying
the same timestamp. The client keeps the round-trip times of matching Pongs and turns
them into latency statistics: minimum, maximum, mean, jitter (the population standard
deviation) and packet loss. It then uploads them to the host as a `TestResults` message.
A **report** classifies the latency as Green, Yellow or Red, adds recommendations and
picks the worst status as the overall one. Terminal charts (sparkline, histogram,
percentile, box drawing) present the series.

Every message travels in a frame: a 4-byte big-endian length, then that many bytes of
JSON.

The model has eleven modules. `crates/agent/src/client.rs` is split into `Wire` (the
framing it shares with the host), `Statistics` and `Client`. The other core files have
one module each, and `Basics` and `Numeric` are shared:

- `Basics`: `Option` and `Result`.
- `Numeric`: sums, extrema, `f64::round`, the `as usize` cast.
- `Protocol`: the messages and result records.
- `Types`: `Status`, its colour codes, `TestConfig`.
- `Wire`: framing, big-endian lengths, and a `Socket` class. The socket holds the bytes
  still to be read and the bytes written so far.
- `Statistics`: the statistics the client computes.
- `Client`: the probe loop and `Client::run`.
- `Host`: a `Host` class and `handle_client`. The connection loop is specified by the
  function `Serve` over the bytes the client sends.
- `Report`: classification and the report.
- `Visualization`: the charts.
- `Network`: address validation.

Values the program gets from outside are parameters of the model:

- JSON encoding and decoding are a `Codec` value with encode and decode functions.
  Message round trips are proved for any codec that round-trips the message.
- `f64::sqrt` is a function parameter. Lemmas assume only that it is a non-negative
  square root (`IsSquareRoot`).
- Clock readings, the replies the client receives and measured round-trip times are a
  supplied sequence of `Probe`s, one per loop iteration.
- The address parser of the standard library is a predicate parameter.

Floating-point numbers are modelled as exact reals.

A panic of the source is modelled as an explicit error value (`None` or `Err`):

- a division by zero;
- an index out of bounds;
- an arithmetic underflow of `usize`.

Three behaviours of the code worth knowing:

- **Empty sample set.** The code computes NaN statistics for an empty sample set.
  Reals have no NaN, so the model returns the error `NoSamples` (see Left out).
- **Sparkline chunk size.** The code cuts chunks of `len / width` values each, which can
  give more than `width` points (`SparklineCanExceedWidth`).
- **Oversized frame lengths.** The code trusts the announced frame length and resizes
  its buffer to it. So does the model (`Host.Grow`).

## Model

| member | source | states |
|---|---|---|
| Numeric.MinOf | crates/agent/src/client.rs:132 | the `fold(INFINITY, f64::min)` of a non-empty series is one of its elements and at most every element |
| Numeric.MaxOf | crates/agent/src/client.rs:133 | the `fold(NEG_INFINITY, f64::max)` of a non-empty series is one of its elements and at least every element |
| Numeric.MeanWithinBounds | crates/agent/src/client.rs:134 | the mean of terms that all lie in `[lo, hi]` lies in `[lo, hi]` |
| Numeric.RoundHalfAway | crates/report/src/visualization.rs:32 | `f64::round`: the nearest integer, ties going away from zero (the two bounds fix it uniquely) |
| Numeric.RoundMonotone | crates/report/src/visualization.rs:32 | rounding preserves order |
| Numeric.ToUsize | crates/report/src/visualization.rs:56 | `as usize`: truncation toward zero for non-negative values, 0 for negative ones |
| Types.ColorCode | crates/common/src/types.rs:23-29 | a 5-character SGR sequence `ESC [ 3 d m`, with digit 2 for Green, 3 for Yellow and 1 for Red |
| Types.ColorCodesDistinct | crates/common/src/types.rs:23-32 | different statuses have different colour codes, and none is the reset code |
| Types.DefaultConfig | crates/common/src/types.rs:43-51 | the default configuration takes at least one latency sample |
| Wire.BigEndian | crates/agent/src/client.rs:166 | `u32::to_be_bytes` gives four bytes |
| Wire.FromBigEndian | crates/agent/src/host.rs:73 | `u32::from_be_bytes` gives a value below 2^32 |
| Wire.BigEndianRoundTrip | crates/agent/src/client.rs:166 | decoding the big-endian bytes of a `u32` gives the number back |
| Wire.FromBigEndianRoundTrip | crates/agent/src/host.rs:73 | every four bytes are the encoding of the number they spell |
| Wire.EncodeFrame | crates/agent/src/client.rs:164-173 | a frame is four length bytes followed by the payload unchanged |
| Wire.DecodeFrame | crates/agent/src/client.rs:175-181 | a decoded frame consumes its 4-byte header plus its payload, never more than the stream holds |
| Wire.FrameRoundTrip | crates/agent/src/client.rs:164-181 | a frame of a payload below 2^32 bytes, followed by anything, decodes to that payload and consumes exactly the frame |
| Wire.FittingFrame | crates/agent/src/client.rs:166 | a payload whose length fits a `u32` is announced with its exact length |
| Wire.DecodedFrameIsEncoded | crates/agent/src/client.rs:175-181 | whatever frame is decoded is exactly the encoding of its payload at the front of the stream |
| Wire.TruncatedFrameRejected | crates/agent/src/client.rs:176-181 | a frame cut short fails: with a short header below 4 bytes, otherwise with a short body |
| Wire.OversizedPayloadTruncated | crates/agent/src/client.rs:166 | `len() as u32` keeps the length modulo 2^32, so a payload of 2^32 bytes or more announces a wrong length |
| Wire.ParseMessage | crates/agent/src/client.rs:175-187 | a parsed message consumes at least its 4-byte header and no more than the stream |
| Wire.MessageRoundTrip | crates/agent/src/client.rs:164-187 | the frame of a message whose JSON round-trips parses back to that message, consuming exactly the frame |
| Wire.Socket.WriteAll | crates/agent/src/client.rs:168-169 | `write_all` appends all the bytes to the outgoing stream and leaves the incoming stream alone |
| Wire.Socket.Read | crates/agent/src/host.rs:67 | `read` fills the front of the buffer with up to the requested number of incoming bytes, consumes them and leaves the rest of the buffer unchanged |
| Wire.Socket.ReadExact | crates/agent/src/host.rs:80 | `read_exact` succeeds exactly when enough bytes remain, and then copies and consumes them; on failure the stream is drained |
| Wire.SendMessage | crates/agent/src/client.rs:164-173 | sending a message appends exactly its frame to the outgoing stream |
| Wire.ReceiveMessage | crates/agent/src/client.rs:175-187 | receiving yields what `ParseMessage` yields on the incoming stream; a whole frame, decodable or not, is consumed exactly, and a stream that ends early is consumed to its end |
| Statistics.Mean | crates/agent/src/client.rs:134 | the mean of a non-empty series lies between its minimum and its maximum |
| Statistics.SquaredDeviations | crates/agent/src/client.rs:137-138 | one non-negative squared deviation per sample |
| Statistics.Variance | crates/agent/src/client.rs:137-139 | the population variance is non-negative |
| Statistics.Summarize | crates/agent/src/client.rs:131-152 | min and max are samples and bound all samples; avg is the mean (sum / len) and so lies between them; jitter is the square root of the variance; loss is 0; the samples are kept |
| Statistics.JitterIsStandardDeviation | crates/agent/src/client.rs:136-140 | the jitter is non-negative and its square is the variance |
| Statistics.PositiveSamplesPositiveMean | crates/agent/tests/integration_test.rs:32 | positive round-trip times give a positive mean |
| Statistics.ConstantSeriesHasNoJitter | crates/agent/src/client.rs:134-140 | a constant series has that constant as mean and zero variance |
| Client.Samples | crates/agent/src/client.rs:106-112 | no more samples than probes |
| Client.FirstNonPong | crates/agent/src/client.rs:113-115 | the index where the loop aborts: every earlier reply is a Pong, and the reply there is not |
| Client.PingsFor | crates/agent/src/client.rs:82-85 | one Ping per probe, carrying that probe's clock reading |
| Client.AbortCause | crates/agent/src/client.rs:103-115 | a non-Pong reply aborts with UnexpectedMessage; a receive failure aborts with Receive |
| Client.RunLatencyTest | crates/agent/src/client.rs:75-153 | the loop stops at the first non-Pong and reports its cause. Otherwise it returns the statistics of the matching samples, or NoSamples if there are none. Pings go out for every probe up to the abort, and the loop sleeps between probes but not after the last |
| Client.FirstNonPongAt | crates/agent/src/client.rs:81-121 | the abort index is the one before which every reply is a Pong and at which one is not |
| Client.AllMatchedKeepsEverySample | crates/agent/tests/integration_test.rs:31 | when every Pong matches, one sample per probe is kept, in probe order |
| Client.SamplesComeFromMatches | crates/agent/src/client.rs:106-112 | every sample is the round-trip time of a probe whose Pong matched |
| Client.Run | crates/agent/src/client.rs:37-73 | the run succeeds exactly when no probe aborts and some sample exists. It then returns results holding only the latency statistics and sends them after the Pings. A run that stops at the first non-Pong reply fails with that reply's cause, having sent the Pings up to and including it and slept once per earlier probe; a run without samples fails with `NoSamples` after all the Pings. A full run sleeps between probes, not after the last |
| Host.Dispatch | crates/agent/src/host.rs:85-101 | a reply exactly for a Ping, and it is the Pong with the same timestamp; results are kept exactly for a TestResults message |
| Host.NextStale | crates/agent/src/host.rs:80 | the front of the buffer after `read_exact` is four bytes |
| Host.TakeTurn | crates/agent/src/host.rs:73-101 | a dispatched iteration consumes no more than the stream holds and leaves a 4-byte header area |
| Host.Serve | crates/agent/src/host.rs:65-102 | the connection loop as a function of the bytes the client sends: the host replies only with Pongs, and every reply or kept result takes at least one byte of the stream |
| Host.Step | crates/agent/src/host.rs:73-101 | the loop from a header on: only Pongs are sent, and the replies and results number at most one more than the remaining bytes |
| Host.ServeFramesThen | crates/agent/src/host.rs:65-102 | well-formed frames followed by any tail: every Ping is answered and every result set kept, in order, then the tail is served |
| Host.ServeOneFrame | crates/agent/src/host.rs:67-101 | one well-formed frame at the front is read, decoded and dispatched, and serving continues after it |
| Host.ServeFrames | crates/agent/src/host.rs:59-105 | a client that sends well-formed frames and closes gets a Pong per Ping in order, has its results kept in order, and the session ends normally |
| Host.PartialHeaderFails | crates/agent/src/host.rs:67-83 | a stream ending 1 to 3 bytes into a header keeps the earlier replies and results and ends in an error |
| Host.PingIsEchoed | crates/agent/src/host.rs:86-90 | a Ping yields exactly one frame, which the client parses back as the Pong with the same timestamp |
| Host.Host.constructor | crates/agent/src/host.rs:17-22 | `Host::new` keeps the address and starts with no results |
| Host.Host.GetResults | crates/agent/src/host.rs:54-56 | a copy of the results collected so far |
| Host.Host.HandleClient | crates/agent/src/host.rs:59-105 | the outcome, the results appended and the bytes written are those of `Serve` on the client's whole stream, starting from a zeroed buffer |
| Host.Host.ReceiveAndDispatch | crates/agent/src/host.rs:73-101 | one iteration does what `TakeTurn` says: on error nothing is sent or kept; otherwise the payload is consumed and the reply and results of `Dispatch` are sent and kept |
| Host.Host.Perform | crates/agent/src/host.rs:85-101 | the reply's frame is written and the results are appended; nothing else changes |
| Host.ReadHeader | crates/agent/src/host.rs:67 | `read(&mut buffer[..4])` overwrites the front of the header with up to four incoming bytes and leaves the rest of the buffer alone |
| Host.Host.Iteration | crates/agent/src/host.rs:65-102 | one pass of the loop: on an error the session so far is the whole session and ends in that error; otherwise the replies and results so far plus what `Serve` specifies for the rest of the stream are still the whole session, and the unread input shrinks |
| Host.LoopContinues | crates/agent/src/host.rs:65-102 | after a dispatched iteration and the next header read, the session so far plus the rest of `Serve` is still the whole session |
| Host.LoopStops | crates/agent/src/host.rs:73-84 | an iteration that fails ends the session with that error, keeping the replies and results so far |
| Host.Grow | crates/agent/src/host.rs:75-77 | `resize(len, 0)` keeps the old contents and pads with zeros |
| Report.Classify | crates/report/src/lib.rs:95-108 | Red iff avg > 50 ms; Yellow iff avg ≤ 50 and (avg > 20 or jitter > 10); Green iff avg ≤ 20 and jitter ≤ 10 |
| Report.Advice | crates/report/src/lib.rs:96-104 | Red gives the latency and wired-connection advice. Yellow gives the moderate-latency advice, then the QoS advice iff jitter > 10, and nothing more. Green gives nothing |
| Report.AnalyzeLatency | crates/report/src/lib.rs:95-109 | returns `Classify` of the mean and jitter, and appends `Advice` to the recommendations |
| Report.ThresholdsAreStrict | crates/report/src/lib.rs:96-105 | the thresholds are strict: 20 ms with 10 ms jitter is Green, and 50 ms is never Red |
| Report.AdviceIsShortAndDistinct | crates/report/src/lib.rs:96-104 | at most two recommendations, never the same one twice |
| Report.SeverityInjective | crates/report/src/lib.rs:35-39 | the severity key of `max_by_key` tells the three statuses apart |
| Report.Overall | crates/report/src/lib.rs:32-40 | the overall status is at least as severe as every present status, and is one of them (Green when none is present) |
| Report.OverallMonotone | crates/report/src/lib.rs:32-40 | a worse status for one test never improves the overall status |
| Report.FromResults | crates/report/src/lib.rs:18-51 | the report keeps the raw results. Only latency is analysed, and its status and recommendations come from `AnalyzeLatency`. The overall status is the worst present one |
| Report.OverallOfOne | crates/report/src/lib.rs:26-40 | with bandwidth, video and audio absent, the overall status is the latency status, or Green |
| Network.ValidateIpPort | crates/agent/src/network.rs:5-16 | accepted iff the text parses as a socket address or contains a colon; otherwise the "Invalid address format" error |
| Network.AcceptedIffColon | crates/agent/src/network.rs:10-11 | since every socket address contains a colon, acceptance is exactly containing a colon |
| Network.ValidationExamples | crates/agent/src/network.rs:23-28 | the three addresses with ports are accepted and "invalid" is rejected |
| Visualization.Chunks | crates/report/src/visualization.rs:14 | `chunks(size)` gives ceil(n / size) non-empty runs of at most `size` values |
| Visualization.ChunksFull | crates/report/src/visualization.rs:14 | every chunk but the last holds exactly `size` values |
| Visualization.ChunksPartition | crates/report/src/visualization.rs:14 | the chunks concatenated are the series |
| Visualization.Downsample | crates/report/src/visualization.rs:13-19 | a series that fits the width is kept. A longer one becomes ceil(n / (n / width)) points. A non-empty series stays non-empty |
| Visualization.DownsampleIsChunkMeans | crates/report/src/visualization.rs:13-16 | a series longer than the width becomes one point per chunk of `len / width` values, in order, each the mean of its chunk |
| Visualization.Level | crates/report/src/visualization.rs:31-34 | a glyph index is at most 7 |
| Visualization.SparkLevels | crates/report/src/visualization.rs:5-36 | fails only for a non-empty series at width 0; gives one index ≤ 7 per downsampled point; empty for an empty series |
| Visualization.Sparkline | crates/report/src/visualization.rs:5-36 | fails only on a zero width with data; otherwise glyph i is block number `level i` of the eight, so the level lemmas describe the rendered string |
| Visualization.LevelExtremes | crates/report/src/visualization.rs:32 | the minimum maps to glyph 0 and the maximum to glyph 7 |
| Visualization.LevelMonotone | crates/report/src/visualization.rs:32 | a larger value never gets a lower glyph |
| Visualization.SparklineReachesBottom | crates/report/src/visualization.rs:21-35 | a non-constant series has level 0, and so shows the lowest block, somewhere |
| Visualization.SparklineReachesTop | crates/report/src/visualization.rs:21-35 | a non-constant series has level 7, and so shows the highest block, somewhere |
| Visualization.SparkLevelIsLevel | crates/report/src/visualization.rs:21-35 | in a series that is not constant after downsampling, each point's glyph is its level between the least point `lo` and the greatest point `hi` |
| Visualization.Levels | crates/report/src/visualization.rs:25-35 | one glyph index per point, each at most 7 (`min(normalized, 7)`) |
| Visualization.LevelsReachBottom | crates/report/src/visualization.rs:31-33 | when the extremes differ, the least point gets glyph 0 |
| Visualization.LevelsReachTop | crates/report/src/visualization.rs:31-33 | when the extremes differ, the greatest point gets glyph 7 |
| Visualization.LevelsAscending | crates/report/src/visualization.rs:29-35 | the glyph indices of an ascending series never step down |
| Visualization.SparklineFollowsOrder | crates/report/src/visualization.rs:13-35 | the levels, and so the block glyphs, of an ascending series never step down |
| Visualization.ChunksAscending | crates/report/src/visualization.rs:14 | each chunk of an ascending series lies wholly below the later ones |
| Visualization.DownsampleAscending | crates/report/src/visualization.rs:13-19 | downsampling keeps an ascending series ascending |
| Visualization.ConstantSparkline | crates/report/src/visualization.rs:25-27 | a constant series has level 4, the middle block, at every point |
| Visualization.DownsampleConstant | crates/report/src/visualization.rs:13-19 | every chunk mean of a constant series is that constant |
| Visualization.SparklineCanExceedWidth | crates/report/src/visualization.rs:13-19 | seven values at width 3 give four glyphs, more than the width |
| Visualization.SparklineOfShortSeries | crates/report/src/visualization.rs:147-152 | five values at width 10 give five glyphs |
| Visualization.BinIndex | crates/report/src/visualization.rs:56 | a value between the minimum and the maximum lands in one of the bins |
| Visualization.BinCounts | crates/report/src/visualization.rs:54-58 | one count per bin |
| Visualization.BinCountsTotal | crates/report/src/visualization.rs:54-58 | the counts add up to the number of values |
| Visualization.BinBound | crates/report/src/visualization.rs:67-68 | the boundary below bin `i`: the minimum for the first bin and the minimum plus the range after the last |
| Visualization.CountBins | crates/report/src/visualization.rs:54-58 | the counting loop computes `BinCounts` |
| Visualization.MaxCount | crates/report/src/visualization.rs:60 | the largest count, at least every count and one of them; 1 for no bins |
| Visualization.BarWidth | crates/report/src/visualization.rs:69-73 | a bar is at most the width, and the fullest bar is exactly the width |
| Visualization.Bars | crates/report/src/visualization.rs:63-82 | one row per bin |
| Visualization.Histogram | crates/report/src/visualization.rs:40-83 | no rows for no data or no bins; one "all identical" row for a constant series; otherwise the bars of the bin counts |
| Visualization.BarsFitWidth | crates/report/src/visualization.rs:69-73 | no bar is wider than the width |
| Visualization.FullestBarFillsWidth | crates/report/src/visualization.rs:60-73 | some bar is exactly the width |
| Visualization.BarsSpanRange | crates/report/src/visualization.rs:67-68 | the first bin starts at the minimum and the last ends at the maximum |
| Visualization.BarsAdjacent | crates/report/src/visualization.rs:67-68 | each bin ends where the next starts |
| Visualization.BinStartsAtOrBelow | crates/report/src/visualization.rs:56-67 | every value is at or above the start of its bin |
| Visualization.BinCanOverrunItsEnd | crates/report/src/visualization.rs:56-68 | the `bins - 0.001` scale can put a value in a bin whose end lies below it (0.5001 in bin 0 of [0, 0.5]) |
| Visualization.SortAscending | crates/report/src/visualization.rs:91-92 | the array ends sorted and a permutation of its old contents |
| Visualization.SwapDown | crates/report/src/visualization.rs:92 | one insertion step extends the sorted prefix by one element and permutes the array |
| Visualization.SwapBack | crates/report/src/visualization.rs:92 | one exchange moves the inserted value down a place, keeping the rest of the prefix sorted and below what comes after it, and permutes the array |
| Visualization.ChunksAbove | crates/report/src/visualization.rs:14 | a lower bound on a series bounds the least element of every chunk |
| Visualization.Insert | crates/report/src/visualization.rs:92 | inserting adds exactly the element to the multiset |
| Visualization.InsertSorted | crates/report/src/visualization.rs:92 | inserting into a sorted sequence keeps it sorted |
| Visualization.SortedOf | crates/report/src/visualization.rs:91-92 | the reference sort is a permutation of its input |
| Visualization.SortedOfSorted | crates/report/src/visualization.rs:91-92 | the reference sort is sorted |
| Visualization.SortedUnique | crates/report/src/visualization.rs:92 | two sorted permutations of one multiset are equal, so any correct sort gives `SortedOf` |
| Visualization.RankAt | crates/report/src/visualization.rs:94 | a non-negative position is rounded to the nearest index |
| Visualization.NearestRank | crates/report/src/visualization.rs:94 | the index is the nearest integer to `(n - 1) * p / 100`, and 0 for a negative position (the `as usize` cast) |
| Visualization.Percentile | crates/report/src/visualization.rs:86-96 | 0 for an empty series. Otherwise it fails exactly when the rank is past the end, and else returns the value at the nearest rank of the sorted series |
| Visualization.NearestRankInRange | crates/report/src/visualization.rs:94-95 | a percentage in [0, 100] picks a rank inside the series |
| Visualization.NearestRankMonotone | crates/report/src/visualization.rs:94 | a larger percentage never picks a lower rank |
| Visualization.PercentileMonotone | crates/report/src/visualization.rs:86-96 | a larger percentage never gives a smaller percentile |
| Visualization.PercentileIsAValue | crates/report/src/visualization.rs:86-96 | a percentile is one of the data values |
| Visualization.PercentileCanOverrun | crates/report/src/visualization.rs:94-95 | 200 % of two values indexes past the end |
| Visualization.PercentileExamples | crates/report/src/visualization.rs:155-159 | the 50th percentile of 1..10 is 6 and the 95th is 10 |
| Visualization.Repeat | crates/report/src/visualization.rs:104 | `repeat` gives `n` copies of the character |
| Visualization.SaturatingSub | crates/report/src/visualization.rs:130 | `saturating_sub`: 0 when the subtrahend is at least the minuend, otherwise the difference |
| Visualization.Border | crates/report/src/visualization.rs:103-106 | a border line is exactly `width` characters: its two corners around `width - 2` double bars |
| Visualization.TitleLine | crates/report/src/visualization.rs:110-116 | the title line is exactly `width` characters between two bars, with the title starting `(width - 4 - len) / 2` spaces in |
| Visualization.ContentLine | crates/report/src/visualization.rs:127-132 | a content line is a bar, a space, the text unchanged, padding, and a closing bar, never shorter than the text plus 3 |
| Visualization.BoxLines | crates/report/src/visualization.rs:99-141 | the top border, then the title line and separator when there is a title, then one framed line per content line in order, then the bottom border |
| Visualization.ContentLines | crates/report/src/visualization.rs:126-133 | one framed line per content line |
| Visualization.DrawBox | crates/report/src/visualization.rs:99-141 | fails exactly when the width underflows (below 2, or below 4 plus the title). Otherwise the box is the header lines, the content lines and the bottom border, joined by newlines |
| Visualization.PushHeader | crates/report/src/visualization.rs:102-123 | pushes the top border, then the title line and the separator when there is a title, each ended by a newline |
| Visualization.PushContent | crates/report/src/visualization.rs:126-133 | the content loop pushes one framed line per content line, in order, each ended by a newline |
| Visualization.PushBorder | crates/report/src/visualization.rs:103-106 | appends a border line of the given corners |
| Visualization.PushTitle | crates/report/src/visualization.rs:110-116 | appends the padded title line |
| Visualization.PushContentLine | crates/report/src/visualization.rs:127-132 | appends one framed content line |
| Visualization.BoxLineCount | crates/report/src/visualization.rs:99-141 | the box has 2 lines, plus 2 with a title, plus one per content line |
| Visualization.FrameLinesHaveWidth | crates/report/src/visualization.rs:102-123 | the borders, title and separator are exactly `width` characters |
| Visualization.ContentLineWidth | crates/report/src/visualization.rs:126-133 | a content line is `width` characters, or `len + 3` when the line is too long |
| Visualization.TitleSitsLeftOfCentre | crates/report/src/visualization.rs:110-114 | the right padding of the title exceeds the left padding by 2, plus 1 when the spare width is odd |
| Visualization.BoxFeeds | crates/report/src/visualization.rs:99-141 | the box holds one newline per line except the last |

## Left out

- JSON (`serde_json`): replaced by the `Codec` parameter. Message round trips assume only that the codec round-trips the message in question.
- Floating point: values are exact reals, so there are no NaN, infinities or rounding error. `f64::sqrt` is a parameter, assumed to be a non-negative square root.
- `partial_cmp(..).unwrap()` in `percentile`: it panics only on NaN, which reals do not have.
- Clocks and sleeping: `Utc::now`, `Instant` and `tokio::time::sleep` are not modelled. The timestamps and round-trip times come with the supplied probes, and sleeps are only counted.
- Client.RunLatencyTest: when no Pong matched, it returns `NoSamples` instead of the NaN and infinite statistics the code computes.
- Client.Run: the same deviation as RunLatencyTest for an empty sample set.
- Connecting: `TcpStream::connect`, binding, accepting, `set_nodelay` and `TCP_QUICKACK` are not modelled. They do not change the bytes exchanged.
- Concurrency: `Host::run` (the accept loop, `tokio::spawn`, `Arc<Mutex<..>>`) is not modelled. `HandleClient` updates the host's results directly, so interleaved sessions are not modelled.
- I/O errors other than the end of the stream are not modelled.
- Wire.Socket.Read: it returns every requested byte that is available. A real `read` may return fewer. The host's header read is modelled with this behaviour.
- `Client::new`, `Client::with_config` and the `AgentRole` enum: plain builders and a CLI choice, not modelled.
- Logging and output: `tracing`, progress printing, `DiagnosticReport::print_terminal` and `to_json` are not modelled.
- Visualization.Histogram: its rows keep the bin bounds and the bar width. The `{:5.1}` text formatting is not rendered.
- Text widths: `len()` counts bytes. The model counts characters, so widths agree for ASCII text only.
- Visualization.SortAscending: `sort_by` is modelled as an insertion sort. Its result equals that of any correct sort (`SortedUnique`), but its running time is not modelled.
- Numeric.ToUsize: does not model the saturation at `usize::MAX` of very large values.
- Bandwidth, video and audio: the source produces and analyses none of them, so neither does the model.
- The binary entry point `crates/agent/src/main.rs` is not part of this model.
- `crates/test-game` is not part of this model.
