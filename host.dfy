/**
 * The host side of a session: `handle_client` reads frames off one connection until
 * the client closes it, answers every Ping with a Pong carrying the same timestamp,
 * and keeps every set of test results it is sent.
 *
 * `Serve` is the specification of one connection: what the host replies, what it
 * stores and how the session ends, as a function of the bytes the client sends.
 */
module Host {
  import opened Basics
  import opened Protocol
  import opened Wire

  /** What the host does with one decoded message: the reply it sends and the results it keeps. */
  datatype Action = Action(reply: Option<Message>, store: Option<TestResults>)

  /** The dispatch on the message kind: only a Ping is answered, only test results are kept. */
  function Dispatch(m: Message): (a: Action)
    ensures a.reply.Some? <==> m.Ping?
    ensures m.Ping? ==> a.reply.value == Pong(m.timestamp)
    ensures a.store.Some? <==> m.TestResults?
    ensures m.TestResults? ==> a.store.value == m.results
  {
    match m
    case Ping(t) => Action(Some(Pong(t)), None)
    case TestResults(r) => Action(None, Some(r))
    case Pong(_) => Action(None, None)
    case Error(_) => Action(None, None)
  }

  function OptSeq<T>(o: Option<T>): seq<T>
  {
    if o.Some? then [o.value] else []
  }

  /** The observable outcome of serving one connection. */
  datatype Session = Session(replies: seq<Message>, stored: seq<TestResults>, outcome: Result<(), WireError>)

  /** A session preceded by replies already sent and results already stored. */
  function Prefixed(replies: seq<Message>, stored: seq<TestResults>, s: Session): Session
  {
    Session(replies + s.replies, stored + s.stored, s.outcome)
  }

  /** The first four bytes of the freshly allocated 8192-byte buffer. */
  const Zeros: seq<Byte> := [0, 0, 0, 0]

  /**
   * The first four bytes of the buffer after `read_exact` has written the payload over
   * its front: a payload shorter than 4 bytes leaves the rest of the old header there.
   */
  function NextStale(header: seq<Byte>, payload: seq<Byte>): (stale: seq<Byte>)
    requires |header| == 4
    ensures |stale| == 4
  {
    seq(4, i requires 0 <= i < 4 => if i < |payload| then payload[i] else header[i])
  }

  /**
   * The specification of `handle_client` on the bytes the client sends, `stale` being
   * the first four bytes of the buffer. The end of the stream ends the session
   * normally; otherwise `read` fills the front of the header with up to 4 bytes (fewer
   * only at the end of the stream, the rest of the header keeping stale bytes).
   * The host only ever replies with Pongs, and every reply or kept result costs at
   * least one byte of the stream.
   */
  function Serve(stream: seq<Byte>, stale: seq<Byte>, codec: Codec): (s: Session)
    requires |stale| == 4
    ensures forall i :: 0 <= i < |s.replies| ==> s.replies[i].Pong?
    ensures |s.replies| + |s.stored| <= |stream|
    decreases |stream|, 0
  {
    if stream == [] then Session([], [], Ok(()))
    else
      var n := Min(4, |stream|);
      Step(stream[..n] + stale[n..], stream[n..], codec)
  }

  /** How one iteration ends: with an error, or with a dispatched message. */
  datatype Turn =
    | Stop(error: WireError)
    | Continue(action: Action, consumed: nat, stale: seq<Byte>)

  /**
   * One iteration once the header is in the buffer: `read_exact` of the announced
   * length, then decoding and dispatch. `consumed` is the payload length and `stale`
   * the front of the buffer afterwards.
   */
  function TakeTurn(header: seq<Byte>, rest: seq<Byte>, codec: Codec): (t: Turn)
    requires |header| == 4
    ensures t.Continue? ==> t.consumed <= |rest| && |t.stale| == 4
  {
    var len := FromBigEndian(header);
    if |rest| < len then Stop(ShortBody)
    else
      var payload := rest[..len];
      match codec.decode(payload)
      case None => Stop(Undecodable)
      case Some(m) => Continue(Dispatch(m), len, NextStale(header, payload))
  }

  /** The session from one iteration on, once the header is in the buffer. */
  function Step(header: seq<Byte>, rest: seq<Byte>, codec: Codec): (s: Session)
    requires |header| == 4
    ensures forall i :: 0 <= i < |s.replies| ==> s.replies[i].Pong?
    ensures |s.replies| + |s.stored| <= |rest| + 1
    decreases |rest|, 1
  {
    match TakeTurn(header, rest, codec)
    case Stop(e) => Session([], [], Err(e))
    case Continue(a, len, stale) =>
      Prefixed(OptSeq(a.reply), OptSeq(a.store), Serve(rest[len..], stale, codec))
  }

  /** The bytes of a run of messages, each sent in its own frame. */
  function Frames(ms: seq<Message>, codec: Codec): seq<Byte>
  {
    if ms == [] then [] else EncodeFrame(codec.encode(ms[0])) + Frames(ms[1..], codec)
  }

  /** The frames of two runs of messages, one after the other. */
  lemma {:induction false} FramesConcat(ms: seq<Message>, ns: seq<Message>, codec: Codec)
    ensures Frames(ms + ns, codec) == Frames(ms, codec) + Frames(ns, codec)
  {
    if ms == [] {
      assert ms + ns == ns;
    } else {
      assert (ms + ns)[1..] == ms[1..] + ns;
      FramesConcat(ms[1..], ns, codec);
    }
  }

  /** The replies owed for a run of messages: a Pong per Ping, with its timestamp, in order. */
  function Echoes(ms: seq<Message>): seq<Message>
  {
    if ms == [] then [] else (if ms[0].Ping? then [Pong(ms[0].timestamp)] else []) + Echoes(ms[1..])
  }

  /** The test results carried by a run of messages, in order. */
  function Uploaded(ms: seq<Message>): seq<TestResults>
  {
    if ms == [] then [] else (if ms[0].TestResults? then [ms[0].results] else []) + Uploaded(ms[1..])
  }

  /** The first four bytes of the buffer after the frames of `ms` have been read. */
  function StaleAfter(ms: seq<Message>, stale: seq<Byte>, codec: Codec): (last: seq<Byte>)
    requires |stale| == 4
    ensures |last| == 4
  {
    if ms == [] then stale
    else
      var p := codec.encode(ms[0]);
      StaleAfter(ms[1..], NextStale(BigEndian(|p| % U32Limit), p), codec)
  }

  /**
   * A stream made of well-formed frames, one per message, and then any tail: the host
   * answers every Ping, keeps every set of results, and goes on with the tail.
   */
  lemma {:induction false} ServeFramesThen(ms: seq<Message>, tail: seq<Byte>, stale: seq<Byte>, codec: Codec)
    requires |stale| == 4
    requires forall i :: 0 <= i < |ms| ==> RoundTrips(codec, ms[i])
    ensures Serve(Frames(ms, codec) + tail, stale, codec)
         == Prefixed(Echoes(ms), Uploaded(ms), Serve(tail, StaleAfter(ms, stale, codec), codec))
  {
    if ms == [] {
      assert Frames(ms, codec) + tail == tail;
      var rest := Serve(tail, stale, codec);
      assert Prefixed([], [], rest) == Session(rest.replies, rest.stored, rest.outcome) == rest;
    } else {
      var p := codec.encode(ms[0]);
      RoundTripsTail(ms, codec);
      ServeFramesThen(ms[1..], tail, NextStale(BigEndian(|p|), p), codec);
      ServeFramesStep(ms, tail, stale, codec);
    }
  }

  /** Every message after the first round-trips when every message does. */
  lemma RoundTripsTail(ms: seq<Message>, codec: Codec)
    requires ms != []
    requires forall i :: 0 <= i < |ms| ==> RoundTrips(codec, ms[i])
    ensures forall i :: 0 <= i < |ms[1..]| ==> RoundTrips(codec, ms[1..][i])
  {
    forall i | 0 <= i < |ms[1..]|
      ensures RoundTrips(codec, ms[1..][i])
    {
      assert ms[1..][i] == ms[i + 1];
    }
  }

  /** The first frame of a run, followed by what the rest of the run is known to do. */
  lemma ServeFramesStep(ms: seq<Message>, tail: seq<Byte>, stale: seq<Byte>, codec: Codec)
    requires |stale| == 4 && ms != [] && RoundTrips(codec, ms[0])
    requires var p := codec.encode(ms[0]);
      var next := NextStale(BigEndian(|p|), p);
      Serve(Frames(ms[1..], codec) + tail, next, codec)
        == Prefixed(Echoes(ms[1..]), Uploaded(ms[1..]), Serve(tail, StaleAfter(ms[1..], next, codec), codec))
    ensures Serve(Frames(ms, codec) + tail, stale, codec)
         == Prefixed(Echoes(ms), Uploaded(ms), Serve(tail, StaleAfter(ms, stale, codec), codec))
  {
    var p := codec.encode(ms[0]);
    var next := NextStale(BigEndian(|p|), p);
    var rest := Serve(tail, StaleAfter(ms, stale, codec), codec);
    var a := Dispatch(ms[0]);
    ServeFirstFrame(ms, tail, stale, codec);
    StaleAfterFirst(ms, stale, codec);
    DispatchAccumulates(ms);
    PrefixedTwice(OptSeq(a.reply), OptSeq(a.store), Echoes(ms[1..]), Uploaded(ms[1..]), rest);
  }

  /** The buffer front after the first frame of a run, whose length fits a `u32`. */
  lemma StaleAfterFirst(ms: seq<Message>, stale: seq<Byte>, codec: Codec)
    requires |stale| == 4 && ms != [] && |codec.encode(ms[0])| < U32Limit
    ensures var p := codec.encode(ms[0]);
      StaleAfter(ms, stale, codec) == StaleAfter(ms[1..], NextStale(BigEndian(|p|), p), codec)
  {
    var p := codec.encode(ms[0]);
    assert |p| % U32Limit == |p|;
  }

  /** The first of a run of frames is read, decoded and dispatched. */
  lemma ServeFirstFrame(ms: seq<Message>, tail: seq<Byte>, stale: seq<Byte>, codec: Codec)
    requires |stale| == 4 && ms != [] && RoundTrips(codec, ms[0])
    ensures var p := codec.encode(ms[0]);
      var a := Dispatch(ms[0]);
      Serve(Frames(ms, codec) + tail, stale, codec)
        == Prefixed(OptSeq(a.reply), OptSeq(a.store), Serve(Frames(ms[1..], codec) + tail, NextStale(BigEndian(|p|), p), codec))
  {
    var p := codec.encode(ms[0]);
    var after := Frames(ms[1..], codec) + tail;
    assert Frames(ms, codec) + tail == EncodeFrame(p) + after;
    ServeOneFrame(ms[0], after, stale, codec);
  }

  /** What the dispatch of the first message adds to the echoes and uploads of the rest. */
  lemma DispatchAccumulates(ms: seq<Message>)
    requires ms != []
    ensures OptSeq(Dispatch(ms[0]).reply) + Echoes(ms[1..]) == Echoes(ms)
    ensures OptSeq(Dispatch(ms[0]).store) + Uploaded(ms[1..]) == Uploaded(ms)
  {
  }

  lemma PrefixedTwice(r1: seq<Message>, s1: seq<TestResults>, r2: seq<Message>, s2: seq<TestResults>, x: Session)
    ensures Prefixed(r1, s1, Prefixed(r2, s2, x)) == Prefixed(r1 + r2, s1 + s2, x)
  {
    assert r1 + (r2 + x.replies) == (r1 + r2) + x.replies;
    assert s1 + (s2 + x.stored) == (s1 + s2) + x.stored;
  }

  /** One well-formed frame at the front of the stream is read, decoded and dispatched. */
  lemma ServeOneFrame(m: Message, after: seq<Byte>, stale: seq<Byte>, codec: Codec)
    requires |stale| == 4
    requires RoundTrips(codec, m)
    ensures var p := codec.encode(m);
      var a := Dispatch(m);
      Serve(EncodeFrame(p) + after, stale, codec)
        == Prefixed(OptSeq(a.reply), OptSeq(a.store), Serve(after, NextStale(BigEndian(|p|), p), codec))
  {
    var p := codec.encode(m);
    var header := BigEndian(|p|);
    var stream := EncodeFrame(p) + after;
    FittingFrame(p);
    assert stream == header + p + after;
    assert stream[..4] + stale[4..] == header;
    BigEndianRoundTrip(|p|);
    assert stream[4..][..|p|] == p;
    assert stream[4..][|p|..] == after;
  }

  /**
   * A connection on which the client sends well-formed frames and then closes: every
   * Ping is answered in order, every set of results is kept in order, and the session
   * ends normally.
   */
  lemma ServeFrames(ms: seq<Message>, stale: seq<Byte>, codec: Codec)
    requires |stale| == 4
    requires forall i :: 0 <= i < |ms| ==> RoundTrips(codec, ms[i])
    ensures Serve(Frames(ms, codec), stale, codec) == Session(Echoes(ms), Uploaded(ms), Ok(()))
  {
    ServeFramesThen(ms, [], stale, codec);
    assert Frames(ms, codec) + [] == Frames(ms, codec);
  }

  /**
   * A connection that ends one to three bytes into a header: the replies and results of
   * the complete frames before it stand, and the session ends in an error (`read_exact`
   * of a length read partly from stale bytes fails, and a zero length fails to decode as
   * JSON).
   */
  lemma PartialHeaderFails(ms: seq<Message>, tail: seq<Byte>, codec: Codec)
    requires forall i :: 0 <= i < |ms| ==> RoundTrips(codec, ms[i])
    requires 0 < |tail| < 4
    requires codec.decode([]) == None
    ensures var s := Serve(Frames(ms, codec) + tail, Zeros, codec);
      s.replies == Echoes(ms) && s.stored == Uploaded(ms) && s.outcome.Err?
  {
    ServeFramesThen(ms, tail, Zeros, codec);
    PartialHeaderEnds(tail, StaleAfter(ms, Zeros, codec), codec);
    assert Echoes(ms) + [] == Echoes(ms) && Uploaded(ms) + [] == Uploaded(ms);
  }

  /** One to three bytes, and then the end of the stream, end the session in an error. */
  lemma PartialHeaderEnds(tail: seq<Byte>, stale: seq<Byte>, codec: Codec)
    requires |stale| == 4 && 0 < |tail| < 4
    requires codec.decode([]) == None
    ensures var s := Serve(tail, stale, codec);
      s.replies == [] && s.stored == [] && s.outcome.Err?
  {
    assert tail[|tail|..] == [];
    ServeAfterRead(tail, stale, |tail|, codec);
  }

  /**
   * A Ping is answered by a frame from which the client reads back a Pong with the same
   * timestamp: the host's echo is what the client's probe loop accepts as a match.
   */
  lemma PingIsEchoed(t: Timestamp, stale: seq<Byte>, codec: Codec)
    requires |stale| == 4
    requires RoundTrips(codec, Ping(t)) && RoundTrips(codec, Pong(t))
    ensures var s := Serve(Frames([Ping(t)], codec), stale, codec);
      s.replies == [Pong(t)] && s.outcome == Ok(())
    ensures ParseMessage(Frames([Pong(t)], codec), codec).Ok?
    ensures ParseMessage(Frames([Pong(t)], codec), codec).value.0 == Pong(t)
  {
    ServeFrames([Ping(t)], stale, codec);
    assert Echoes([Ping(t)]) == [Pong(t)];
    assert Frames([Pong(t)], codec) == EncodeFrame(codec.encode(Pong(t))) + [];
    MessageRoundTrip(codec, Pong(t), []);
  }

  /** The host: the address it listens on and the results collected from its clients. */
  class Host {
    const listenAddr: string
    var results: seq<TestResults>

    /** `Host::new`: no results yet. */
    constructor (listenAddr: string)
      ensures this.listenAddr == listenAddr && results == []
    {
      this.listenAddr := listenAddr;
      results := [];
    }

    /** `get_results`: a copy of the results collected so far. */
    method GetResults() returns (r: seq<TestResults>)
      ensures r == results
    {
      r := results;
    }

    /**
     * `handle_client` on one connection: the replies written to the socket, the results
     * appended and the outcome are those `Serve` specifies for the bytes the client
     * sends, starting from a zeroed buffer.
     */
    method HandleClient(socket: Socket, codec: Codec) returns (outcome: Result<(), WireError>)
      modifies this, socket
      ensures var s := Serve(old(socket.inbound), Zeros, codec);
        && outcome == s.outcome
        && results == old(results) + s.stored
        && socket.outbound == old(socket.outbound) + Frames(s.replies, codec)
    {
      ghost var total := Serve(socket.inbound, Zeros, codec);
      ghost var replies: seq<Message> := [];
      ghost var stored: seq<TestResults> := [];
      var buffer := new Byte[8192](_ => 0);
      ghost var stream := socket.inbound;
      assert buffer[..4] == Zeros;
      var n := ReadHeader(socket, buffer);
      LoopStarts(total, stream, n, codec);
      while n != 0
        invariant fresh(buffer) && 4 <= buffer.Length
        invariant socket.outbound == old(socket.outbound) + Frames(replies, codec)
        invariant results == old(results) + stored
        invariant Tracks(total, replies, stored, n, buffer[..4], socket.inbound, codec)
        decreases |socket.inbound| + n
      {
        var stop;
        buffer, n, stop, replies, stored :=
          Iteration(socket, buffer, codec, total, old(socket.outbound), old(results), replies, stored, n);
        if stop.Some? {
          return Err(stop.value);
        }
      }
      outcome := Ok(());
    }

    /**
     * One iteration of the loop of `handle_client` after a header read that returned
     * `read != 0` bytes: receive, decode and act on one message, then read the next
     * header. `sent` and `kept` are what the socket and the results held when the
     * connection began; `replies` and `stored` what was added since.
     */
    method Iteration(socket: Socket, buffer: array<Byte>, codec: Codec, ghost total: Session,
                     ghost sent: seq<Byte>, ghost kept: seq<TestResults>,
                     ghost replies: seq<Message>, ghost stored: seq<TestResults>, read: nat)
      returns (next: array<Byte>, n: nat, stop: Option<WireError>,
               ghost replies': seq<Message>, ghost stored': seq<TestResults>)
      requires 4 <= buffer.Length && read != 0
      requires Tracks(total, replies, stored, read, buffer[..4], socket.inbound, codec)
      requires socket.outbound == sent + Frames(replies, codec) && results == kept + stored
      modifies this, socket, buffer
      ensures (next == buffer || fresh(next)) && 4 <= next.Length
      ensures socket.outbound == sent + Frames(replies', codec) && results == kept + stored'
      ensures stop.Some? ==> total == Session(replies', stored', Err(stop.value))
      ensures stop.None? ==> Tracks(total, replies', stored', n, next[..4], socket.inbound, codec)
      ensures stop.None? ==> |socket.inbound| + n < |old(socket.inbound)| + read
    {
      ghost var header := buffer[..4];
      ghost var rest := socket.inbound;
      var turn;
      next, turn := ReceiveAndDispatch(socket, buffer, codec);
      if turn.Stop? {
        LoopStops(total, replies, stored, read, header, rest, codec);
        return next, 0, Some(turn.error), replies, stored;
      }
      FramesConcat(replies, OptSeq(turn.action.reply), codec);
      AppendAssociates(sent, Frames(replies, codec), Frames(OptSeq(turn.action.reply), codec));
      AppendAssociates(kept, stored, OptSeq(turn.action.store));
      n := ReadHeader(socket, next);
      LoopContinues(total, replies, stored, read, header, rest, n, next[..4], socket.inbound, codec);
      replies', stored' := replies + OptSeq(turn.action.reply), stored + OptSeq(turn.action.store);
      stop := None;
    }

    /**
     * The rest of one iteration of `handle_client` once the header is in the buffer:
     * grow the buffer to the announced length if need be, `read_exact` the payload,
     * decode it and act on it. Returns the buffer, which may be a new one, and how the
     * iteration ended.
     */
    method ReceiveAndDispatch(socket: Socket, buffer: array<Byte>, codec: Codec)
      returns (next: array<Byte>, turn: Turn)
      requires 4 <= buffer.Length
      modifies this, socket, buffer
      ensures (next == buffer || fresh(next)) && 4 <= next.Length
      ensures turn == TakeTurn(old(buffer[..4]), old(socket.inbound), codec)
      ensures turn.Stop? ==> results == old(results) && socket.outbound == old(socket.outbound)
      ensures turn.Continue? ==>
        && next[..4] == turn.stale
        && socket.inbound == old(socket.inbound)[turn.consumed..]
        && results == old(results) + OptSeq(turn.action.store)
        && socket.outbound == old(socket.outbound) + Frames(OptSeq(turn.action.reply), codec)
    {
      ghost var header := buffer[..4];
      ghost var rest := socket.inbound;
      next := buffer;
      var msgLen := FromBigEndian(buffer[..4]);
      if msgLen > next.Length {
        next := Grow(next, msgLen);
      }
      var ok := socket.ReadExact(next, msgLen);
      if !ok {
        return next, Stop(ShortBody);
      }
      var payload := next[..msgLen];
      assert payload == rest[..msgLen];
      var decoded := codec.decode(payload);
      if decoded.None? {
        return next, Stop(Undecodable);
      }
      assert next[..4] == NextStale(header, payload);
      var action := Dispatch(decoded.value);
      Perform(action, socket, codec);
      turn := Continue(action, msgLen, next[..4]);
    }

    /** Carries out the dispatch of one message: sends its reply, keeps its results. */
    method Perform(action: Action, socket: Socket, codec: Codec)
      modifies this, socket
      ensures results == old(results) + OptSeq(action.store)
      ensures socket.outbound == old(socket.outbound) + Frames(OptSeq(action.reply), codec)
      ensures socket.inbound == old(socket.inbound)
    {
      if action.reply.Some? {
        SendMessage(socket, action.reply.value, codec);
        assert Frames([action.reply.value], codec) == EncodeFrame(codec.encode(action.reply.value)) + [];
      }
      if action.store.Some? {
        results := results + [action.store.value];
      }
    }
  }

  /**
   * `socket.read(&mut buffer[..4])`: up to four bytes of the stream overwrite the front
   * of the header; the rest of the buffer is left as it was.
   */
  method ReadHeader(socket: Socket, buffer: array<Byte>) returns (n: nat)
    requires 4 <= buffer.Length
    modifies socket, buffer
    ensures n == Min(4, |old(socket.inbound)|)
    ensures buffer[..4] == old(socket.inbound)[..n] + old(buffer[..4])[n..]
    ensures buffer[4..] == old(buffer[4..])
    ensures socket.inbound == old(socket.inbound)[n..] && socket.outbound == old(socket.outbound)
  {
    ghost var before := buffer[..];
    n := socket.Read(buffer, 4);
    assert buffer[..4] == buffer[..n] + buffer[n..4];
    assert buffer[n..4] == before[n..4];
  }

  /**
   * What `handle_client` has left to do once a header read has returned `n` bytes, the
   * replies and results so far being `replies` and `stored`: with `n == 0` the session
   * is over and ends normally; otherwise the rest of it is the `Step` from `header` on.
   */
  ghost predicate Tracks(total: Session, replies: seq<Message>, stored: seq<TestResults>,
                         n: nat, header: seq<Byte>, rest: seq<Byte>, codec: Codec)
  {
    && (n != 0 ==> |header| == 4 && total == Prefixed(replies, stored, Step(header, rest, codec)))
    && (n == 0 ==> total == Session(replies, stored, Ok(())))
  }

  /** The specification after the first header read. */
  lemma LoopStarts(total: Session, stream: seq<Byte>, n: nat, codec: Codec)
    requires total == Serve(stream, Zeros, codec)
    requires n == Min(4, |stream|)
    ensures Tracks(total, [], [], n, stream[..n] + Zeros[n..], stream[n..], codec)
  {
    ServeAfterRead(stream, Zeros, n, codec);
    if n != 0 {
      PrefixedNothing(Step(stream[..n] + Zeros[n..], stream[n..], codec));
    }
  }

  lemma PrefixedNothing(x: Session)
    ensures Prefixed([], [], x) == x
  {
    assert [] + x.replies == x.replies && [] + x.stored == x.stored;
  }

  /** The specification when an iteration ends in an error. */
  lemma LoopStops(total: Session, replies: seq<Message>, stored: seq<TestResults>, read: nat,
                  header: seq<Byte>, rest: seq<Byte>, codec: Codec)
    requires |header| == 4 && TakeTurn(header, rest, codec).Stop?
    requires read != 0 && Tracks(total, replies, stored, read, header, rest, codec)
    ensures total == Session(replies, stored, Err(TakeTurn(header, rest, codec).error))
  {
    assert replies + [] == replies && stored + [] == stored;
  }

  /** The specification after an iteration that dispatched a message and read the next header. */
  lemma LoopContinues(total: Session, replies: seq<Message>, stored: seq<TestResults>, read: nat,
                      header: seq<Byte>, rest: seq<Byte>, n: nat,
                      header': seq<Byte>, rest': seq<Byte>, codec: Codec)
    requires |header| == 4 && TakeTurn(header, rest, codec).Continue?
    requires read != 0 && Tracks(total, replies, stored, read, header, rest, codec)
    requires var t := TakeTurn(header, rest, codec);
      && n == Min(4, |rest| - t.consumed)
      && header' == rest[t.consumed..][..n] + t.stale[n..]
      && rest' == rest[t.consumed..][n..]
    ensures var t := TakeTurn(header, rest, codec);
      Tracks(total, replies + OptSeq(t.action.reply), stored + OptSeq(t.action.store), n, header', rest', codec)
  {
    var t := TakeTurn(header, rest, codec);
    var after := Serve(rest[t.consumed..], t.stale, codec);
    assert Step(header, rest, codec) == Prefixed(OptSeq(t.action.reply), OptSeq(t.action.store), after);
    PrefixedTwice(replies, stored, OptSeq(t.action.reply), OptSeq(t.action.store), after);
    ServeAfterRead(rest[t.consumed..], t.stale, n, codec);
    if n == 0 {
      PrefixedTwice(replies + OptSeq(t.action.reply), stored + OptSeq(t.action.store), [], [], after);
    }
  }

  /** The session once the header read has returned `n` bytes. */
  lemma ServeAfterRead(stream: seq<Byte>, stale: seq<Byte>, n: nat, codec: Codec)
    requires |stale| == 4 && n == Min(4, |stream|)
    ensures n != 0 ==> Serve(stream, stale, codec) == Step(stream[..n] + stale[n..], stream[n..], codec)
    ensures n == 0 ==> Serve(stream, stale, codec) == Session([], [], Ok(()))
  {
  }

  /**
   * `buffer.resize(len, 0)` for a longer length: the old contents, then zeros.
   */
  method Grow(a: array<Byte>, len: nat) returns (b: array<Byte>)
    requires a.Length < len
    ensures fresh(b) && b.Length == len
    ensures b[..a.Length] == a[..]
    ensures forall i :: a.Length <= i < len ==> b[i] == 0
  {
    b := new Byte[len](_ => 0);
    for i := 0 to a.Length
      invariant b[..i] == a[..i]
      invariant forall k :: i <= k < len ==> b[k] == 0
    {
      b[i] := a[i];
    }
  }
}
