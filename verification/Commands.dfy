/** The command loop: handlers that work on a stream, proved against the exchanges of a session. */
module Commands {
  import opened Text
  import opened Clocks
  import opened Streams
  import opened Transfer
  import opened Session

  /** What the server has observed on one connection. */
  class ConnStats {
    var downloadBytes: nat
    var downloadNs: nat
    var uploadBytes: nat
    var uploadNs: nat
    var pingCount: nat
    var pingMin: nat
    var pingMax: nat
    var commands: nat

    function Value(): Stats
      reads this
    {
      Stats(downloadBytes, downloadNs, uploadBytes, uploadNs, pingCount, pingMin, pingMax, commands)
    }

    constructor ()
      ensures Value() == NO_STATS
    {
      downloadBytes, downloadNs, uploadBytes, uploadNs := 0, 0, 0, 0;
      pingCount, pingMin, pingMax, commands := 0, NO_PING, 0, 0;
    }

    method AddDownload(bytes: nat, ns: nat)
      modifies this
      ensures Value() == Session.AddDownload(old(Value()), bytes, ns)
    {
      downloadBytes := downloadBytes + bytes;
      downloadNs := downloadNs + ns;
    }

    method AddUpload(bytes: nat, ns: nat)
      modifies this
      ensures Value() == Session.AddUpload(old(Value()), bytes, ns)
    {
      uploadBytes := uploadBytes + bytes;
      uploadNs := uploadNs + ns;
    }

    method AddPing(ns: nat)
      modifies this
      ensures Value() == Session.AddPing(old(Value()), ns)
    {
      pingCount := pingCount + 1;
      if ns < pingMin {
        pingMin := ns;
      }
      if ns > pingMax {
        pingMax := ns;
      }
    }

    method CountCommand()
      modifies this
      ensures Value() == old(Value()).(commands := old(commands) + 1)
    {
      commands := commands + 1;
    }
  }

  // ── Sending chunks ─────────────────────────────────────────────────────────────

  /** Overwrite the last byte of the buffer and send it. */
  method SendChunk(stream: Stream, buf: array<Byte>, ghost filler: Filler, terminal: bool) returns (r: Status)
    requires stream.Valid() && !stream.broken
    requires ValidSize(buf.Length) && buf[..buf.Length - 1] == filler[..buf.Length - 1]
    modifies stream, stream.clock, buf
    ensures stream.Valid() && stream.Advanced() && stream.input == old(stream.input)
    ensures buf[..buf.Length - 1] == filler[..buf.Length - 1]
    ensures var chunk := Chunk(filler, buf.Length, terminal);
            if r.Done? then stream.log == old(stream.log) + [chunk] && !stream.broken && stream.left < old(stream.left)
            else stream.log == old(stream.log) && stream.broken && stream.attempt == chunk && r.error == TransportFailed
    ensures stream.times == old(stream.times) + Once(r.Done?, stream.clock.now) && stream.heard == old(stream.heard)
  {
    buf[buf.Length - 1] := if terminal then TERMINAL else MORE;
    assert buf[..] == Chunk(filler, buf.Length, terminal);
    r := stream.WriteAll(buf[..]);
  }

  /** The send loop of GETCHUNKS; `sent` tells when the chunks were written. */
  method SendChunks(stream: Stream, filler: Filler, size: nat, count: nat) returns (r: Status, ghost sent: seq<nat>)
    requires stream.Valid() && !stream.broken
    requires ValidSize(size) && count > 0
    modifies stream, stream.clock
    ensures stream.Valid() && stream.Advanced() && stream.input == old(stream.input)
    ensures Sent(old(stream.log), Chunks(filler, size, count), stream.log, r.Done?, stream.broken, stream.attempt)
    ensures r.Failed? ==> stream.broken && r.error == TransportFailed
    ensures stream.times == old(stream.times) + sent && stream.heard == old(stream.heard)
    ensures FirstFrom(sent, old(stream.clock.now)) && LastBy(sent, stream.clock.now)
    ensures if r.Done? then |sent| == count else |sent| < count
  {
    hide Chunk, Sent, AllFramed, NotBefore;
    r, sent := Done, [];
    var buf := new Byte[size](i requires 0 <= i < size => filler[i]);
    ghost var planned := Chunks(filler, size, count);
    for i := 1 to count + 1
      invariant stream.Valid() && stream.Advanced() && stream.input == old(stream.input)
      invariant buf[..size - 1] == filler[..size - 1]
      invariant |sent| == i - 1 && r.Done? && !stream.broken
      invariant stream.log == old(stream.log) + planned[..|sent|]
      invariant stream.times == old(stream.times) + sent && stream.heard == old(stream.heard)
      invariant FirstFrom(sent, old(stream.clock.now)) && LastBy(sent, stream.clock.now)
    {
      ghost var times := stream.times;
      r := SendChunk(stream, buf, filler, i == count);
      TimesThen(old(stream.times), sent, times, Once(r.Done?, stream.clock.now), stream.times);
      if r.Failed? {
        assert sent + [] == sent;
        break;
      }
      assert planned[..|sent| + 1] == planned[..|sent|] + [planned[|sent|]];
      sent := sent + [stream.clock.now];
    }
    SentFirst(old(stream.log), planned, |sent|, stream.log, stream.broken, stream.attempt);
  }

  /**
   The send loop of GETTIME: chunks until the time is up, then one terminal chunk. Each chunk has the
   clock reading it started with in `stamps`, the one that could not be written included, and the time
   its write was over in `sent`.
   */
  method SendTimed(stream: Stream, filler: Filler, size: nat, maxNs: nat, start: nat)
    returns (r: Status, bytesSent: nat, ghost count: nat, ghost stamps: seq<nat>, ghost sent: seq<nat>)
    requires stream.Valid() && !stream.broken
    requires ValidSize(size) && start <= stream.clock.now
    modifies stream, stream.clock
    ensures stream.Valid() && stream.Advanced() && stream.input == old(stream.input)
    ensures count > 0
    ensures Sent(old(stream.log), Chunks(filler, size, count), stream.log, r.Done?, stream.broken, stream.attempt)
    ensures r.Failed? ==> stream.broken && r.error == TransportFailed
    ensures stream.times == old(stream.times) + sent && stream.heard == old(stream.heard)
    ensures Paced(start, stamps, sent) && FirstFrom(sent, start) && LastBy(sent, stream.clock.now)
    ensures TimedUntil(stamps, maxNs, |stamps| - 1, |stamps| == count)
    ensures r.Done? ==> |sent| == |stamps| == count && stamps[count - 1] <= stream.clock.now - start
    ensures r.Failed? ==> |sent| == |stamps| - 1 == |stream.log| - |old(stream.log)| && |sent| < count
    ensures r.Done? ==> bytesSent == size * count
  {
    var terminal;
    ghost var out;
    r, terminal, bytesSent, stamps, out, sent := SendUntil(stream, filler, size, maxNs, start);
    count := if terminal then |out| + 1 else |out| + 2;
    StampsBegin(start, stamps, sent);
    TimedPlan(old(stream.log), filler, size, out, count, stream.log, stream.broken, stream.attempt, terminal);
  }

  /** The loop itself; `out` are the chunks before the last one that was tried. */
  method SendUntil(stream: Stream, filler: Filler, size: nat, maxNs: nat, start: nat)
    returns (r: Status, terminal: bool, bytesSent: nat, ghost stamps: seq<nat>, ghost out: seq<Bytes>,
             ghost sent: seq<nat>)
    requires stream.Valid() && !stream.broken
    requires ValidSize(size) && start <= stream.clock.now
    modifies stream, stream.clock
    ensures stream.Valid() && stream.Advanced() && stream.input == old(stream.input)
    ensures (r.Failed? <==> stream.broken) && (r.Failed? ==> r.error == TransportFailed)
    ensures AllMore(filler, size, out)
    ensures if r.Failed? then stream.log == old(stream.log) + out && stream.attempt == Chunk(filler, size, terminal)
            else terminal && stream.log == old(stream.log) + (out + [Chunk(filler, size, true)])
    ensures TimedUntil(stamps, maxNs, |out|, terminal) && stamps[|out|] <= stream.clock.now - start
    ensures stream.times == old(stream.times) + sent && stream.heard == old(stream.heard)
    ensures Paced(start, stamps, sent) && LastBy(sent, stream.clock.now)
    ensures |sent| == if r.Done? then |out| + 1 else |out|
    ensures r.Done? ==> bytesSent == size * (|out| + 1)
  {
    hide OnTime, Paced, TimedUntil, Chunk, AllMore, AllFramed, NotBefore;
    var buf := new Byte[size](i requires 0 <= i < size => filler[i]);
    terminal := false;
    r, bytesSent, stamps, out, sent := Done, 0, [], [], [];
    ghost var n: nat := 0;
    NothingSent(start, maxNs, stream.clock.now, filler, size);
    while true
      invariant stream.Valid() && stream.Advanced() && stream.input == old(stream.input) && !stream.broken
      invariant buf[..size - 1] == filler[..size - 1]
      invariant |out| == |stamps| == |sent| == n && bytesSent == size * n
      invariant stream.log == old(stream.log) + out && AllMore(filler, size, out)
      invariant stream.times == old(stream.times) + sent && stream.heard == old(stream.heard)
      invariant OnTime(start, maxNs, stamps, sent, stream.clock.now)
      decreases stream.left
    {
      ghost var before, times, stamp, chunk := stream.clock.now, stream.times, 0, [];
      r, terminal, stamp, chunk := SendTimedChunk(stream, buf, filler, maxNs, start);
      OnTimeStep(start, maxNs, stamps, sent, before, stamp, terminal, r.Done?, stream.clock.now);
      TimesThen(old(stream.times), sent, times, Once(r.Done?, stream.clock.now), stream.times);
      stamps, sent := stamps + [stamp], sent + Once(r.Done?, stream.clock.now);
      if r.Failed? {
        break;
      }
      Snoc(old(stream.log), out, chunk);
      MulSnoc(size, n);
      bytesSent, n := bytesSent + size, n + 1;
      if terminal {
        break;
      }
      AllMoreSnoc(filler, size, out);
      out := out + [chunk];
    }
  }

  /** All chunks so far started before the time was up, and each was written before the next one started. */
  predicate OnTime(start: nat, maxNs: nat, stamps: seq<nat>, sent: seq<nat>, now: nat) {
    && |stamps| == |sent| && start <= now
    && StillRunning(stamps, maxNs, now - start)
    && Paced(start, stamps, sent) && LastBy(sent, now)
  }

  lemma NothingSent(start: nat, maxNs: nat, now: nat, filler: Filler, size: nat)
    requires ValidSize(size) && start <= now
    ensures OnTime(start, maxNs, [], [], now) && AllMore(filler, size, [])
  {
  }

  /** One more chunk starts, and is written if `done`. */
  lemma OnTimeStep(start: nat, maxNs: nat, stamps: seq<nat>, sent: seq<nat>, before: nat, stamp: nat,
                   terminal: bool, done: bool, now: nat)
    requires OnTime(start, maxNs, stamps, sent, before) && before <= start + stamp <= now
    requires terminal <==> maxNs <= stamp
    ensures var (newStamps, newSent) := (stamps + [stamp], sent + Once(done, now));
            && TimedUntil(newStamps, maxNs, |stamps|, terminal)
            && Paced(start, newStamps, newSent) && LastBy(newSent, now)
            && (done && !terminal ==> OnTime(start, maxNs, newStamps, newSent, now))
  {
    hide Paced;
    StillRunningSnoc(stamps, maxNs, before - start, stamp);
    PacedSnoc(start, stamps, sent, before, stamp, now);
    assert sent + [] == sent;
  }

  /** Only chunks that are not terminal. */
  predicate AllMore(filler: Filler, size: nat, out: seq<Bytes>)
    requires ValidSize(size)
  {
    forall i :: 0 <= i < |out| ==> out[i] == Chunk(filler, size, false)
  }

  lemma AllMoreSnoc(filler: Filler, size: nat, out: seq<Bytes>)
    requires ValidSize(size) && AllMore(filler, size, out)
    ensures AllMore(filler, size, out + [Chunk(filler, size, false)])
  {
  }

  lemma Snoc(a: seq<Bytes>, b: seq<Bytes>, w: Bytes)
    ensures (a + b) + [w] == a + (b + [w])
  {
  }

  /** Chunks that are not terminal, then one that is, or a failure: in any case the start of a download. */
  lemma TimedPlan(before: seq<Bytes>, filler: Filler, size: nat, out: seq<Bytes>, count: nat, log: seq<Bytes>,
                  broken: bool, attempt: Bytes, terminal: bool)
    requires count == if terminal then |out| + 1 else |out| + 2
    requires ValidSize(size) && AllMore(filler, size, out)
    requires if broken then log == before + out && attempt == Chunk(filler, size, terminal)
             else terminal && log == before + (out + [Chunk(filler, size, true)])
    ensures Sent(before, Chunks(filler, size, count), log, !broken, broken, attempt)
  {
    var planned := Chunks(filler, size, count);
    if broken {
      assert planned[..|out|] == out;
      assert planned[|out|] == Chunk(filler, size, terminal);
      SentFirst(before, planned, |out|, log, broken, attempt);
    } else {
      assert planned[..count] == planned == out + [Chunk(filler, size, true)];
      SentFirst(before, planned, count, log, broken, attempt);
    }
  }

  /** One turn of the loop: read the clock, then send the chunk that belongs to the reading. */
  method SendTimedChunk(stream: Stream, buf: array<Byte>, ghost filler: Filler, maxNs: nat, start: nat)
    returns (r: Status, terminal: bool, ghost elapsed: nat, ghost chunk: Bytes)
    requires stream.Valid() && !stream.broken && start <= stream.clock.now
    requires ValidSize(buf.Length) && buf[..buf.Length - 1] == filler[..buf.Length - 1]
    modifies stream, stream.clock, buf
    ensures stream.Valid() && stream.Advanced() && stream.input == old(stream.input)
    ensures buf[..buf.Length - 1] == filler[..buf.Length - 1]
    ensures old(stream.clock.now) <= start + elapsed <= stream.clock.now && (terminal <==> maxNs <= elapsed)
    ensures chunk == Chunk(filler, buf.Length, terminal)
    ensures stream.times == old(stream.times) + Once(r.Done?, stream.clock.now) && stream.heard == old(stream.heard)
    ensures if r.Done? then stream.log == old(stream.log) + [chunk] && !stream.broken && stream.left < old(stream.left)
            else stream.log == old(stream.log) && stream.broken && stream.attempt == chunk && r.error == TransportFailed
  {
    var now := stream.clock.Instant();
    elapsed := now - start;
    terminal := now - start >= maxNs;
    chunk := Chunk(filler, buf.Length, terminal);
    r := SendChunk(stream, buf, filler, terminal);
  }

  /** `write_line`. */
  method WriteLine(stream: Stream, line: Bytes) returns (r: Status)
    requires stream.Valid() && !stream.broken
    modifies stream, stream.clock
    ensures stream.Valid() && stream.Advanced() && stream.input == old(stream.input)
    ensures Sent(old(stream.log), [line], stream.log, r.Done?, stream.broken, stream.attempt)
    ensures (r.Failed? <==> stream.broken) && (r.Failed? ==> r.error == TransportFailed)
    ensures r.Failed? ==> stream.log == old(stream.log)
    ensures stream.times == old(stream.times) + Once(r.Done?, stream.clock.now) && stream.heard == old(stream.heard)
  {
    r := stream.WriteAll(line);
    SentOne(old(stream.log), line, stream.log, r.Done?, stream.broken, stream.attempt);
  }

  // ── GETTIME and GETCHUNKS ──────────────────────────────────────────────────────

  /** Read the client's acknowledgement. */
  method ReadAck(stream: Stream) returns (r: Status, acknowledged: bool)
    requires stream.Valid()
    modifies stream`input, stream`heard, stream.clock
    ensures stream.Valid() && stream.Advanced()
    ensures if r.Done? then AckRead(old(stream.input), acknowledged, stream.input)
            else CutAck(old(stream.input), None, false, r.error)
    ensures stream.heard == old(stream.heard) + [stream.clock.now]
  {
    var ack;
    r, ack := stream.ReadLine();
    acknowledged := r.Done? && Trim(ack) == "OK";
  }

  /** Report the time since `start`. */
  method ReportTime(stream: Stream, start: nat) returns (r: Status, ghost ns: nat)
    requires stream.Valid() && !stream.broken && start <= stream.clock.now
    modifies stream, stream.clock
    ensures stream.Valid() && stream.Advanced() && stream.input == old(stream.input)
    ensures Sent(old(stream.log), [TimeLine(ns)], stream.log, r.Done?, stream.broken, stream.attempt)
    ensures old(stream.clock.now) <= start + ns <= stream.clock.now
    ensures (r.Failed? <==> stream.broken)
            && (r.Failed? ==> r.error == TransportFailed && stream.log == old(stream.log))
    ensures stream.times == old(stream.times) + Once(r.Done?, stream.clock.now) && stream.heard == old(stream.heard)
  {
    var now := stream.clock.Instant();
    ns := now - start;
    r := WriteLine(stream, TimeLine(now - start));
  }

  /** Wait for the client's OK, heard at the time `at`, then report the time since `start`. */
  method AwaitAck(stream: Stream, start: nat)
    returns (r: Status, ghost answer: Option<nat>, ghost line: Bytes, ghost at: nat)
    requires stream.Valid() && !stream.broken && start <= stream.clock.now
    modifies stream, stream.clock
    ensures stream.Valid() && stream.Advanced()
    ensures line == Final(answer) && Sent(old(stream.log), [line], stream.log, r.Done?, stream.broken, stream.attempt)
    ensures r.Done? ==> Acknowledges(old(stream.input), answer, stream.input)
    ensures stream.times == old(stream.times) + Once(r.Done?, stream.clock.now)
            && stream.heard == old(stream.heard) + [at]
    ensures old(stream.clock.now) <= at <= stream.clock.now
    ensures answer.Some? ==> at <= start + answer.value <= stream.clock.now
    ensures r.Failed? ==> stream.log == old(stream.log) && CutAck(old(stream.input), answer, stream.broken, r.error)
  {
    hide AckRead, CutAck, Acknowledges, Sent;
    answer, line := None, ERR;
    var acknowledged;
    r, acknowledged := ReadAck(stream);
    at := stream.clock.now;
    if r.Failed? {
      SentNothing(old(stream.log), [line], stream.attempt);
      assert stream.times + [] == stream.times;
    } else {
      if !acknowledged {
        r := WriteLine(stream, ERR);
      } else {
        ghost var ns;
        r, ns := ReportTime(stream, start);
        answer, line := Some(ns), TimeLine(ns);
      }
      AckAnswered(old(stream.input), acknowledged, stream.input, answer, TransportFailed);
    }
  }

  /** After the send loop: account the transfer, wait for the acknowledgement, report. */
  method FinishDownload(stream: Stream, start: nat, bytesSent: nat, stats: ConnStats)
    returns (r: Status, ghost sendNs: nat, ghost answer: Option<nat>, ghost line: Bytes, ghost at: nat)
    requires stream.Valid() && !stream.broken && start <= stream.clock.now
    modifies stream, stream.clock, stats
    ensures stream.Valid() && stream.Advanced()
    ensures line == Final(answer) && Sent(old(stream.log), [line], stream.log, r.Done?, stream.broken, stream.attempt)
    ensures r.Done? ==> Acknowledges(old(stream.input), answer, stream.input)
    ensures stream.times == old(stream.times) + Once(r.Done?, stream.clock.now)
            && stream.heard == old(stream.heard) + [at]
    ensures old(stream.clock.now) <= start + sendNs <= at <= stream.clock.now
    ensures answer.Some? ==> at <= start + answer.value <= stream.clock.now
    ensures r.Failed? ==> stream.log == old(stream.log) && CutAck(old(stream.input), answer, stream.broken, r.error)
    ensures stats.Value() == Session.AddDownload(old(stats.Value()), bytesSent, sendNs)
  {
    hide TakeLine, CutAck, Acknowledges, Sent;
    // Server-side throughput: the time of sending, before the acknowledgement.
    var now := stream.clock.Instant();
    sendNs := now - start;
    stats.AddDownload(bytesSent, now - start);
    r, answer, line, at := AwaitAck(stream, start);
  }

  /** A timed download as an exchange. */
  method AnswerTimed(stream: Stream, filler: Filler, size: nat, maxNs: nat, stats: ConnStats)
    returns (r: Status, ghost x: Exchange, ghost plan: seq<Bytes>, ghost transferred: bool, ghost c: Clocking)
    requires stream.Valid() && !stream.broken && ValidSize(size)
    modifies stream, stream.clock, stats
    ensures stream.Valid() && stream.Advanced()
    ensures x.Downloaded? && x.size == size && WellFormed(x) && IsTest(x)
    ensures plan == Reply(filler, x) && Sent(old(stream.log), plan, stream.log, r.Done?, stream.broken, stream.attempt)
    ensures CutTimed(x, maxNs, transferred, |stream.log| - |old(stream.log)|)
    ensures r.Done? ==> transferred && Acknowledges(old(stream.input), x.answer, stream.input)
    ensures r.Failed? ==>
              CutDownload(old(stream.input), x.count, x.answer, transferred, |stream.log| - |old(stream.log)|,
                          stream.broken, r.error)
    ensures stream.During(c) && Clocked(x, c) && (r.Done? ==> |c.heard| == ReadsOf(x))
    ensures stats.Value() == if transferred then AddTransfer(old(stats.Value()), x) else old(stats.Value())
  {
    hide CutTimed, TimedUntil, Acknowledges, CutDownload, ClockedDownload, Sent, AllFramed, NotBefore, Chunks;
    ghost var count, stamps, sendNs, answer, line;
    r, count, stamps, sendNs, answer, line, transferred, c := DownloadTimed(stream, filler, size, maxNs, stats);
    x, plan := Downloaded(size, count, stamps, sendNs, answer), Chunks(filler, size, count) + [line];
    ChunksTimed(x, maxNs, transferred, |stream.log| - |old(stream.log)|);
    DownloadedExchange(filler, size, count, stamps, sendNs, answer, old(stats.Value()));
  }

  /** `GETTIME <seconds> [chunksize]`. */
  method HandleGetTime(stream: Stream, filler: Filler, argSecs: Bytes, argChunk: Bytes, size: nat, stats: ConnStats)
    returns (r: Status, newSize: nat, ghost x: Exchange, ghost plan: seq<Bytes>, ghost transferred: bool,
             ghost c: Clocking)
    requires stream.Valid() && !stream.broken && ValidSize(size)
    modifies stream, stream.clock, stats
    ensures stream.Valid() && stream.Advanced() && ValidSize(newSize)
    ensures WellFormed(x) && IsTest(x)
    ensures plan == Reply(filler, x) && Sent(old(stream.log), plan, stream.log, r.Done?, stream.broken, stream.attempt)
    ensures Handled(Point(size, old(stream.input)), GetTime(argSecs, argChunk), Point(newSize, stream.input),
                    x, transferred, r, |stream.log| - |old(stream.log)|, stream.broken)
    ensures stream.During(c) && Clocked(x, c) && (r.Done? ==> |c.heard| == ReadsOf(x))
    ensures stats.Value() == if transferred then AddTransfer(old(stats.Value()), x) else old(stats.Value())
  {
    hide Handled, CutDownload, CutTimed, Acknowledges, Clocked, Sent, ParsePositive, ParseChunkSize, AllFramed,
      NotBefore;
    ghost var p := Point(size, stream.input);
    newSize := size;
    var negotiated := Negotiate(argChunk, size);
    if negotiated.None? {
      r, x, plan, transferred, c := Refuse(stream, filler, p, GetTime(argSecs, argChunk), newSize);
    } else {
      newSize := negotiated.value;
      var seconds := ParsePositive(argSecs, MAX_SECONDS);
      if seconds.None? {
        r, x, plan, transferred, c := Refuse(stream, filler, p, GetTime(argSecs, argChunk), newSize);
      } else {
        r, x, plan, transferred, c := AnswerTimed(stream, filler, newSize, seconds.value * NANOS, stats);
        HandledGetTime(p, argSecs, argChunk, seconds.value, x, Point(newSize, stream.input),
                       transferred, r, |stream.log| - |old(stream.log)|, stream.broken);
      }
    }
  }

  /** Answer ERR to a command with an impossible argument. */
  method Refuse(stream: Stream, filler: Filler, ghost p: Point, ghost request: Request, ghost newSize: nat)
    returns (r: Status, ghost x: Exchange, ghost plan: seq<Bytes>, ghost transferred: bool, ghost c: Clocking)
    requires stream.Valid() && !stream.broken && stream.input == p.input && TurnsDown(p, request, newSize)
    modifies stream, stream.clock
    ensures stream.Valid() && stream.Advanced() && stream.input == p.input
    ensures x == Refused(true) && transferred
    ensures plan == Reply(filler, x) && Sent(old(stream.log), plan, stream.log, r.Done?, stream.broken, stream.attempt)
    ensures Handled(p, request, Point(newSize, p.input), x, transferred, r, |stream.log| - |old(stream.log)|,
                    stream.broken)
    ensures stream.During(c) && Clocked(x, c) && c.heard == []
  {
    hide Sent, TurnsDown;
    x, plan, transferred := Refused(true), [ERR], true;
    r := WriteLine(stream, ERR);
    HandledRefusal(p, request, newSize, r, |stream.log| - |old(stream.log)|, stream.broken);
    c := Clocking(old(stream.clock.now), stream.clock.now, Once(r.Done?, stream.clock.now), [], stream.clock.now);
    assert stream.heard + [] == stream.heard;
  }

  method DownloadTimed(stream: Stream, filler: Filler, size: nat, maxNs: nat, stats: ConnStats)
    returns (r: Status, ghost count: nat, ghost stamps: seq<nat>, ghost sendNs: nat, ghost answer: Option<nat>,
             ghost line: Bytes, ghost transferred: bool, ghost c: Clocking)
    requires stream.Valid() && !stream.broken && ValidSize(size)
    modifies stream, stream.clock, stats
    ensures stats.Value() == if transferred then Session.AddDownload(old(stats.Value()), size * count, sendNs)
                             else old(stats.Value())
    ensures stream.Valid() && stream.Advanced()
    ensures count > 0 && line == Final(answer) && (answer.Some? ==> sendNs <= answer.value)
    ensures Sent(old(stream.log), Chunks(filler, size, count) + [line], stream.log, r.Done?, stream.broken,
                 stream.attempt)
    ensures TimedUntil(stamps, maxNs, |stamps| - 1, |stamps| == count)
    ensures if transferred then |stamps| == count && stamps[count - 1] <= sendNs
            else |stamps| == |stream.log| - |old(stream.log)| + 1
    ensures r.Done? ==> transferred && Acknowledges(old(stream.input), answer, stream.input)
    ensures r.Failed? ==>
              CutDownload(old(stream.input), count, answer, transferred, |stream.log| - |old(stream.log)|,
                          stream.broken, r.error)
    ensures r.Done? ==> |c.heard| == 1
    ensures stream.During(c) && c.begin <= c.start <= c.end && ClockedDownload(count, stamps, sendNs, answer, c)
  {
    hide CutAck, Acknowledges, TakeLine, TimedUntil, Paced, ClockedDownload, AllFramed, NotBefore, Sent, Chunks,
      FirstFrom;
    var start := stream.clock.Instant();
    var bytesSent;
    ghost var sent;
    r, bytesSent, count, stamps, sent := SendTimed(stream, filler, size, maxNs, start);
    sendNs, answer, line, transferred := 0, None, ERR, r.Done?;
    if r.Failed? {
      SentMore(old(stream.log), Chunks(filler, size, count), [ERR], stream.log, stream.broken, stream.attempt);
      c := CutDownloadClocked(count, stamps, old(stream.clock.now), start, sent, stream.clock.now);
      assert stream.heard + [] == stream.heard;
    } else {
      ghost var log, times, at := stream.log, stream.times, 0;
      SentAll(old(stream.log), Chunks(filler, size, count), log, stream.broken, stream.attempt);
      r, sendNs, answer, line, at := FinishDownload(stream, start, bytesSent, stats);
      SentThen(old(stream.log), Chunks(filler, size, count), log, [line], stream.log, r.Done?, stream.broken,
               stream.attempt);
      TimesThen(old(stream.times), sent, times, Once(r.Done?, stream.clock.now), stream.times);
      c := DownloadClocked(count, stamps, sendNs, answer, old(stream.clock.now), start, sent, at, r.Done?,
                           stream.clock.now);
    }
  }

  lemma ChunksTimed(x: Exchange, maxNs: nat, transferred: bool, n: int)
    requires x.Downloaded? && x.count > 0 && TimedUntil(x.stamps, maxNs, |x.stamps| - 1, |x.stamps| == x.count)
    requires if transferred then |x.stamps| == x.count && x.stamps[x.count - 1] <= x.sendNs else n == |x.stamps| - 1
    ensures CutTimed(x, maxNs, transferred, n)
  {
    hide StillRunning;
  }

  lemma StampsBegin(start: nat, stamps: seq<nat>, sent: seq<nat>)
    requires Paced(start, stamps, sent) && stamps != []
    ensures FirstFrom(sent, start)
  {
  }

  /** The clock over a whole download. */
  lemma DownloadClocked(count: nat, stamps: seq<nat>, sendNs: nat, answer: Option<nat>, begin: nat, start: nat,
                        sent: seq<nat>, at: nat, done: bool, end: nat) returns (c: Clocking)
    requires |sent| == count && |stamps| <= count && Paced(start, stamps, sent) && FirstFrom(sent, start)
    requires begin <= start && LastBy(sent, start + sendNs) && start + sendNs <= at <= end
    requires answer.Some? ==> at <= start + answer.value <= end
    ensures c == Clocking(begin, start, sent + Once(done, end), [at], end)
    ensures ClockedDownload(count, stamps, sendNs, answer, c)
  {
    c := Clocking(begin, start, sent + Once(done, end), [at], end);
    PacedMore(start, stamps, sent, Once(done, end));
  }

  /** The clock over a download that a chunk broke off. */
  lemma CutDownloadClocked(count: nat, stamps: seq<nat>, begin: nat, start: nat, sent: seq<nat>, end: nat)
    returns (c: Clocking)
    requires |sent| < count && Paced(start, stamps, sent) && FirstFrom(sent, start) && begin <= start <= end
    ensures c == Clocking(begin, start, sent, [], end) && ClockedDownload(count, stamps, 0, None, c)
  {
    c := Clocking(begin, start, sent, [], end);
  }

  /** A counted download as an exchange. */
  method AnswerCounted(stream: Stream, filler: Filler, size: nat, count: nat, stats: ConnStats)
    returns (r: Status, ghost x: Exchange, ghost plan: seq<Bytes>, ghost transferred: bool, ghost c: Clocking)
    requires stream.Valid() && !stream.broken && ValidSize(size) && count > 0
    modifies stream, stream.clock, stats
    ensures stream.Valid() && stream.Advanced()
    ensures x.Downloaded? && x.size == size && x.count == count && WellFormed(x) && IsTest(x)
    ensures plan == Reply(filler, x) && Sent(old(stream.log), plan, stream.log, r.Done?, stream.broken, stream.attempt)
    ensures r.Done? ==> transferred && Acknowledges(old(stream.input), x.answer, stream.input)
    ensures r.Failed? ==>
              CutDownload(old(stream.input), x.count, x.answer, transferred, |stream.log| - |old(stream.log)|,
                          stream.broken, r.error)
    ensures stream.During(c) && Clocked(x, c) && (r.Done? ==> |c.heard| == ReadsOf(x))
    ensures stats.Value() == if transferred then AddTransfer(old(stats.Value()), x) else old(stats.Value())
  {
    hide Acknowledges, CutDownload, ClockedDownload, Sent;
    ghost var sendNs, answer, line;
    r, sendNs, answer, line, transferred, c := DownloadCounted(stream, filler, size, count, stats);
    x, plan := Downloaded(size, count, [], sendNs, answer), Chunks(filler, size, count) + [line];
    DownloadedExchange(filler, size, count, [], sendNs, answer, old(stats.Value()));
  }

  /** `GETCHUNKS <count> [chunksize]`. */
  method HandleGetChunks(stream: Stream, filler: Filler, argCount: Bytes, argChunk: Bytes, size: nat, stats: ConnStats)
    returns (r: Status, newSize: nat, ghost x: Exchange, ghost plan: seq<Bytes>, ghost transferred: bool,
             ghost c: Clocking)
    requires stream.Valid() && !stream.broken && ValidSize(size)
    modifies stream, stream.clock, stats
    ensures stream.Valid() && stream.Advanced() && ValidSize(newSize)
    ensures WellFormed(x) && IsTest(x)
    ensures plan == Reply(filler, x) && Sent(old(stream.log), plan, stream.log, r.Done?, stream.broken, stream.attempt)
    ensures Handled(Point(size, old(stream.input)), GetChunks(argCount, argChunk), Point(newSize, stream.input),
                    x, transferred, r, |stream.log| - |old(stream.log)|, stream.broken)
    ensures stream.During(c) && Clocked(x, c) && (r.Done? ==> |c.heard| == ReadsOf(x))
    ensures stats.Value() == if transferred then AddTransfer(old(stats.Value()), x) else old(stats.Value())
  {
    hide Handled, CutDownload, Acknowledges, Clocked, Sent, ParsePositive, ParseChunkSize, AllFramed, NotBefore;
    ghost var p := Point(size, stream.input);
    newSize := size;
    var negotiated := Negotiate(argChunk, size);
    if negotiated.None? {
      r, x, plan, transferred, c := Refuse(stream, filler, p, GetChunks(argCount, argChunk), newSize);
    } else {
      newSize := negotiated.value;
      var count := ParsePositive(argCount, MAX_CHUNKS);
      if count.None? {
        r, x, plan, transferred, c := Refuse(stream, filler, p, GetChunks(argCount, argChunk), newSize);
      } else {
        r, x, plan, transferred, c := AnswerCounted(stream, filler, newSize, count.value, stats);
        HandledGetChunks(p, argCount, argChunk, x, Point(newSize, stream.input),
                         transferred, r, |stream.log| - |old(stream.log)|, stream.broken);
      }
    }
  }

  method DownloadCounted(stream: Stream, filler: Filler, size: nat, count: nat, stats: ConnStats)
    returns (r: Status, ghost sendNs: nat, ghost answer: Option<nat>, ghost line: Bytes, ghost transferred: bool,
             ghost c: Clocking)
    requires stream.Valid() && !stream.broken && ValidSize(size) && count > 0
    modifies stream, stream.clock, stats
    ensures stats.Value() == if transferred then Session.AddDownload(old(stats.Value()), size * count, sendNs)
                             else old(stats.Value())
    ensures stream.Valid() && stream.Advanced()
    ensures line == Final(answer) && (answer.Some? ==> sendNs <= answer.value)
    ensures Sent(old(stream.log), Chunks(filler, size, count) + [line], stream.log, r.Done?, stream.broken,
                 stream.attempt)
    ensures r.Done? ==> transferred && Acknowledges(old(stream.input), answer, stream.input)
    ensures r.Failed? ==>
              CutDownload(old(stream.input), count, answer, transferred, |stream.log| - |old(stream.log)|,
                          stream.broken, r.error)
    ensures r.Done? ==> |c.heard| == 1
    ensures stream.During(c) && c.begin <= c.start <= c.end && ClockedDownload(count, [], sendNs, answer, c)
  {
    hide CutAck, Acknowledges, TakeLine, ClockedDownload, AllFramed, NotBefore, Sent, Chunks, FirstFrom;
    MulSwap(count, size);
    var start := stream.clock.Instant();
    ghost var sent;
    r, sent := SendChunks(stream, filler, size, count);
    sendNs, answer, line, transferred := 0, None, ERR, r.Done?;
    if r.Failed? {
      SentMore(old(stream.log), Chunks(filler, size, count), [ERR], stream.log, stream.broken, stream.attempt);
      c := CutDownloadClocked(count, [], old(stream.clock.now), start, sent, stream.clock.now);
      assert stream.heard + [] == stream.heard;
    } else {
      ghost var log, times, at := stream.log, stream.times, 0;
      SentAll(old(stream.log), Chunks(filler, size, count), log, stream.broken, stream.attempt);
      r, sendNs, answer, line, at := FinishDownload(stream, start, count * size, stats);
      SentThen(old(stream.log), Chunks(filler, size, count), log, [line], stream.log, r.Done?, stream.broken,
               stream.attempt);
      TimesThen(old(stream.times), sent, times, Once(r.Done?, stream.clock.now), stream.times);
      c := DownloadClocked(count, [], sendNs, answer, old(stream.clock.now), start, sent, at, r.Done?,
                           stream.clock.now);
    }
  }

  // ── PUT and PUTNORESULT ────────────────────────────────────────────────────────

  /** `i128::MIN`: no report yet. */
  const NEVER: int := -0x8000_0000_0000_0000_0000_0000_0000_0000

  /** The variable that remembers when the last report was sent. */
  predicate LastReport(rs: seq<Report>, last: int) {
    last == if rs == [] then NEVER else rs[|rs| - 1].ns
  }

  predicate Due(last: int, elapsed: nat) {
    last < 0 || elapsed - last >= REPORT_INTERVAL
  }

  lemma ReportsSnoc(stamps: seq<nat>, size: nat, elapsed: nat, last: int, out: seq<Bytes>)
    requires LastReport(Reports(stamps, size), last)
    requires out == if Due(last, elapsed) then [ReportLine(Report(elapsed, size * (|stamps| + 1)))] else []
    ensures LastReport(Reports(stamps + [elapsed], size), if Due(last, elapsed) then elapsed else last)
    ensures Progress(true, stamps + [elapsed], size) == Progress(true, stamps, size) + out
  {
    assert (stamps + [elapsed])[..|stamps|] == stamps;
    var rs := Reports(stamps, size);
    if Due(last, elapsed) {
      assert ReportLines(rs + [Report(elapsed, size * (|stamps| + 1))]) == ReportLines(rs) + out;
    }
  }

  /**
   Report the progress if none was reported in the last millisecond. The difference of the two times
   is computed only when a report was sent before, so `i128::MIN` is never subtracted.
   */
  method ReportProgress(stream: Stream, elapsed: nat, totalBytes: nat, lastReportNs: int)
    returns (r: Status, newLast: int, ghost out: seq<Bytes>, ghost sent: seq<nat>)
    requires stream.Valid() && !stream.broken
    requires lastReportNs == NEVER || 0 <= lastReportNs <= elapsed
    modifies stream, stream.clock
    ensures stream.Valid() && stream.Advanced() && stream.input == old(stream.input)
    ensures out == if Due(lastReportNs, elapsed) then [ReportLine(Report(elapsed, totalBytes))] else []
    ensures newLast == if Due(lastReportNs, elapsed) then elapsed else lastReportNs
    ensures Sent(old(stream.log), out, stream.log, r.Done?, stream.broken, stream.attempt)
    ensures (r.Failed? <==> stream.broken) && (r.Failed? ==> r.error == TransportFailed)
    ensures r.Failed? ==> |out| == 1 && stream.log == old(stream.log)
    ensures stream.times == old(stream.times) + sent && stream.heard == old(stream.heard)
  {
    r, newLast, out, sent := Done, lastReportNs, [], [];
    assert stream.times + [] == stream.times;
    if lastReportNs < 0 || elapsed - lastReportNs >= 1_000_000 {
      newLast := elapsed;
      var line := ReportLine(Report(elapsed, totalBytes));
      out := [line];
      r := WriteLine(stream, line);
      sent := Once(r.Done?, stream.clock.now);
    }
  }

  /** The report after a chunk, if it is due. */
  method ReportChunk(stream: Stream, start: nat, size: nat, totalBytes: nat, last: int, ghost stamps: seq<nat>)
    returns (r: Status, newLast: int, ghost elapsed: nat, ghost out: seq<Bytes>, ghost sent: seq<nat>)
    requires stream.Valid() && !stream.broken && start <= stream.clock.now
    requires LastReport(Reports(stamps, size), last) && Past(stamps, stream.clock.now - start)
    requires totalBytes == size * (|stamps| + 1)
    modifies stream, stream.clock
    ensures stream.Valid() && stream.Advanced() && stream.input == old(stream.input)
    ensures old(stream.clock.now) <= start + elapsed
    ensures LastReport(Reports(stamps + [elapsed], size), newLast)
    ensures Past(stamps + [elapsed], stream.clock.now - start)
    ensures Progress(true, stamps + [elapsed], size) == Progress(true, stamps, size) + out
    ensures Sent(old(stream.log), out, stream.log, r.Done?, stream.broken, stream.attempt)
    ensures (r.Failed? <==> stream.broken) && (r.Failed? ==> r.error == TransportFailed)
    ensures r.Failed? ==> |out| == 1 && stream.log == old(stream.log)
    ensures stream.times == old(stream.times) + sent && stream.heard == old(stream.heard)
  {
    var now := stream.clock.Instant();
    elapsed := now - start;
    LastIsPast(stamps, size, last, elapsed);
    r, newLast, out, sent := ReportProgress(stream, now - start, totalBytes, last);
    ReportsSnoc(stamps, size, elapsed, last, out);
    PastSnoc(stamps, elapsed);
  }

  lemma ReceiveStep(start: Input, input: Input, size: nat, chunks: seq<Bytes>, data: Bytes, rest: Input)
    requires size > 0 && Receive(start, size) == Prepend(chunks, Receive(input, size))
    requires TakeExact(input, size) == Got(data, rest)
    ensures Receive(start, size) == if IsTerminal(data) then Complete(chunks + [data], rest)
                                    else Prepend(chunks + [data], Receive(rest, size))
  {
    ReceiveGot(input, size, data, rest);
    if !IsTerminal(data) {
      PrependTwice(chunks, [data], Receive(rest, size));
    }
  }

  lemma PastSnoc(stamps: seq<nat>, now: nat)
    requires Past(stamps, now)
    ensures Past(stamps + [now], now)
  {
  }

  /** What the receive loop knows after `n` chunks, with `lines` written so far. */
  predicate Told(reports: bool, stamps: seq<nat>, size: nat, n: nat, last: int, lines: seq<Bytes>) {
    && lines == Progress(reports, stamps, size)
    && if reports then |stamps| == n && LastReport(Reports(stamps, size), last) else stamps == []
  }

  /**
   One turn of the loop: a chunk is read, counted and, if wanted, reported. The chunks before it were
   read at the times `heard`.
   */
  method ReceiveTurn(stream: Stream, buf: array<Byte>, start: nat, reports: bool, before: nat, last: int,
                     ghost n: nat, ghost stamps: seq<nat>, ghost lines: seq<Bytes>, ghost heard: seq<nat>)
    returns (r: Status, terminal: bool, totalBytes: nat, newLast: int,
             ghost data: Bytes, ghost newStamps: seq<nat>, ghost out: seq<Bytes>, ghost sent: seq<nat>, ghost at: nat)
    requires stream.Valid() && !stream.broken && start <= stream.clock.now && buf.Length > 0
    requires Past(stamps, stream.clock.now - start) && Stamped(start, stamps, heard) && |heard| == n
    requires before == buf.Length * n && Told(reports, stamps, buf.Length, n, last, lines)
    modifies stream, stream.clock, buf
    ensures stream.Valid() && stream.Advanced()
    ensures r.Done? ==> TakeExact(old(stream.input), buf.Length) == Got(data, stream.input)
    ensures r.Done? ==> (terminal <==> IsTerminal(data)) && totalBytes == before + buf.Length
    ensures Sent(old(stream.log), out, stream.log, r.Done?, stream.broken, stream.attempt)
    ensures r.Failed? ==> stream.log == old(stream.log)
    ensures r.Failed? ==>
              if stream.broken then
                && r.error == TransportFailed && TakeExact(old(stream.input), buf.Length).Got?
                && reports && |out| == 1 && |newStamps| == n + 1
              else TakeExact(old(stream.input), buf.Length) == Failure(r.error) && out == [] && newStamps == stamps
    ensures lines + out == Progress(reports, newStamps, buf.Length) && (!reports ==> newStamps == [])
    ensures r.Done? ==> Told(reports, newStamps, buf.Length, n + 1, newLast, lines + out)
    ensures stream.times == old(stream.times) + sent && stream.heard == old(stream.heard) + [at]
    ensures old(stream.clock.now) <= at && Past(newStamps, stream.clock.now - start)
    ensures Stamped(start, newStamps, heard + [at])
  {
    hide Stamped, Past, LastReport, Reports, Progress, Sent, AllFramed, NotBefore;
    terminal, totalBytes, newLast, newStamps, out, sent := false, before, last, stamps, [], [];
    r := stream.ReadExact(buf);
    data, at := buf[..], stream.clock.now;
    StampedHeard(start, stamps, heard, old(stream.clock.now), at);
    PastLater(stamps, old(stream.clock.now) - start, at - start);
    SentAtOnce(stream.log, stream.attempt, r.Done?);
    assert lines + [] == lines && stream.times + [] == stream.times;
    if r.Done? {
      totalBytes := before + buf.Length;
      terminal := buf[buf.Length - 1] == TERMINAL;
      if reports {
        ghost var elapsed;
        MulSnoc(buf.Length, n);
        r, newLast, elapsed, out, sent := ReportChunk(stream, start, buf.Length, totalBytes, last, stamps);
        newStamps := stamps + [elapsed];
        StampedSnoc(start, stamps, heard, at, elapsed);
      }
    }
  }

  lemma PastLater(stamps: seq<nat>, before: int, now: int)
    requires Past(stamps, before) && before <= now
    ensures Past(stamps, now)
  {
  }

  /** Nothing was to be written. */
  lemma SentAtOnce(log: seq<Bytes>, attempt: Bytes, done: bool)
    ensures Sent(log, [], log, done, false, attempt)
  {
  }

  /** `chunks` have been received since `start`, and the rest is still to come from `input`. */
  predicate Pending(start: Input, size: nat, chunks: seq<Bytes>, input: Input)
    requires size > 0
  {
    Receive(start, size) == Prepend(chunks, Receive(input, size))
  }

  lemma BreaksOff(start: Input, input: Input, size: nat, chunks: seq<Bytes>, reports: bool, stamps: seq<nat>,
                  missing: int, broken: bool, error: Error)
    requires size > 0 && Pending(start, size, chunks, input)
    requires if broken then
               && error == TransportFailed && TakeExact(input, size).Got?
               && reports && missing == 1 && |stamps| == |chunks| + 1
             else TakeExact(input, size) == Failure(error) && missing == 0 && (reports ==> |stamps| == |chunks|)
    ensures BrokeOff(start, size, reports, stamps, missing, broken, error)
  {
    if broken {
      ReceiveGot(input, size, TakeExact(input, size).data, TakeExact(input, size).rest);
    }
  }

  /** The turn seen from the start of the loop, at `log` and `input`. */
  method ReceiveNext(stream: Stream, buf: array<Byte>, start: nat, reports: bool, before: nat, last: int,
                     ghost log: seq<Bytes>, ghost input: Input, ghost n: nat, ghost chunks: seq<Bytes>,
                     ghost stamps: seq<nat>, ghost lines: seq<Bytes>, ghost heard: seq<nat>)
    returns (r: Status, terminal: bool, totalBytes: nat, newLast: int, ghost newChunks: seq<Bytes>,
             ghost newStamps: seq<nat>, ghost newLines: seq<Bytes>, ghost sent: seq<nat>, ghost at: nat)
    requires stream.Valid() && !stream.broken && start <= stream.clock.now && buf.Length > 0
    requires Past(stamps, stream.clock.now - start) && Stamped(start, stamps, heard) && |heard| == n
    requires before == buf.Length * n && Told(reports, stamps, buf.Length, n, last, lines)
    requires |chunks| == n && Pending(input, buf.Length, chunks, stream.input) && stream.log == log + lines
    modifies stream, stream.clock, buf
    ensures stream.Valid() && stream.Advanced()
    ensures Sent(log, newLines, stream.log, r.Done?, stream.broken, stream.attempt)
    ensures r.Failed? ==>
              BrokeOff(input, buf.Length, reports, newStamps, |log| + |newLines| - |stream.log|, stream.broken, r.error)
    ensures newLines == Progress(reports, newStamps, buf.Length) && (!reports ==> newStamps == [])
    ensures r.Done? ==>
              totalBytes == buf.Length * (n + 1) && Told(reports, newStamps, buf.Length, n + 1, newLast, newLines)
    ensures r.Done? ==> |newChunks| == n + 1 && stream.input.Size() < old(stream.input.Size())
    ensures r.Done? && terminal ==> Receive(input, buf.Length) == Complete(newChunks, stream.input)
    ensures r.Done? && !terminal ==> Pending(input, buf.Length, newChunks, stream.input)
    ensures stream.times == old(stream.times) + sent && stream.heard == old(stream.heard) + [at]
    ensures old(stream.clock.now) <= at && Past(newStamps, stream.clock.now - start)
    ensures Stamped(start, newStamps, heard + [at])
  {
    hide Stamped, Past, LastReport, Reports, Progress, Sent, AllFramed, NotBefore, BrokeOff;
    ghost var data, out;
    r, terminal, totalBytes, newLast, data, newStamps, out, sent, at :=
      ReceiveTurn(stream, buf, start, reports, before, last, n, stamps, lines, heard);
    SentThen(log, lines, old(stream.log), out, stream.log, r.Done?, stream.broken, stream.attempt);
    newChunks, newLines := chunks + [data], lines + out;
    if r.Failed? {
      BreaksOff(input, old(stream.input), buf.Length, chunks, reports, newStamps, |log| + |newLines| - |stream.log|,
                stream.broken, r.error);
    } else {
      ReceiveStep(input, old(stream.input), buf.Length, chunks, data, stream.input);
      ReceiveGot(old(stream.input), buf.Length, data, stream.input);
      MulSnoc(buf.Length, n);
    }
  }

  /** One chunk after the other, with reports in between, until a terminal one. */
  method ReceiveUpload(stream: Stream, size: nat, start: nat, reports: bool)
    returns (r: Status, totalBytes: nat, ghost chunks: seq<Bytes>, ghost stamps: seq<nat>, ghost lines: seq<Bytes>,
             ghost sent: seq<nat>, ghost heard: seq<nat>)
    requires stream.Valid() && !stream.broken && ValidSize(size) && start <= stream.clock.now
    modifies stream, stream.clock
    ensures stream.Valid() && stream.Advanced()
    ensures Sent(old(stream.log), lines, stream.log, r.Done?, stream.broken, stream.attempt)
    ensures r.Failed? ==>
              BrokeOff(old(stream.input), size, reports, stamps, |old(stream.log)| + |lines| - |stream.log|,
                       stream.broken, r.error)
    ensures lines == Progress(reports, stamps, size) && (!reports ==> stamps == [])
    ensures r.Done? ==> Receive(old(stream.input), size) == Complete(chunks, stream.input)
    ensures r.Done? ==> totalBytes == size * |chunks| && |heard| == |chunks| && (reports ==> |stamps| == |chunks|)
    ensures stream.times == old(stream.times) + sent && stream.heard == old(stream.heard) + heard
    ensures FirstFrom(heard, start) && LastBy(heard, stream.clock.now)
    ensures Stamped(start, stamps, heard) && Past(stamps, stream.clock.now - start)
  {
    hide Stamped, Past, LastReport, Reports, Progress, Told, Pending, Sent, AllFramed, NotBefore, BrokeOff;
    var buf := new Byte[size](_ => '\0');
    var lastReportNs, terminal := NEVER, false;
    r, totalBytes, chunks, stamps, lines, sent, heard := Done, 0, [], [], [], [], [];
    ghost var n := 0;
    NothingTold(reports, size, start, stream.clock.now);
    NothingPending(stream.input, size);
    while true
      invariant stream.Valid() && stream.Advanced() && !stream.broken
      invariant Pending(old(stream.input), size, chunks, stream.input) && |chunks| == n
      invariant totalBytes == size * n && Told(reports, stamps, size, n, lastReportNs, lines)
      invariant stream.log == old(stream.log) + lines && Past(stamps, stream.clock.now - start)
      invariant stream.times == old(stream.times) + sent && stream.heard == old(stream.heard) + heard
      invariant |heard| == n && Stamped(start, stamps, heard) && FirstFrom(heard, start)
      decreases stream.input.Size()
    {
      ghost var times0, heard0, more, at := stream.times, stream.heard, [], 0;
      r, terminal, totalBytes, lastReportNs, chunks, stamps, lines, more, at :=
        ReceiveNext(stream, buf, start, reports, totalBytes, lastReportNs,
                    old(stream.log), old(stream.input), n, chunks, stamps, lines, heard);
      TimesThen(old(stream.times), sent, times0, more, stream.times);
      TimesThen(old(stream.heard), heard, heard0, [at], stream.heard);
      sent, heard, n := sent + more, heard + [at], n + 1;
      if r.Failed? {
        break;
      }
      SentAll(old(stream.log), lines, stream.log, stream.broken, stream.attempt);
      ToldAll(reports, stamps, size, n, lastReportNs, lines);
      if terminal {
        break;
      }
    }
    HeardBy(old(stream.heard), heard, stream.heard, stream.clock.now);
  }

  /** Reception with a clock reading before it. */
  method ReceiveTimed(stream: Stream, size: nat, reports: bool)
    returns (r: Status, start: nat, totalBytes: nat, ghost chunks: seq<Bytes>, ghost stamps: seq<nat>,
             ghost lines: seq<Bytes>, ghost sent: seq<nat>, ghost heard: seq<nat>)
    requires stream.Valid() && !stream.broken && ValidSize(size)
    modifies stream, stream.clock
    ensures stream.Valid() && stream.Advanced()
    ensures Sent(old(stream.log), lines, stream.log, r.Done?, stream.broken, stream.attempt)
    ensures r.Failed? ==>
              BrokeOff(old(stream.input), size, reports, stamps, |old(stream.log)| + |lines| - |stream.log|,
                       stream.broken, r.error)
    ensures lines == Progress(reports, stamps, size) && (!reports ==> stamps == [])
    ensures r.Done? ==> Receive(old(stream.input), size) == Complete(chunks, stream.input)
    ensures r.Done? ==> totalBytes == size * |chunks| && |heard| == |chunks| && (reports ==> |stamps| == |chunks|)
    ensures stream.times == old(stream.times) + sent && stream.heard == old(stream.heard) + heard
    ensures old(stream.clock.now) <= start <= stream.clock.now
    ensures FirstFrom(heard, start) && LastBy(heard, stream.clock.now)
    ensures Stamped(start, stamps, heard) && Past(stamps, stream.clock.now - start)
  {
    hide Stamped, Past, Progress, Sent, AllFramed, NotBefore, BrokeOff, Receive, FirstFrom;
    start := stream.clock.Instant();
    r, totalBytes, chunks, stamps, lines, sent, heard := ReceiveUpload(stream, size, start, reports);
  }

  lemma ToldAll(reports: bool, stamps: seq<nat>, size: nat, n: nat, last: int, lines: seq<Bytes>)
    requires Told(reports, stamps, size, n, last, lines)
    ensures reports ==> |stamps| == n
  {
  }

  lemma NothingPending(input: Input, size: nat)
    requires size > 0
    ensures Pending(input, size, [], input)
  {
    hide Receive;
  }

  lemma NothingTold(reports: bool, size: nat, start: nat, now: nat)
    requires start <= now
    ensures Told(reports, [], size, 0, NEVER, []) && Past([], now - start) && Stamped(start, [], [])
  {
  }

  lemma LastIsPast(stamps: seq<nat>, size: nat, last: int, now: nat)
    requires Past(stamps, now) && LastReport(Reports(stamps, size), last)
    ensures last == NEVER || 0 <= last <= now
  {
    if stamps != [] {
      ReportsSpaced(stamps, size);
    }
  }

  /** Account the upload and report its total time. */
  method ReportTotal(stream: Stream, start: nat, totalBytes: nat, stats: ConnStats)
    returns (r: Status, ghost total: nat, ghost line: Bytes)
    requires stream.Valid() && !stream.broken && start <= stream.clock.now
    modifies stream, stream.clock, stats
    ensures stream.Valid() && stream.Advanced() && stream.input == old(stream.input)
    ensures line == TimeLine(total) && old(stream.clock.now) <= start + total <= stream.clock.now
    ensures Sent(old(stream.log), [line], stream.log, r.Done?, stream.broken, stream.attempt)
    ensures r.Failed? ==> stream.broken && r.error == TransportFailed && stream.log == old(stream.log)
    ensures stream.times == old(stream.times) + Once(r.Done?, stream.clock.now) && stream.heard == old(stream.heard)
    ensures stats.Value() == Session.AddUpload(old(stats.Value()), totalBytes, total)
  {
    var now := stream.clock.Instant();
    total, line := now - start, TimeLine(now - start);
    stats.AddUpload(totalBytes, now - start);
    r := WriteLine(stream, TimeLine(now - start));
  }

  /** After OK: receive, account, and report the total time. */
  method FinishUpload(stream: Stream, size: nat, reports: bool, stats: ConnStats)
    returns (r: Status, ghost chunks: seq<Bytes>, ghost stamps: seq<nat>, ghost total: nat,
             ghost plan: seq<Bytes>, ghost received: bool, ghost c: Clocking)
    requires stream.Valid() && !stream.broken && ValidSize(size)
    modifies stream, stream.clock, stats
    ensures stats.Value() == if received then Session.AddUpload(old(stats.Value()), size * |chunks|, total)
                             else old(stats.Value())
    ensures stream.Valid() && stream.Advanced()
    ensures plan == Progress(reports, stamps, size) + [TimeLine(total)] && TimesOf(reports, stamps, total)
    ensures Sent(old(stream.log), plan, stream.log, r.Done?, stream.broken, stream.attempt)
    ensures r.Done? ==> received && Receive(old(stream.input), size) == Complete(chunks, stream.input)
    ensures r.Done? ==> |c.heard| == |chunks| && (reports ==> |stamps| == |chunks|)
    ensures r.Failed? ==>
              Break(|stream.log| - |old(stream.log)|, stream.broken, r.error)
              in ReceptionBreaks(old(stream.input), size, chunks, reports, stamps, received)
    ensures stream.During(c) && c.begin <= c.start && ClockedReception(stamps, total, c)
  {
    hide Stamped, Past, TimesOf, LastReport, Reports, Progress, Sent, AllFramed, NotBefore, BrokeOff, Receive,
      ReceptionBreaks, ClockedReception, FirstFrom, ConnStats.Value, Session.AddUpload;
    var start, totalBytes;
    ghost var lines, line, sent, heard;
    r, start, totalBytes, chunks, stamps, lines, sent, heard := ReceiveTimed(stream, size, reports);
    received, total, line := r.Done?, stream.clock.now - start, TimeLine(stream.clock.now - start);
    ghost var seen := stream.clock.now;
    if r.Failed? {
      SentMore(old(stream.log), lines, [line], stream.log, stream.broken, stream.attempt);
      CutBeforeTotal(old(stream.input), size, chunks, reports, stamps, |stream.log| - |old(stream.log)|,
                     stream.broken, r.error);
    } else {
      ghost var log, times := stream.log, stream.times;
      SentAll(old(stream.log), lines, log, stream.broken, stream.attempt);
      r, total, line := ReportTotal(stream, start, totalBytes, stats);
      SentThen(old(stream.log), lines, log, [line], stream.log, r.Done?, stream.broken, stream.attempt);
      TimesThen(old(stream.times), sent, times, Once(r.Done?, stream.clock.now), stream.times);
      sent := sent + Once(r.Done?, stream.clock.now);
      if r.Failed? {
        CutAtTotal(old(stream.input), size, chunks, reports, stamps, stream.input, r.error);
      }
    }
    TimesInOrder(reports, stamps, seen - start, total);
    plan := lines + [line];
    c := ReceptionClocked(old(stream.clock.now), start, sent, heard, stamps, total, stream.clock.now);
  }

  lemma ReceptionClocked(begin: nat, start: nat, sent: seq<nat>, heard: seq<nat>, stamps: seq<nat>, total: nat,
                         end: nat)
    returns (c: Clocking)
    requires Stamped(start, stamps, heard) && FirstFrom(heard, start)
    requires LastBy(heard, start + total) && start + total <= end
    ensures c == Clocking(begin, start, sent, heard, end) && ClockedReception(stamps, total, c)
  {
    c := Clocking(begin, start, sent, heard, end);
  }

  lemma TimesInOrder(reports: bool, stamps: seq<nat>, now: int, total: nat)
    requires Past(stamps, now) && now <= total && (!reports ==> stamps == [])
    ensures TimesOf(reports, stamps, total)
  {
  }

  lemma HeardBy(before: seq<nat>, heard: seq<nat>, all: seq<nat>, now: nat)
    requires all == before + heard && LastBy(all, now)
    ensures LastBy(heard, now)
  {
  }

  /** `PUT [chunksize]` and `PUTNORESULT [chunksize]`. */
  method HandlePut(stream: Stream, filler: Filler, argChunk: Bytes, size: nat, reports: bool, stats: ConnStats)
    returns (r: Status, newSize: nat, ghost x: Exchange, ghost plan: seq<Bytes>, ghost transferred: bool,
             ghost c: Clocking)
    requires stream.Valid() && !stream.broken && ValidSize(size)
    modifies stream, stream.clock, stats
    ensures stream.Valid() && stream.Advanced() && ValidSize(newSize)
    ensures WellFormed(x) && IsTest(x)
    ensures plan == Reply(filler, x) && Sent(old(stream.log), plan, stream.log, r.Done?, stream.broken, stream.attempt)
    ensures Handled(Point(size, old(stream.input)), Put(argChunk, reports), Point(newSize, stream.input),
                    x, transferred, r, |stream.log| - |old(stream.log)|, stream.broken)
    ensures stream.During(c) && Clocked(x, c) && (r.Done? ==> |c.heard| == ReadsOf(x))
    ensures stats.Value() == if transferred then AddTransfer(old(stats.Value()), x) else old(stats.Value())
  {
    hide Handled, Receive, UploadBreaks, ClockedUpload, Sent, ParseChunkSize, AllFramed, NotBefore;
    ghost var p := Point(size, stream.input);
    newSize := size;
    var negotiated := Negotiate(argChunk, size);
    if negotiated.None? {
      r, x, plan, transferred, c := Refuse(stream, filler, p, Put(argChunk, reports), newSize);
    } else {
      newSize := negotiated.value;
      ghost var chunks, stamps, total;
      r, chunks, stamps, total, plan, transferred, c := Upload(stream, newSize, reports, stats);
      x := Uploaded(newSize, chunks, reports, stamps, total);
      UploadedExchange(filler, newSize, chunks, reports, stamps, total, old(stats.Value()));
      HandledPut(p, argChunk, x, Point(newSize, stream.input), transferred, r,
                 |stream.log| - |old(stream.log)|, stream.broken);
    }
  }

  /** The accepted upload, from OK to the final TIME. */
  method Upload(stream: Stream, size: nat, reports: bool, stats: ConnStats)
    returns (r: Status, ghost chunks: seq<Bytes>, ghost stamps: seq<nat>, ghost total: nat,
             ghost plan: seq<Bytes>, ghost received: bool, ghost c: Clocking)
    requires stream.Valid() && !stream.broken && ValidSize(size)
    modifies stream, stream.clock, stats
    ensures stats.Value() == if received then Session.AddUpload(old(stats.Value()), size * |chunks|, total)
                             else old(stats.Value())
    ensures stream.Valid() && stream.Advanced()
    ensures plan == [OK] + (Progress(reports, stamps, size) + [TimeLine(total)]) && TimesOf(reports, stamps, total)
    ensures Sent(old(stream.log), plan, stream.log, r.Done?, stream.broken, stream.attempt)
    ensures r.Done? ==> received && Receive(old(stream.input), size) == Complete(chunks, stream.input)
    ensures r.Done? ==> |c.heard| == |chunks| && (reports ==> |stamps| == |chunks|)
    ensures r.Failed? ==>
              Break(|stream.log| - |old(stream.log)|, stream.broken, r.error)
              in UploadBreaks(old(stream.input), size, chunks, reports, stamps, received)
    ensures stream.During(c) && c.begin <= c.start <= c.end && ClockedUpload(stamps, total, c)
  {
    hide Stamped, Reports, Progress, TimesOf, Sent, AllFramed, NotBefore, ReceptionBreaks, UploadBreaks, ClockedUpload,
      ClockedReception, Receive;
    chunks, stamps, total, received := [], [], 0, false;
    NothingTimed(reports);
    r := WriteLine(stream, OK);
    ghost var log, times, at := stream.log, stream.times, stream.clock.now;
    ghost var tail := Progress(reports, stamps, size) + [TimeLine(total)];
    if r.Failed? {
      SentMore(old(stream.log), [OK], tail, stream.log, stream.broken, stream.attempt);
      CutAtOk(old(stream.input), size, reports, r.error);
      c := NothingReceived(old(stream.clock.now), at);
      assert stream.heard + [] == stream.heard;
    } else {
      SentAll(old(stream.log), [OK], log, stream.broken, stream.attempt);
      r, chunks, stamps, total, tail, received, c := FinishUpload(stream, size, reports, stats);
      SentThen(old(stream.log), [OK], log, tail, stream.log, r.Done?, stream.broken, stream.attempt);
      TimesThen(old(stream.times), [at], times, c.sent, stream.times);
      c := UploadClocked(old(stream.clock.now), at, stamps, total, c);
      if r.Failed? {
        CutBehindOk(old(stream.input), size, chunks, reports, stamps, received, |stream.log| - |log|, stream.broken,
                    r.error);
        assert |stream.log| - |log| + 1 == |stream.log| - |old(stream.log)|;
      }
    }
    plan := [OK] + tail;
  }

  lemma NothingTimed(reports: bool)
    ensures TimesOf(reports, [], 0)
  {
  }

  lemma NothingReceived(begin: nat, now: nat) returns (c: Clocking)
    requires begin <= now
    ensures c == Clocking(begin, now, [], [], now) && ClockedUpload([], 0, c)
  {
    c := Clocking(begin, now, [], [], now);
  }

  /** The clock over a reception and the OK before it. */
  lemma UploadClocked(begin: nat, at: nat, stamps: seq<nat>, total: nat, c: Clocking) returns (d: Clocking)
    requires ClockedReception(stamps, total, c) && begin <= at <= c.begin <= c.start
    ensures d == Clocking(begin, c.start, [at] + c.sent, c.heard, c.end) && ClockedUpload(stamps, total, d)
    ensures d.start <= d.end
  {
    d := Clocking(begin, c.start, [at] + c.sent, c.heard, c.end);
  }

  // ── PING ───────────────────────────────────────────────────────────────────────

  /** `PING`. */
  method HandlePing(stream: Stream, filler: Filler, size: nat, stats: ConnStats)
    returns (r: Status, ghost x: Exchange, ghost plan: seq<Bytes>, ghost transferred: bool, ghost c: Clocking)
    requires stream.Valid() && !stream.broken && ValidSize(size)
    modifies stream, stream.clock, stats
    ensures stream.Valid() && stream.Advanced()
    ensures x.Pinged? && WellFormed(x) && IsTest(x)
    ensures plan == Reply(filler, x) && Sent(old(stream.log), plan, stream.log, r.Done?, stream.broken, stream.attempt)
    ensures Handled(Point(size, old(stream.input)), Ping, Point(size, stream.input),
                    x, transferred, r, |stream.log| - |old(stream.log)|, stream.broken)
    ensures stream.During(c) && Clocked(x, c) && (r.Done? ==> |c.heard| == ReadsOf(x))
    ensures stats.Value() == if transferred then AddTransfer(old(stats.Value()), x) else old(stats.Value())
  {
    hide Handled, CutPing, TakeLine, Acknowledges, Clocked, Sent;
    ghost var answer;
    r, answer, plan, transferred, c := PingPong(stream, stats);
    x := Pinged(answer);
    HandledPing(Point(size, old(stream.input)), answer, Point(size, stream.input), transferred, r,
                |stream.log| - |old(stream.log)|, stream.broken);
  }

  /** PONG, then the acknowledgement and the final line. */
  method PingPong(stream: Stream, stats: ConnStats)
    returns (r: Status, ghost answer: Option<nat>, ghost plan: seq<Bytes>, ghost counted: bool, ghost c: Clocking)
    requires stream.Valid() && !stream.broken
    modifies stream, stream.clock, stats
    ensures stream.Valid() && stream.Advanced()
    ensures plan == [PONG, Final(answer)]
    ensures Sent(old(stream.log), plan, stream.log, r.Done?, stream.broken, stream.attempt)
    ensures r.Failed? ==>
              CutPing(old(stream.input), answer, counted, |stream.log| - |old(stream.log)|, stream.broken, r.error)
    ensures r.Done? ==> counted && Acknowledges(old(stream.input), answer, stream.input)
    ensures stream.During(c) && Clocked(Pinged(answer), c) && (r.Done? ==> |c.heard| == 1)
    ensures stats.Value() == if counted && answer.Some? then Session.AddPing(old(stats.Value()), answer.value)
                             else old(stats.Value())
  {
    hide CutAck, Acknowledges, TakeLine, CutPing, Clocked, Sent, NotBefore, AllFramed, Session.AddPing;
    ghost var line;
    answer, line, counted := None, ERR, false;
    var start := stream.clock.Instant();
    r := WriteLine(stream, PONG);
    ghost var log, times, pong := stream.log, stream.times, stream.clock.now;
    if r.Failed? {
      CutPingFirst(old(stream.input), r.error);
      SentMore(old(stream.log), [PONG], [line], stream.log, stream.broken, stream.attempt);
      c := PingClocked(None, old(stream.clock.now), start, [], [], pong);
      assert stream.heard + [] == stream.heard;
    } else {
      ghost var at;
      SentAll(old(stream.log), [PONG], log, stream.broken, stream.attempt);
      r, answer, line, counted, at := FinishPing(stream, start, stats);
      if r.Failed? {
        CutPingAcked(old(stream.input), answer, counted, stream.broken, r.error);
      }
      SentThen(old(stream.log), [PONG], log, [line], stream.log, r.Done?, stream.broken, stream.attempt);
      TimesThen(old(stream.times), [pong], times, Once(r.Done?, stream.clock.now), stream.times);
      c := PingClocked(answer, old(stream.clock.now), start, [pong] + Once(r.Done?, stream.clock.now), [at],
                       stream.clock.now);
    }
    plan := [PONG] + [line];
  }

  /** The clock over a round trip. */
  lemma PingClocked(answer: Option<nat>, begin: nat, start: nat, sent: seq<nat>, heard: seq<nat>, end: nat)
    returns (c: Clocking)
    requires begin <= start <= end && FirstFrom(sent, start)
    requires answer.Some? ==> sent != [] && heard != [] && heard[|heard| - 1] <= start + answer.value <= end
    ensures c == Clocking(begin, start, sent, heard, end) && Clocked(Pinged(answer), c)
  {
    c := Clocking(begin, start, sent, heard, end);
  }

  /** Account an acknowledged ping and report its time. */
  method ReportPing(stream: Stream, start: nat, stats: ConnStats) returns (r: Status, ghost ns: nat)
    requires stream.Valid() && !stream.broken && start <= stream.clock.now
    modifies stream, stream.clock, stats
    ensures stream.Valid() && stream.Advanced() && stream.input == old(stream.input)
    ensures Sent(old(stream.log), [TimeLine(ns)], stream.log, r.Done?, stream.broken, stream.attempt)
    ensures stats.Value() == Session.AddPing(old(stats.Value()), ns)
    ensures old(stream.clock.now) <= start + ns <= stream.clock.now
    ensures (r.Failed? <==> stream.broken)
            && (r.Failed? ==> r.error == TransportFailed && stream.log == old(stream.log))
    ensures stream.times == old(stream.times) + Once(r.Done?, stream.clock.now) && stream.heard == old(stream.heard)
  {
    var now := stream.clock.Instant();
    ns := now - start;
    stats.AddPing(now - start);
    r := WriteLine(stream, TimeLine(now - start));
  }

  /** After PONG: wait for OK, heard at the time `at`, account the round trip, report it. */
  method FinishPing(stream: Stream, start: nat, stats: ConnStats)
    returns (r: Status, ghost answer: Option<nat>, ghost line: Bytes, ghost counted: bool, ghost at: nat)
    requires stream.Valid() && !stream.broken && start <= stream.clock.now
    modifies stream, stream.clock, stats
    ensures stream.Valid() && stream.Advanced()
    ensures line == Final(answer) && Sent(old(stream.log), [line], stream.log, r.Done?, stream.broken, stream.attempt)
    ensures r.Failed? ==> (counted <==> stream.broken)
    ensures r.Done? ==> counted && Acknowledges(old(stream.input), answer, stream.input)
    ensures stats.Value() == if counted && answer.Some? then Session.AddPing(old(stats.Value()), answer.value)
                             else old(stats.Value())
    ensures stream.times == old(stream.times) + Once(r.Done?, stream.clock.now)
            && stream.heard == old(stream.heard) + [at]
    ensures old(stream.clock.now) <= at && (answer.Some? ==> at <= start + answer.value <= stream.clock.now)
    ensures r.Failed? ==> stream.log == old(stream.log) && CutAck(old(stream.input), answer, stream.broken, r.error)
  {
    hide AckRead, CutAck, Acknowledges, Sent;
    answer, line, counted := None, ERR, false;
    var acknowledged;
    r, acknowledged := ReadAck(stream);
    at := stream.clock.now;
    if r.Failed? {
      SentNothing(old(stream.log), [line], stream.attempt);
      assert stream.times + [] == stream.times;
    } else {
      counted := true;
      if !acknowledged {
        r := WriteLine(stream, ERR);
      } else {
        ghost var ns;
        r, ns := ReportPing(stream, start, stats);
        answer, line := Some(ns), TimeLine(ns);
      }
      AckAnswered(old(stream.input), acknowledged, stream.input, answer, TransportFailed);
    }
  }

  // ── The command loop ───────────────────────────────────────────────────────────

  /** Answer QUIT, or a command that is not known. */
  method AnswerPlain(stream: Stream, filler: Filler, request: Request, size: nat)
    returns (r: Status, ghost x: Exchange, ghost plan: seq<Bytes>, ghost c: Clocking)
    requires stream.Valid() && !stream.broken && ValidSize(size)
    requires request.Quit? || request.Unknown?
    modifies stream, stream.clock
    ensures stream.Valid() && stream.Advanced()
    ensures WellFormed(x) && !IsTest(x) && (x.Closed? <==> request.Quit?)
    ensures plan == Reply(filler, x) && Sent(old(stream.log), plan, stream.log, r.Done?, stream.broken, stream.attempt)
    ensures r.Done? ==>
              Completion(x, Point(size, stream.input)) in Completions(Point(size, old(stream.input)), request)
    ensures r.Failed? ==>
              Beginning(x, false, |stream.log| - |old(stream.log)|, stream.broken, r.error)
              in Beginnings(Point(size, old(stream.input)), request)
    ensures stream.During(c) && Clocked(x, c) && c.heard == []
  {
    ghost var line := if request.Quit? then BYE else ERR;
    x, plan := if request.Quit? then Closed else Refused(false), [line];
    r := WriteLine(stream, if request.Quit? then BYE else ERR);
    c := Clocking(old(stream.clock.now), stream.clock.now, Once(r.Done?, stream.clock.now), [], stream.clock.now);
    assert stream.heard + [] == stream.heard;
  }

  /** The handler of a test command. */
  method CallHandler(stream: Stream, filler: Filler, request: Request, size: nat, stats: ConnStats)
    returns (r: Status, newSize: nat, ghost x: Exchange, ghost plan: seq<Bytes>, ghost transferred: bool,
             ghost c: Clocking)
    requires stream.Valid() && !stream.broken && ValidSize(size)
    requires !request.Quit? && !request.Unknown?
    modifies stream, stream.clock, stats
    ensures stream.Valid() && stream.Advanced() && ValidSize(newSize)
    ensures WellFormed(x) && IsTest(x)
    ensures plan == Reply(filler, x) && Sent(old(stream.log), plan, stream.log, r.Done?, stream.broken, stream.attempt)
    ensures Handled(Point(size, old(stream.input)), request, Point(newSize, stream.input),
                    x, transferred, r, |stream.log| - |old(stream.log)|, stream.broken)
    ensures stream.During(c) && Clocked(x, c) && (r.Done? ==> |c.heard| == ReadsOf(x))
    ensures stats.Value() == if transferred then AddTransfer(old(stats.Value()), x) else old(stats.Value())
  {
    hide Handled, Clocked, Sent;
    match request {
      case GetTime(seconds, chunk) =>
        r, newSize, x, plan, transferred, c := HandleGetTime(stream, filler, seconds, chunk, size, stats);
      case GetChunks(count, chunk) =>
        r, newSize, x, plan, transferred, c := HandleGetChunks(stream, filler, count, chunk, size, stats);
      case Put(chunk, reports) =>
        r, newSize, x, plan, transferred, c := HandlePut(stream, filler, chunk, size, reports, stats);
      case Ping =>
        newSize := size;
        r, x, plan, transferred, c := HandlePing(stream, filler, size, stats);
    }
  }

  /** One turn of the command loop: offer the commands, read one, answer it. */
  method ServeCommand(stream: Stream, filler: Filler, size: nat, stats: ConnStats)
    returns (r: Status, newSize: nat, quit: bool, ghost x: Exchange, ghost plan: seq<Bytes>, ghost phase: Phase,
             ghost t: Turn)
    requires stream.Valid() && !stream.broken && ValidSize(size)
    modifies stream, stream.clock, stats
    ensures stream.Valid() && stream.Advanced() && ValidSize(newSize)
    ensures WellFormed(x) && plan == [ACCEPT] + Reply(filler, x) && (phase.Transferred? ==> IsTest(x))
    ensures Sent(old(stream.log), plan, stream.log, r.Done?, stream.broken, stream.attempt)
    ensures r.Done? ==> Step(Serves, Point(size, old(stream.input)), x, Point(newSize, stream.input))
    ensures r.Done? ==> (quit <==> x.Closed?) && stream.left < old(stream.left)
    ensures r.Failed? ==>
              Interruption(x, phase, |stream.log| - |old(stream.log)|, stream.broken, r.error)
              in Interruptions(Point(size, old(stream.input)))
    ensures stream.times == old(stream.times) + t.Writes() && stream.heard == old(stream.heard) + t.Reads()
    ensures t.begin == old(stream.clock.now) && t.answer.end == stream.clock.now && ClockedTurn(x, t)
    ensures r.Done? ==> Tallied(x, t)
    ensures stats.Value() == if r.Done? then Account(old(stats.Value()), x)
            else AccountCut(old(stats.Value()), x, phase)
  {
    hide Interruptions, Serves, TakeLine, Sent, Clocked, ClockedTurn, Tallied, AllFramed, NotBefore, Account,
      AccountCut, Reply, WellFormed, FirstFrom, LastBy;
    newSize, quit, x, phase := size, false, Refused(false), Waiting;
    ghost var reply := [ERR];
    NothingAnswered(filler, stats.Value());
    r := WriteLine(stream, ACCEPT);
    ghost var log, times, at := stream.log, stream.times, stream.clock.now;
    if r.Failed? {
      SentMore(old(stream.log), [ACCEPT], reply, stream.log, stream.broken, stream.attempt);
      InterruptedOffer(Point(size, old(stream.input)), r.error);
      t := TurnNotTaken(old(stream.clock.now), at);
      assert stream.heard + [] == stream.heard;
    } else {
      ghost var asked, c;
      SentAll(old(stream.log), [ACCEPT], log, stream.broken, stream.attempt);
      r, newSize, quit, x, reply, phase, asked, c := ReadAndAnswer(stream, filler, size, stats);
      SentThen(old(stream.log), [ACCEPT], log, reply, stream.log, r.Done?, stream.broken, stream.attempt);
      TimesThen(old(stream.times), [at], times, c.sent, stream.times);
      t := TurnTaken(old(stream.clock.now), at, asked, x, c);
      if r.Done? {
        SentAll(old(stream.log), [ACCEPT] + reply, stream.log, stream.broken, stream.attempt);
        TurnTallied(filler, x, t);
      }
    }
    plan := [ACCEPT] + reply;
  }

  lemma TurnNotTaken(begin: nat, now: nat) returns (t: Turn)
    requires begin <= now
    ensures t.begin == begin && t.answer.end == now && t.Writes() == [] && t.Reads() == []
            && ClockedTurn(Refused(false), t)
  {
    t := Turn(begin, [], [], Clocking(now, now, [], [], now));
  }

  lemma TurnTaken(begin: nat, at: nat, asked: seq<nat>, x: Exchange, c: Clocking) returns (t: Turn)
    requires begin <= at <= c.begin && FirstFrom(asked, at) && LastBy(asked, c.begin) && Clocked(x, c)
    ensures t == Turn(begin, [at], asked, c) && ClockedTurn(x, t)
  {
    t := Turn(begin, [at], asked, c);
  }

  lemma NothingAnswered(filler: Filler, s: Stats)
    ensures WellFormed(Refused(false)) && Reply(filler, Refused(false)) == [ERR]
    ensures AccountCut(s, Refused(false), Waiting) == s
  {
  }

  lemma TurnTallied(filler: Filler, x: Exchange, t: Turn)
    requires WellFormed(x) && |t.offered| == |t.asked| == 1
    requires |t.answer.sent| == |Reply(filler, x)| && |t.answer.heard| == ReadsOf(x)
    ensures Tallied(x, t)
  {
    ReplyWrites(filler, x);
  }

  /** Answer the command that was read; a test command is counted first. */
  method Dispatch(stream: Stream, filler: Filler, request: Request, size: nat, stats: ConnStats)
    returns (r: Status, newSize: nat, ghost x: Exchange, ghost plan: seq<Bytes>, ghost phase: Phase, ghost c: Clocking)
    requires stream.Valid() && !stream.broken && ValidSize(size)
    modifies stream, stream.clock, stats
    ensures stream.Valid() && stream.Advanced() && ValidSize(newSize)
    ensures WellFormed(x) && plan == Reply(filler, x)
    ensures Sent(old(stream.log), plan, stream.log, r.Done?, stream.broken, stream.attempt)
    ensures phase.Waiting? <==> request.Quit? || request.Unknown?
    ensures (phase.Transferred? ==> IsTest(x)) && (r.Done? ==> (request.Quit? <==> x.Closed?))
    ensures r.Done? ==>
              Completion(x, Point(newSize, stream.input)) in Completions(Point(size, old(stream.input)), request)
    ensures r.Failed? ==>
              Beginning(x, phase.Transferred?, |stream.log| - |old(stream.log)|, stream.broken, r.error)
              in Beginnings(Point(size, old(stream.input)), request)
    ensures stream.During(c) && Clocked(x, c) && (r.Done? ==> |c.heard| == ReadsOf(x))
    ensures stats.Value() == if r.Done? then Account(old(stats.Value()), x)
            else AccountCut(old(stats.Value()), x, phase)
  {
    hide Completions, Beginnings, Sent, Clocked;
    if request.Quit? || request.Unknown? {
      newSize, phase := size, Waiting;
      r, x, plan, c := AnswerPlain(stream, filler, request, size);
    } else {
      stats.CountCommand();
      ghost var transferred;
      r, newSize, x, plan, transferred, c := CallHandler(stream, filler, request, size, stats);
      phase := if transferred then Transferred else Dispatched;
    }
    AccountCompleted(old(stats.Value()), x);
  }

  /** Read a command and answer it; `asked` tells when the command was read. */
  method ReadAndAnswer(stream: Stream, filler: Filler, size: nat, stats: ConnStats)
    returns (r: Status, newSize: nat, quit: bool, ghost x: Exchange, ghost plan: seq<Bytes>, ghost phase: Phase,
             ghost asked: seq<nat>, ghost c: Clocking)
    requires stream.Valid() && !stream.broken && ValidSize(size)
    modifies stream, stream.clock, stats
    ensures stream.Valid() && stream.Advanced() && ValidSize(newSize)
    ensures WellFormed(x) && plan == Reply(filler, x) && (phase.Transferred? ==> IsTest(x))
    ensures Sent(old(stream.log), plan, stream.log, r.Done?, stream.broken, stream.attempt)
    ensures r.Done? ==> Step(Serves, Point(size, old(stream.input)), x, Point(newSize, stream.input))
    ensures r.Done? ==> (quit <==> x.Closed?)
    ensures r.Failed? ==>
              Interruption(x, phase, |stream.log| - |old(stream.log)| + 1, stream.broken, r.error)
              in Interruptions(Point(size, old(stream.input)))
    ensures stream.times == old(stream.times) + c.sent && stream.heard == old(stream.heard) + (asked + c.heard)
    ensures old(stream.clock.now) <= c.begin && c.end == stream.clock.now && Clocked(x, c)
    ensures |asked| == 1 && FirstFrom(asked, old(stream.clock.now)) && LastBy(asked, c.begin)
    ensures r.Done? ==> |c.heard| == ReadsOf(x)
    ensures stats.Value() == if r.Done? then Account(old(stats.Value()), x)
            else AccountCut(old(stats.Value()), x, phase)
  {
    hide Completions, Beginnings, Interruptions, Serves, NextRequest, TakeLine, Sent, Clocked;
    newSize, quit, x, plan, phase := size, false, Refused(false), [ERR], Waiting;
    var request;
    r, request := ReadRequest(stream);
    ghost var at, heard := stream.clock.now, stream.heard;
    asked, c := [at], Clocking(at, at, [], [], at);
    if r.Failed? {
      SentNothing(old(stream.log), plan, stream.attempt);
      InterruptedRead(Point(size, old(stream.input)), r.error);
      NothingClocked(at);
      assert stream.times + [] == stream.times && asked + [] == asked;
    } else {
      ghost var rest := stream.input;
      quit := request.Quit?;
      r, newSize, x, plan, phase, c := Dispatch(stream, filler, request, size, stats);
      TimesThen(old(stream.heard), asked, heard, c.heard, stream.heard);
      if r.Done? {
        ServesRequest(Point(size, old(stream.input)), request, rest, x, Point(newSize, stream.input));
      } else {
        InterruptedAnswer(Point(size, old(stream.input)), request, rest, x, phase, |stream.log| - |old(stream.log)|,
                          stream.broken, r.error);
      }
    }
  }

  lemma NothingClocked(at: nat)
    ensures Clocked(Refused(false), Clocking(at, at, [], [], at))
  {
  }

  method ReadRequest(stream: Stream) returns (r: Status, request: Request)
    requires stream.Valid()
    modifies stream`input, stream`heard, stream.clock
    ensures stream.Valid() && stream.Advanced()
    ensures if r.Done? then NextRequest(old(stream.input), request, stream.input)
            else TakeLine(old(stream.input)) == Failure(r.error)
    ensures stream.heard == old(stream.heard) + [stream.clock.now]
  {
    var line;
    r, line := stream.ReadLine();
    request := ParseRequest(line);
  }

  /**
   `run_commands`: serve commands until QUIT or a failure. The result is the story of the session: the
   exchanges that were completed and, if it broke off, the one that was in progress. The record tells
   when everything happened.
   */
  method RunCommands(stream: Stream, filler: Filler, stats: ConnStats)
    returns (r: Status, ghost story: Story, ghost record: Record)
    requires stream.Valid() && !stream.broken
    modifies stream, stream.clock, stats
    ensures stream.Valid() && stream.Advanced()
    ensures Tells(filler, story, Point(CHUNK_SIZE, old(stream.input)), old(stream.log), r,
                  stream.log, stream.broken, stream.attempt)
    ensures r.Done? ==> story.run.points[|story.run.exchanges|].input == stream.input
    ensures stats.Value() == AccountAll(old(stats.Value()), Counted(story))
    ensures record == Record(old(stream.clock.now), old(stream.times), old(stream.heard), record.turns)
    ensures OnRecord(Turns(story, r), |story.run.exchanges|, record, stream.times, stream.heard, stream.clock.now)
    ensures AllBy(story.run.exchanges, stream.clock.now) && Latest(story.cut) <= stream.clock.now
  {
    hide Tells, Sent, Interruptions, Serves, Served, Counted, AccountAll, AccountCut, Account, ValidRun, TakeLine,
      OnRecord, ClockedTurn, Tallied, ClosedAtEnd, AllBy, Latest, AllFramed, NotBefore;
    var size, quit := CHUNK_SIZE, false;
    r := Done;
    ghost var start, log0, stats0 := Point(CHUNK_SIZE, stream.input), stream.log, stats.Value();
    ghost var run, cut, phase := Run([start], []), Refused(false), Waiting;
    record := Record(stream.clock.now, stream.times, stream.heard, []);
    ServedNothing(filler, start, log0, stats0);
    NothingClosed();
    NothingOnRecord(stream.times, stream.heard, stream.clock.now);
    while !quit
      invariant stream.Valid() && stream.Advanced() && !stream.broken && ValidSize(size) && r.Done?
      invariant Served(filler, run, start, log0, stats0, Point(size, stream.input), stream.log, stats.Value())
      invariant ClosedAtEnd(run.exchanges, quit)
      invariant record == Record(old(stream.clock.now), old(stream.times), old(stream.heard), record.turns)
      invariant OnRecord(run.exchanges, |run.exchanges|, record, stream.times, stream.heard, stream.clock.now)
      decreases stream.left, !quit
    {
      ghost var now, log, count := Point(size, stream.input), stream.log, stats.Value();
      ghost var times, heard := stream.times, stream.heard;
      ghost var plan, t;
      r, size, quit, cut, plan, phase, t := ServeCommand(stream, filler, size, stats);
      OnRecordSnoc(run.exchanges, record, times, heard, cut, t, r.Done?, stream.times, stream.heard);
      record := AddTurn(record, t);
      if r.Failed? {
        TellsCut(filler, run, start, log0, stats0, now, log, count, cut, phase, plan, r.error,
                 stream.log, stream.broken, stream.attempt, stats.Value());
        story := Story(run, cut, phase);
        break;
      }
      ghost var next := Point(size, stream.input);
      SentAll(log, plan, stream.log, stream.broken, stream.attempt);
      ServedSnoc(filler, run, start, log0, stats0, now, log, count, cut, next, plan, stream.log);
      ClosedSnoc(run.exchanges, cut);
      run := Extend(run, cut, next);
    }
    if r.Done? {
      story := Story(run, Refused(false), Waiting);
      TellsDone(filler, run, start, log0, stats0, Point(size, stream.input), stream.log, stream.attempt, stats.Value());
      assert run.exchanges + [] == run.exchanges;
    }
    RecordBounds(story, r, |run.exchanges|, record, stream.times, stream.heard, stream.clock.now);
  }

  lemma RecordBounds(story: Story, r: Status, whole: nat, record: Record, sent: seq<nat>, heard: seq<nat>, now: nat)
    requires OnRecord(Turns(story, r), whole, record, sent, heard, now)
    requires r.Done? ==> story.cut == Refused(false)
    ensures AllBy(story.run.exchanges, now) && Latest(story.cut) <= now
  {
    var (h, all) := (story.run.exchanges, Turns(story, r));
    AllByClock(all, record.turns, record.begin, now);
    forall i | 0 <= i < |h| ensures Latest(h[i]) <= now {
      assert all[i] == h[i];
    }
    assert r.Failed? ==> all[|h|] == story.cut;
  }
}
