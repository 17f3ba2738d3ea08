/** A connection as the protocol handlers see it: raw bytes, or WebSocket frames. */
module Streams {
  import opened Text
  import opened Clocks
  import Utf8

  const MAX_LINE_LENGTH: nat := 1024

  const CHUNK_SIZE: nat := 4096

  datatype Error =
    | ConnectionClosed | TransportFailed | LineTooLong | InvalidUtf8
    | QuitBeforeToken | ExpectedToken | TokenRejected | RequestTooLarge

  /** The result of an operation that may fail. */
  datatype Status = Done | Failed(error: Error)

  // ── What the peer sends ────────────────────────────────────────────────────────

  /** A complete message as the WebSocket library delivers it (sections 5.4 to 5.6 of RFC 6455). */
  datatype Frame = Text(payload: Bytes) | Binary(payload: Bytes) | Control | Close {
    predicate IsData() {
      Text? || Binary?
    }
  }

  /**
   Everything the peer will still send. A raw input ends with a clean end of stream, or with a
   failure of the transport; a WebSocket input ends with a failure unless a close frame comes first.
   */
  datatype Input = Raw(bytes: Bytes, cut: bool) | Ws(frames: seq<Frame>) {
    function Size(): nat {
      match this
      case Raw(b, _) => |b|
      case Ws(f) => |f|
    }
  }

  datatype Taken = Got(data: Bytes, rest: Input) | Failure(error: Error)

  // ── Reading a line ─────────────────────────────────────────────────────────────

  /** `take(MAX_LINE_LENGTH + 1).read_until('\n')`: the bytes read, if the transport did not fail. */
  function ReadUntilNewline(b: Bytes, cut: bool): Option<Bytes> {
    var limit := if |b| <= MAX_LINE_LENGTH then |b| else MAX_LINE_LENGTH + 1;
    match Find(b[..limit], "\n", 0)
    case Some(i) => Some(b[..i + 1])
    case None => if limit == |b| <= MAX_LINE_LENGTH && cut then None else Some(b[..limit])
  }

  function TakeRawLine(b: Bytes, cut: bool): Taken {
    match ReadUntilNewline(b, cut)
    case None => Failure(TransportFailed)
    case Some(buf) =>
      if buf == [] then Failure(ConnectionClosed)
      else if |buf| > MAX_LINE_LENGTH then Failure(LineTooLong)
      else
        var line := StripSuffix(StripSuffix(buf, '\n'), '\r');
        if !Utf8.Valid(line) then Failure(InvalidUtf8) else Got(line, Raw(b[|buf|..], cut))
  }

  /** The line a data frame carries; a text frame loses all trailing newlines, a binary frame one. */
  function FrameLine(f: Frame): Bytes
    requires f.IsData()
  {
    match f
    case Text(t) => TrimEndMatches(TrimEndMatches(t, '\n'), '\r')
    case Binary(b) => StripSuffix(StripSuffix(Utf8.Lossy(b), '\n'), '\r')
  }

  function TakeFrameLine(frames: seq<Frame>): Taken {
    if frames == [] then Failure(TransportFailed)
    else match frames[0]
      case Close => Failure(ConnectionClosed)
      case Control => TakeFrameLine(frames[1..])
      case _ => Got(FrameLine(frames[0]), Ws(frames[1..]))
  }

  function TakeLine(input: Input): (r: Taken)
    ensures r.Got? ==> r.rest.Size() < input.Size() && r.rest.Ws? == input.Ws?
  {
    match input
    case Raw(b, cut) => TakeRawLine(b, cut)
    case Ws(frames) => TakeFrameLineShrinks(frames); TakeFrameLine(frames)
  }

  lemma {:induction false} TakeFrameLineShrinks(frames: seq<Frame>)
    ensures TakeFrameLine(frames).Got? ==>
      TakeFrameLine(frames).rest.Ws? && |TakeFrameLine(frames).rest.frames| < |frames|
  {
    if frames != [] && frames[0].Control? {
      TakeFrameLineShrinks(frames[1..]);
    }
  }

  // ── Reading a block ────────────────────────────────────────────────────────────

  /** The concatenated payloads of the data frames; control frames carry none. */
  function Payload(frames: seq<Frame>): Bytes {
    if frames == [] then [] else Payload(frames[..|frames| - 1]) + PayloadOf(frames[|frames| - 1])
  }

  function PayloadOf(f: Frame): Bytes {
    if f.IsData() then f.payload else []
  }

  predicate Closes(frames: seq<Frame>) {
    Close in frames
  }

  /** The first `k` frames are the shortest run that carries `n` bytes. */
  predicate ShortestRun(frames: seq<Frame>, n: nat, k: nat) {
    && k <= |frames|
    && !Closes(frames[..k])
    && n <= |Payload(frames[..k])|
    && forall j :: 0 <= j < k ==> |Payload(frames[..j])| < n
  }

  /** `read_exact` on frames, by recursion on the frames. */
  function Gather(frames: seq<Frame>, n: nat): Taken {
    if n == 0 then Got([], Ws(frames))
    else if frames == [] then Failure(TransportFailed)
    else match frames[0]
      case Close => Failure(ConnectionClosed)
      case Control => Gather(frames[1..], n)
      case _ =>
        var p := frames[0].payload;
        if |p| >= n then Got(p[..n], Ws(frames[1..]))
        else match Gather(frames[1..], n - |p|)
          case Failure(e) => Failure(e)
          case Got(d, rest) => Got(p + d, rest)
  }

  function TakeExact(input: Input, n: nat): (r: Taken)
    requires n > 0
    ensures r.Got? ==> |r.data| == n && r.rest.Size() < input.Size() && r.rest.Ws? == input.Ws?
  {
    match input
    case Raw(b, cut) =>
      if |b| >= n then Got(b[..n], Raw(b[n..], cut))
      else Failure(if cut then TransportFailed else ConnectionClosed)
    case Ws(frames) => GatherShrinks(frames, n); Gather(frames, n)
  }

  lemma {:induction false} GatherShrinks(frames: seq<Frame>, n: nat)
    ensures var r := Gather(frames, n);
            r.Got? ==> |r.data| == n && r.rest.Ws? && |r.rest.frames| <= |frames|
                       && (n > 0 ==> |r.rest.frames| < |frames|)
  {
    if n > 0 && frames != [] {
      match frames[0]
      case Close =>
      case Control => GatherShrinks(frames[1..], n);
      case _ =>
        if |frames[0].payload| < n {
          GatherShrinks(frames[1..], n - |frames[0].payload|);
        }
    }
  }

  // ── What the server sends ──────────────────────────────────────────────────────

  datatype Message = Plain(bytes: Bytes) | TextMessage(text: Bytes) | BinaryMessage(data: Bytes)

  /** How `write_all` puts `data` on the wire. */
  function Framed(ws: bool, data: Bytes): Message {
    if !ws then Plain(data)
    else if |data| < 2 || |data| > CHUNK_SIZE - 3 then BinaryMessage(data)
    else TextMessage(Utf8.Lossy(data))
  }

  /** Every write went out as the message `write_all` makes of it. */
  predicate AllFramed(ws: bool, log: seq<Bytes>, wire: seq<Message>) {
    |log| == |wire| && forall i :: 0 <= i < |log| ==> wire[i] == Framed(ws, log[i])
  }

  /** The times from number `from` on are not before `gate`. */
  predicate NotBefore(times: seq<nat>, from: nat, gate: nat) {
    forall i :: from <= i < |times| ==> gate <= times[i]
  }

  lemma FramedSnoc(ws: bool, log: seq<Bytes>, wire: seq<Message>, data: Bytes)
    requires AllFramed(ws, log, wire)
    ensures AllFramed(ws, log + [data], wire + [Framed(ws, data)])
  {
  }

  lemma NotBeforeSnoc(times: seq<nat>, from: nat, gate: nat, now: nat)
    requires NotBefore(times, from, gate) && gate <= now
    ensures NotBefore(times + [now], from, gate)
  {
  }

  /** The last of the times is not after `now`. */
  predicate LastBy(times: seq<nat>, now: nat) {
    times != [] ==> times[|times| - 1] <= now
  }

  /** The time of something that may not have happened. */
  function Once(done: bool, t: nat): seq<nat> {
    if done then [t] else []
  }

  /**
   A stretch of work on a stream by the clock: when it began and ended, when its writes and its reads
   were over, and the reading `start` that its own times count from.
   */
  datatype Clocking = Clocking(begin: nat, start: nat, sent: seq<nat>, heard: seq<nat>, end: nat)

  predicate Sorted(xs: seq<nat>) {
    forall i, j :: 0 <= i < j < |xs| ==> xs[i] <= xs[j]
  }

  class Stream {
    const clock: Clock
    /** What the peer will still send. */
    var input: Input
    /** How many more writes will succeed before the transport fails. */
    var left: nat
    /** The data of every completed write, the message it became, and when it completed. */
    var log: seq<Bytes>
    var wire: seq<Message>
    var times: seq<nat>
    /** When the reads, successful or not, were over. */
    var heard: seq<nat>
    /** A write has failed, after `torn` had gone out. */
    var broken: bool
    var torn: Bytes
    /** What that write should have written. */
    ghost var attempt: Bytes

    /** No write from number `mark` on happens before the time `gate`. */
    ghost var mark: nat
    ghost var gate: nat

    ghost predicate Valid()
      reads this, clock
    {
      && AllFramed(input.Ws?, log, wire)
      && |times| == |log|
      && (broken ==> left == 0 && torn <= attempt)
      && NotBefore(times, mark, gate)
      && gate <= clock.now
      && LastBy(times, clock.now) && LastBy(heard, clock.now)
    }

    /** Time only passes, the variant and the gate stay, and each write that succeeds uses up one of those left. */
    twostate predicate Advanced()
      reads this, clock
    {
      && old(clock.now) <= clock.now
      && input.Ws? == old(input.Ws?)
      && left <= old(left) && left + |log| == old(left) + |old(log)|
      && mark == old(mark) && gate == old(gate)
    }

    /** The work that was done since then is the one that `c` clocks. */
    twostate predicate During(new c: Clocking)
      reads this, clock
    {
      && old(clock.now) == c.begin && clock.now == c.end
      && times == old(times) + c.sent && heard == old(heard) + c.heard
    }

    constructor (clock: Clock, input: Input, left: nat)
      ensures this.clock == clock && this.input == input && this.left == left
      ensures log == [] && !broken && Valid()
    {
      this.clock := clock;
      this.input := input;
      this.left := left;
      log, wire, times, heard := [], [], [], [];
      broken, torn, attempt := false, [], [];
      mark, gate := 0, 0;
    }

    /** All further writes happen now or later. */
    ghost method Open()
      requires Valid()
      modifies this`mark, this`gate
      ensures Valid() && mark == |log| && gate == clock.now
    {
      mark, gate := |log|, clock.now;
    }

    /** `write_all`: the data goes out as one message, or the write fails part-way. */
    method WriteAll(data: Bytes) returns (r: Status)
      requires Valid() && !broken
      modifies this, clock
      ensures Valid() && Advanced() && input == old(input)
      ensures r.Done? ==> log == old(log) + [data] && !broken && left < old(left)
      ensures r.Failed? ==> log == old(log) && broken && attempt == data && r.error == TransportFailed
      ensures times == old(times) + Once(r.Done?, clock.now) && heard == old(heard)
    {
      hide Framed;
      clock.Pass();
      if left == 0 {
        var n :| 0 <= n <= |data|;
        broken, torn, attempt := true, data[..n], data;
        assert times + [] == times;
        r := Failed(TransportFailed);
      } else {
        FramedSnoc(input.Ws?, log, wire, data);
        NotBeforeSnoc(times, mark, gate, clock.now);
        left := left - 1;
        log, wire, times := log + [data], wire + [Framed(input.Ws?, data)], times + [clock.now];
        r := Done;
      }
    }

    /** `read_line`. */
    method ReadLine() returns (r: Status, line: Bytes)
      requires Valid()
      modifies this`input, this`heard, clock
      ensures Valid() && Advanced() && heard == old(heard) + [clock.now]
      ensures match TakeLine(old(input))
              case Got(data, rest) => r.Done? && line == data && input == rest
              case Failure(e) => r == Failed(e)
    {
      clock.Pass();
      heard := heard + [clock.now];
      if input.Ws? {
        r, line := ReadFrameLine();
        return;
      }
      match TakeRawLine(input.bytes, input.cut) {
        case Failure(e) => return Failed(e), [];
        case Got(data, rest) =>
          input := rest;
          return Done, data;
      }
    }

    /** The WebSocket branch of `read_line`: skip control frames. */
    method ReadFrameLine() returns (r: Status, line: Bytes)
      requires input.Ws?
      modifies this`input
      ensures input.Ws?
      ensures match TakeFrameLine(old(input.frames))
              case Got(data, rest) => r.Done? && line == data && input == rest
              case Failure(e) => r == Failed(e)
    {
      while input.frames != []
        invariant input.Ws?
        invariant TakeFrameLine(input.frames) == TakeFrameLine(old(input.frames))
        decreases |input.frames|
      {
        var frame := input.frames[0];
        input := Ws(input.frames[1..]);
        match frame {
          case Close => return Failed(ConnectionClosed), [];
          case Control => continue;
          case _ => return Done, FrameLine(frame);
        }
      }
      return Failed(TransportFailed), [];
    }

    /** `read_exact`: fill the whole buffer; the unused rest of the last frame is dropped. */
    method ReadExact(buf: array<Byte>) returns (r: Status)
      requires Valid() && buf.Length > 0
      modifies this`input, this`heard, clock, buf
      ensures Valid() && Advanced() && heard == old(heard) + [clock.now]
      ensures match TakeExact(old(input), buf.Length)
              case Got(data, rest) => r.Done? && buf[..] == data && input == rest
              case Failure(e) => r == Failed(e)
    {
      clock.Pass();
      heard := heard + [clock.now];
      if input.Raw? {
        if |input.bytes| < buf.Length {
          return Failed(if input.cut then TransportFailed else ConnectionClosed);
        }
        forall i | 0 <= i < buf.Length {
          buf[i] := input.bytes[i];
        }
        input := Raw(input.bytes[buf.Length..], input.cut);
        return Done;
      }
      r := ReadFrames(buf);
    }

    /** The WebSocket branch of `read_exact`. */
    method ReadFrames(buf: array<Byte>) returns (r: Status)
      requires input.Ws?
      modifies this`input, buf
      ensures input.Ws?
      ensures match Gather(old(input.frames), buf.Length)
              case Got(data, rest) => r.Done? && buf[..] == data && input == rest
              case Failure(e) => r == Failed(e)
    {
      hide Gather, Resumes;
      var filled: nat := 0;
      ResumesAtStart(input.frames, buf.Length);
      while filled < buf.Length
        invariant input.Ws? && filled <= buf.Length
        invariant Resumes(old(input.frames), buf.Length, buf[..filled], input.frames)
        decreases |input.frames|
      {
        ghost var frames := input.frames;
        ResumesControl(old(input.frames), buf.Length, buf[..filled], frames);
        if input.frames == [] {
          return Failed(TransportFailed);
        }
        var frame := input.frames[0];
        input := Ws(input.frames[1..]);
        match frame {
          case Close => return Failed(ConnectionClosed);
          case Control => continue;
          case _ =>
            ResumesData(old(input.frames), buf.Length, buf[..filled], frames);
            filled := CopyInto(buf, filled, frame.payload);
        }
      }
      assert buf[..filled] == buf[..];
      ResumesAtEnd(old(input.frames), buf.Length, buf[..filled], input.frames);
      return Done;
    }
  }

  /** Copy as much of `data` as fits behind the filled part of the buffer. */
  method CopyInto(buf: array<Byte>, filled: nat, data: Bytes) returns (end: nat)
    requires filled <= buf.Length
    modifies buf
    ensures end == filled + (if |data| <= buf.Length - filled then |data| else buf.Length - filled)
    ensures buf[..end] == old(buf[..filled]) + data[..end - filled]
  {
    var n := if |data| <= buf.Length - filled then |data| else buf.Length - filled;
    forall i | 0 <= i < n {
      buf[filled + i] := data[i];
    }
    end := filled + n;
  }

  /** With `head` already gathered, gathering the rest from `frames` gives what `start` gave. */
  ghost predicate Resumes(start: seq<Frame>, n: nat, head: Bytes, frames: seq<Frame>)
  {
    && |head| <= n
    && Gather(start, n) == match Gather(frames, n - |head|)
                           case Failure(e) => Failure(e)
                           case Got(d, rest) => Got(head + d, rest)
  }

  lemma ResumesAtStart(frames: seq<Frame>, n: nat)
    ensures Resumes(frames, n, [], frames)
  {
    hide Gather;
    match Gather(frames, n)
    case Failure(_) =>
    case Got(d, _) => assert [] + d == d;
  }

  lemma ResumesAtEnd(start: seq<Frame>, n: nat, head: Bytes, frames: seq<Frame>)
    requires Resumes(start, n, head, frames) && |head| == n
    ensures Gather(start, n) == Got(head, Ws(frames))
  {
    assert head + [] == head;
  }

  lemma ResumesControl(start: seq<Frame>, n: nat, head: Bytes, frames: seq<Frame>)
    requires Resumes(start, n, head, frames) && |head| < n
    ensures frames == [] ==> Gather(start, n) == Failure(TransportFailed)
    ensures frames != [] && frames[0].Close? ==> Gather(start, n) == Failure(ConnectionClosed)
    ensures frames != [] && frames[0].Control? ==> Resumes(start, n, head, frames[1..])
  {
  }

  lemma ResumesData(start: seq<Frame>, n: nat, head: Bytes, frames: seq<Frame>)
    requires Resumes(start, n, head, frames) && |head| < n && frames != [] && frames[0].IsData()
    ensures var p := frames[0].payload;
            var k := if |p| <= n - |head| then |p| else n - |head|;
            Resumes(start, n, head + p[..k], frames[1..])
  {
    var p := frames[0].payload;
    if |p| < n - |head| {
      assert p[..|p|] == p;
      match Gather(frames[1..], n - |head| - |p|)
      case Failure(_) =>
      case Got(d, _) => assert head + (p + d) == (head + p) + d;
    } else {
      assert Gather(frames[1..], 0) == Got([], Ws(frames[1..]));
      assert head + p[..n - |head|] + [] == head + p[..n - |head|];
    }
  }
}
