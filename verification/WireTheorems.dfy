/** The form of a session on the wire: which messages carry its lines and chunks over WebSocket. */
module WireTheorems {
  import opened Text
  import opened Streams
  import opened Transfer
  import opened Session
  import SessionTheorems
  import StreamTheorems
  import Utf8

  function Pow10(k: nat): nat {
    if k == 0 then 1 else 10 * Pow10(k - 1)
  }

  lemma {:induction false} DigitsLength(n: nat, k: nat)
    requires k > 0 && n < Pow10(k)
    ensures |Digits(n)| <= k
  {
    if n >= 10 {
      assert Pow10(k) == 10 * Pow10(k - 1);
      DigitsLength(n / 10, k - 1);
    }
  }

  /** Chunks travel as binary messages and lines as text messages, with unchanged bytes. */
  predicate Travels(w: Bytes) {
    Framed(true, w) == if IsChunk(w) then BinaryMessage(w) else TextMessage(w)
  }

  /** A line of the protocol: short, and with its only line feed at the end. */
  predicate ProtocolLine(w: Bytes) {
    && StreamTheorems.TextLine(w) && |w| <= MAX_LINE_LENGTH && w[|w| - 1] == '\n'
    && forall i :: 0 <= i < |w| - 1 ==> w[i] != '\n' && w[i] != '\r'
  }

  /** Nothing but chunks and protocol lines is written. */
  predicate Clear(w: Bytes) {
    if IsChunk(w) then |w| >= CHUNK_SIZE else ProtocolLine(w)
  }

  lemma ClearTravels(w: Bytes)
    requires Clear(w)
    ensures Travels(w)
  {
    StreamTheorems.MessagesCarryTheData(w);
  }

  lemma AllClearTravel(log: seq<Bytes>)
    requires All(Clear, log)
    ensures All(Travels, log)
  {
    hide Clear, Travels;
    forall i | 0 <= i < |log| ensures Travels(log[i]) {
      assert Clear(log[i]);
      ClearTravels(log[i]);
    }
  }

  /** The numbers of an exchange fit Rust's `u128`, as the elapsed times and byte counts do. */
  predicate Fits(n: nat) {
    n < Pow10(39)
  }

  predicate NumbersFit(x: Exchange) {
    match x
    case Downloaded(_, _, _, _, answer) => answer.Some? ==> Fits(answer.value)
    case Uploaded(size, _, reports, stamps, total) =>
      Fits(total) && (reports ==> forall r :: r in Reports(stamps, size) ==> Fits(r.ns) && Fits(r.bytes))
    case Pinged(ns) => ns.Some? ==> Fits(ns.value)
    case _ => true
  }

  lemma LineTravels(w: Bytes)
    requires StreamTheorems.TextLine(w) && !IsChunk(w)
    ensures Travels(w)
  {
    StreamTheorems.MessagesCarryTheData(w);
  }

  /** Visible ASCII characters and spaces. */
  predicate Visible(s: Bytes) {
    forall i :: 0 <= i < |s| ==> 0x20 <= s[i] as int < 0x80
  }

  lemma VisibleConcat(a: Bytes, b: Bytes)
    requires Visible(a) && Visible(b)
    ensures Visible(a + b)
  {
  }

  lemma VisibleDigits(n: nat)
    ensures Visible(Digits(n))
  {
    assert forall i :: 0 <= i < |Digits(n)| ==> IsDigit(Digits(n)[i]);
  }

  lemma VisibleLine(s: Bytes)
    requires Visible(s) && 1 <= |s| < MAX_LINE_LENGTH
    ensures Clear(s + "\n")
  {
  }

  lemma TimeLineClear(ns: nat)
    requires Fits(ns)
    ensures Clear(TimeLine(ns))
  {
    hide Clear, Visible;
    DigitsLength(ns, 39);
    VisibleDigits(ns);
    VisibleWords();
    VisibleConcat("TIME ", Digits(ns));
    VisibleLine("TIME " + Digits(ns));
  }

  lemma VisibleWords()
    ensures Visible("TIME ") && Visible(" BYTES ")
  {
  }

  lemma ReportLineClear(r: Report)
    requires Fits(r.ns) && Fits(r.bytes)
    ensures Clear(ReportLine(r))
  {
    hide Clear, Visible;
    DigitsLength(r.ns, 39);
    DigitsLength(r.bytes, 39);
    VisibleDigits(r.ns);
    VisibleDigits(r.bytes);
    VisibleWords();
    VisibleConcat("TIME ", Digits(r.ns));
    VisibleConcat("TIME " + Digits(r.ns), " BYTES ");
    VisibleConcat("TIME " + Digits(r.ns) + " BYTES ", Digits(r.bytes));
    VisibleLine("TIME " + Digits(r.ns) + " BYTES " + Digits(r.bytes));
  }

  lemma OkClear()
    ensures Clear(OK)
  {
  }

  lemma ErrClear()
    ensures Clear(ERR)
  {
  }

  lemma PongClear()
    ensures Clear(PONG)
  {
  }

  lemma ByeClear()
    ensures Clear(BYE)
  {
  }

  lemma AcceptClear()
    ensures Clear(ACCEPT)
  {
  }

  lemma ChunkClear(filler: Filler, size: nat, terminal: bool)
    requires ValidSize(size)
    ensures Clear(Chunk(filler, size, terminal))
  {
    StreamTheorems.MessagesCarryTheData(Chunk(filler, size, terminal));
  }

  lemma FinalClear(answer: Option<nat>)
    requires answer.Some? ==> Fits(answer.value)
    ensures Clear(Final(answer))
  {
    ErrClear();
    if answer.Some? {
      TimeLineClear(answer.value);
    }
  }

  predicate All<T>(p: T -> bool, s: seq<T>) {
    forall i :: 0 <= i < |s| ==> p(s[i])
  }

  lemma AllConcat<T>(p: T -> bool, s: seq<T>, t: seq<T>)
    requires All(p, s) && All(p, t)
    ensures All(p, s + t)
  {
  }

  lemma AllOne<T>(p: T -> bool, x: T)
    requires p(x)
    ensures All(p, [x])
  {
  }

  lemma ReplyClear(filler: Filler, x: Exchange)
    requires WellFormed(x) && NumbersFit(x)
    ensures All(Clear, Reply(filler, x))
  {
    match x
    case Refused(_) =>
      ErrClear();
      AllOne(Clear, ERR);
    case Closed =>
      ByeClear();
      AllOne(Clear, BYE);
    case Pinged(ns) =>
      PongClear();
      FinalClear(ns);
      AllOne(Clear, PONG);
      AllOne(Clear, Final(ns));
      AllConcat(Clear, [PONG], [Final(ns)]);
    case Downloaded(size, count, _, _, answer) =>
      ChunksClear(filler, size, count);
      FinalClear(answer);
      AllOne(Clear, Final(answer));
      AllConcat(Clear, Chunks(filler, size, count), [Final(answer)]);
    case Uploaded(size, _, reports, stamps, total) =>
      OkClear();
      TimeLineClear(total);
      ProgressClear(reports, stamps, size);
      AllOne(Clear, OK);
      AllOne(Clear, TimeLine(total));
      AllConcat(Clear, [OK], Progress(reports, stamps, size));
      AllConcat(Clear, [OK] + Progress(reports, stamps, size), [TimeLine(total)]);
  }

  lemma ChunksClear(filler: Filler, size: nat, count: nat)
    requires ValidSize(size)
    ensures All(Clear, Chunks(filler, size, count))
  {
    forall i | 0 <= i < count ensures Clear(Chunks(filler, size, count)[i]) {
      ChunkClear(filler, size, i == count - 1);
    }
  }

  lemma ProgressClear(reports: bool, stamps: seq<nat>, size: nat)
    requires reports ==> forall r :: r in Reports(stamps, size) ==> Fits(r.ns) && Fits(r.bytes)
    ensures All(Clear, Progress(reports, stamps, size))
  {
    if reports {
      var rs := Reports(stamps, size);
      forall i | 0 <= i < |rs| ensures Clear(ReportLines(rs)[i]) {
        assert rs[i] in rs;
        ReportLineClear(rs[i]);
      }
    }
  }

  /** A session writes nothing but chunks and protocol lines. */
  lemma {:induction false} TranscriptClear(filler: Filler, h: seq<Exchange>)
    requires AllWellFormed(h) && forall i :: 0 <= i < |h| ==> NumbersFit(h[i])
    ensures All(Clear, Transcript(filler, h))
  {
    if h != [] {
      var before, reply := Transcript(filler, h[..|h| - 1]), Reply(filler, h[|h| - 1]);
      TranscriptClear(filler, h[..|h| - 1]);
      AcceptClear();
      ReplyClear(filler, h[|h| - 1]);
      AllOne(Clear, ACCEPT);
      AllConcat(Clear, [ACCEPT], reply);
      AllConcat(Clear, before, [ACCEPT] + reply);
    }
  }

  /** The elapsed times and byte counts of a server fit. */
  lemma U128Fits(n: nat)
    requires n <= NO_PING
    ensures Fits(n)
  {
    assert Pow10(13) == 10_000_000_000_000;
    assert Pow10(26) == 100_000_000_000_000_000_000_000_000;
    assert Pow10(39) == 1_000_000_000_000_000_000_000_000_000_000_000_000_000;
  }

  // ── How much a peer sends ──────────────────────────────────────────────────────

  function FrameBytes(frames: seq<Frame>): nat {
    if frames == [] then 0 else |PayloadOf(frames[0])| + FrameBytes(frames[1..])
  }

  /** The bytes that the peer will still send. */
  function Weight(input: Input): nat {
    match input
    case Raw(b, _) => |b|
    case Ws(frames) => FrameBytes(frames)
  }

  lemma {:induction false} TakeFrameLineWeight(frames: seq<Frame>)
    ensures TakeFrameLine(frames).Got? ==> Weight(TakeFrameLine(frames).rest) <= FrameBytes(frames)
  {
    if frames != [] && frames[0].Control? {
      TakeFrameLineWeight(frames[1..]);
    }
  }

  lemma TakeLineWeight(input: Input)
    ensures TakeLine(input).Got? ==> Weight(TakeLine(input).rest) <= Weight(input)
  {
    if input.Ws? {
      TakeFrameLineWeight(input.frames);
    }
  }

  lemma {:induction false} GatherWeight(frames: seq<Frame>, n: nat)
    ensures Gather(frames, n).Got? ==> n + Weight(Gather(frames, n).rest) <= FrameBytes(frames)
  {
    if n > 0 && frames != [] {
      match frames[0]
      case Close =>
      case Control => GatherWeight(frames[1..], n);
      case _ =>
        if |frames[0].payload| < n {
          GatherWeight(frames[1..], n - |frames[0].payload|);
        }
    }
  }

  lemma TakeExactWeight(input: Input, n: nat)
    requires n > 0
    ensures TakeExact(input, n).Got? ==> n + Weight(TakeExact(input, n).rest) <= Weight(input)
  {
    if input.Ws? {
      GatherWeight(input.frames, n);
    }
  }

  /** The chunks that are received were sent. */
  lemma {:induction false} ReceiveWeight(input: Input, size: nat)
    requires size > 0
    ensures var r := Receive(input, size);
            size * |r.chunks| + (if r.Complete? then Weight(r.rest) else 0) <= Weight(input)
    decreases input.Size()
  {
    var taken := TakeExact(input, size);
    if taken.Got? {
      TakeExactWeight(input, size);
      ReceiveGot(input, size, taken.data, taken.rest);
      if !IsTerminal(taken.data) {
        ReceiveWeight(taken.rest, size);
        MulSnoc(size, |Receive(taken.rest, size).chunks|);
      }
    }
  }

  /** Reports tell no more bytes than `limit`. */
  predicate Bounded(x: Exchange, limit: nat) {
    x.Uploaded? && x.reports ==> x.size * |x.stamps| <= limit
  }

  lemma CompletionWeight(p: Point, request: Request, x: Exchange, q: Point)
    requires Completion(x, q) in Completions(p, request)
    ensures Weight(q.input) <= Weight(p.input) && Bounded(x, Weight(p.input))
  {
    hide Receive, TakeExact, TakeLine;
    TakeLineWeight(p.input);
    match request
    case GetTime(_, _) =>
    case GetChunks(_, _) =>
    case Put(_, _) =>
      if x.Uploaded? {
        ReceiveWeight(p.input, x.size);
      }
    case Ping =>
    case Quit =>
    case Unknown =>
  }

  lemma StepWeight(p: Point, x: Exchange, q: Point)
    requires Step(Serves, p, x, q)
    ensures Weight(q.input) <= Weight(p.input) && Bounded(x, Weight(p.input))
  {
    hide Serves, Answers, Completions, TakeLine, Bounded, Weight;
    TakeLineWeight(p.input);
    var rest, request := SessionTheorems.StepAnswers(p, x, q);
    CompletionWeight(Point(p.size, rest), request, x, q);
    BoundedLess(x, Weight(rest), Weight(p.input));
  }

  lemma {:induction false} RunWeight(r: Run, i: nat)
    requires ValidRun(r) && i <= |r.exchanges|
    ensures Weight(r.points[i].input) <= Weight(r.points[0].input)
  {
    hide Serves, Weight;
    if i > 0 {
      RunWeight(r, i - 1);
      RunStep(r, i - 1);
      StepWeight(r.points[i - 1], r.exchanges[i - 1], r.points[i]);
    }
  }

  lemma BeginningWeight(p: Point, request: Request, b: Beginning)
    requires b in Beginnings(p, request) && WellFormed(b.x)
    ensures Bounded(b.x, Weight(p.input))
  {
    hide Receive, TakeExact, TakeLine;
    if request.Put? && b.x.Uploaded? {
      ReceiveWeight(p.input, b.x.size);
      CutWeight(p.input, b.x, b.transferred, b.n, b.broken, b.error);
    }
  }

  lemma CutWeight(input: Input, x: Exchange, received: bool, n: int, broken: bool, error: Error)
    requires x.Uploaded? && ValidSize(x.size) && x.size * |Receive(input, x.size).chunks| <= Weight(input)
    requires CutUpload(input, x.size, x.chunks, x.reports, x.stamps, received, n, broken, error)
    ensures Bounded(x, Weight(input))
  {
    hide Receive;
    if x.reports {
      var k := |Receive(input, x.size).chunks|;
      assert |x.stamps| <= k;
      MulMonotone(x.size, |x.stamps|, k);
    }
  }

  lemma MulMonotone(size: nat, a: nat, b: nat)
    requires a <= b
    ensures size * a <= size * b
  {
  }

  lemma InterruptionWeight(p: Point, c: Interruption)
    requires c in Interruptions(p) && WellFormed(c.x)
    ensures Bounded(c.x, Weight(p.input))
  {
    hide Beginnings;
    TakeLineWeight(p.input);
    if c.n > 0 && TakeLine(p.input).Got? {
      var (line, rest) := (TakeLine(p.input).data, TakeLine(p.input).rest);
      BeginningWeight(Point(p.size, rest), ParseRequest(line),
                      Beginning(c.x, c.phase.Transferred?, c.n - 1, c.broken, c.error));
      BoundedLess(c.x, Weight(rest), Weight(p.input));
    }
  }

  // ── Whole sessions ─────────────────────────────────────────────────────────────

  /** Times that fit Rust's `u128` and byte counts that fit its `u64` make lines that fit a message. */
  lemma NumbersOfExchange(x: Exchange)
    requires WellFormed(x) && Latest(x) <= NO_PING && Bounded(x, U64_MAX)
    ensures NumbersFit(x)
  {
    U128Fits(Latest(x));
    if x.Uploaded? && x.reports && x.stamps != [] {
      ReportsBounded(x.stamps, x.size, x.total);
      ReportsIncrease(x.stamps, x.size);
      forall r | r in Reports(x.stamps, x.size) ensures Fits(r.ns) && Fits(r.bytes) {
        U128Fits(r.ns);
        U128Fits(r.bytes);
      }
    }
  }

  lemma BoundedLess(x: Exchange, less: nat, limit: nat)
    requires Bounded(x, less) && less <= limit
    ensures Bounded(x, limit)
  {
  }

  lemma RunNumbers(r: Run, i: nat)
    requires ValidRun(r) && i < |r.exchanges|
    requires AllBy(r.exchanges, NO_PING) && Weight(r.points[0].input) <= U64_MAX
    ensures WellFormed(r.exchanges[i]) && NumbersFit(r.exchanges[i])
  {
    hide Serves, Weight, NumbersFit;
    RunWeight(r, i);
    RunStep(r, i);
    StepWeight(r.points[i], r.exchanges[i], r.points[i + 1]);
    BoundedLess(r.exchanges[i], Weight(r.points[i].input), U64_MAX);
    SessionTheorems.RunIsWhole(r);
    NumbersOfExchange(r.exchanges[i]);
  }

  lemma AllPrefix<T>(p: T -> bool, log: seq<T>, whole: seq<T>)
    requires log <= whole && All(p, whole)
    ensures All(p, log)
  {
  }

  /** Being a chunk or a protocol line is enough for `p`. */
  ghost predicate Suffices(p: Bytes -> bool) {
    forall w :: Clear(w) ==> p(w)
  }

  lemma AllSuffices(p: Bytes -> bool, log: seq<Bytes>)
    requires Suffices(p) && All(Clear, log)
    ensures All(p, log)
  {
    hide Clear;
  }

  /**
   What holds of `log0`, and of all chunks and protocol lines, holds of all that a session has written,
   broken off or not.
   */
  lemma StoryKeeps(p: Bytes -> bool, filler: Filler, story: Story, start: Point, log0: seq<Bytes>, r: Status,
                   log: seq<Bytes>, broken: bool, attempt: Bytes)
    requires Suffices(p) && Tells(filler, story, start, log0, r, log, broken, attempt) && All(p, log0)
    requires AllBy(story.run.exchanges, NO_PING) && Latest(story.cut) <= NO_PING && Weight(start.input) <= U64_MAX
    ensures All(p, log)
  {
    hide Serves, Interruptions, Clear, Suffices, NumbersFit, Weight, Bounded;
    var (run, h) := (story.run, story.run.exchanges);
    forall i | 0 <= i < |h| ensures NumbersFit(h[i]) {
      RunNumbers(run, i);
    }
    TranscriptClear(filler, h);
    AllSuffices(p, Transcript(filler, h));
    AllConcat(p, log0, Transcript(filler, h));
    if r.Failed? {
      var before := log0 + Transcript(filler, h);
      CutKeeps(p, filler, story, before, log, broken, attempt, r.error);
    }
  }

  lemma CutKeeps(p: Bytes -> bool, filler: Filler, story: Story, before: seq<Bytes>, log: seq<Bytes>, broken: bool,
                 attempt: Bytes, error: Error)
    requires ValidRun(story.run) && WellFormed(story.cut)
             && CutShort(story, before, filler, log, broken, attempt, error)
    requires Latest(story.cut) <= NO_PING && Weight(story.run.points[0].input) <= U64_MAX
    requires Suffices(p) && All(p, before)
    ensures All(p, log)
  {
    hide Serves, Interruptions, Clear, Suffices, NumbersFit, Weight, Bounded;
    var (k, reply) := (|story.run.exchanges|, Reply(filler, story.cut));
    var at := story.run.points[k];
    RunWeight(story.run, k);
    InterruptionWeight(at, Interruption(story.cut, story.phase, |log| - |before|, broken, error));
    BoundedLess(story.cut, Weight(at.input), U64_MAX);
    NumbersOfExchange(story.cut);
    ReplyClear(filler, story.cut);
    AcceptClear();
    AllOne(Clear, ACCEPT);
    AllConcat(Clear, [ACCEPT], reply);
    AllSuffices(p, [ACCEPT] + reply);
    AllConcat(p, before, [ACCEPT] + reply);
    AllPrefix(p, log, before + ([ACCEPT] + reply));
  }

  /** Whatever a session has written behind `log0`, broken off or not, travels unchanged. */
  lemma StoryTravels(filler: Filler, story: Story, start: Point, log0: seq<Bytes>, r: Status, log: seq<Bytes>,
                     broken: bool, attempt: Bytes)
    requires Tells(filler, story, start, log0, r, log, broken, attempt) && All(Travels, log0)
    requires AllBy(story.run.exchanges, NO_PING) && Latest(story.cut) <= NO_PING && Weight(start.input) <= U64_MAX
    ensures All(Travels, log)
  {
    hide Tells, Weight, Clear, Travels;
    forall w | Clear(w) ensures Travels(w) {
      ClearTravels(w);
    }
    StoryKeeps(Travels, filler, story, start, log0, r, log, broken, attempt);
  }

  // ── What the peer receives ─────────────────────────────────────────────────────

  function BytesOf(m: Message): Bytes {
    match m
    case Plain(bytes) => bytes
    case TextMessage(text) => text
    case BinaryMessage(data) => data
  }

  /** All bytes that went out, in order. */
  function BytesOut(wire: seq<Message>): Bytes {
    if wire == [] then [] else BytesOf(wire[0]) + BytesOut(wire[1..])
  }

  /** Over the raw transport every write goes out as it is, whatever it is. */
  lemma RawIsPlain(log: seq<Bytes>, wire: seq<Message>)
    requires AllFramed(false, log, wire)
    ensures |wire| == |log| && forall i :: 0 <= i < |log| ==> wire[i] == Plain(log[i])
  {
  }

  /** No byte is lost or added: what goes out is what was written, in both variants. */
  lemma {:induction false} BytesAreSent(ws: bool, log: seq<Bytes>, wire: seq<Message>)
    requires AllFramed(ws, log, wire) && (ws ==> All(Travels, log))
    ensures BytesOut(wire) == Flatten(log)
  {
    if log != [] {
      assert wire[0] == Framed(ws, log[0]) && (ws ==> Travels(log[0]));
      forall i | 0 <= i < |log| - 1 ensures wire[1..][i] == Framed(ws, log[1..][i]) {
        assert wire[1..][i] == wire[i + 1] && log[1..][i] == log[i + 1];
      }
      BytesAreSent(ws, log[1..], wire[1..]);
    }
  }

  /** The messages as frames that a WebSocket peer receives. */
  function FrameOf(m: Message): Frame {
    match m
    case Plain(bytes) => Binary(bytes)
    case TextMessage(text) => Frame.Text(text)
    case BinaryMessage(data) => Binary(data)
  }

  function FramesOf(wire: seq<Message>): seq<Frame> {
    if wire == [] then [] else [FrameOf(wire[0])] + FramesOf(wire[1..])
  }

  /** What the peer can read once all this went out. */
  function Incoming(ws: bool, wire: seq<Message>, cut: bool): Input {
    if ws then Ws(FramesOf(wire)) else Raw(BytesOut(wire), cut)
  }

  /** A peer that reads a block for each chunk and a line for everything else gets exactly the log. */
  predicate ReadsBack(input: Input, log: seq<Bytes>)
    decreases |log|
  {
    log == [] ||
    var w := log[0];
    if w == [] then false
    else if IsChunk(w) then
      match TakeExact(input, |w|)
      case Got(data, rest) => data == w && ReadsBack(rest, log[1..])
      case Failure(_) => false
    else
      match TakeLine(input)
      case Got(line, rest) => line + "\n" == w && ReadsBack(rest, log[1..])
      case Failure(_) => false
  }

  lemma ClearLine(w: Bytes)
    requires Clear(w) && !IsChunk(w)
    ensures var line := w[..|w| - 1]; StreamTheorems.Sendable(line) && '\n' !in line && w == line + "\n"
  {
    Utf8.AsciiIsValid(w[..|w| - 1]);
  }

  /** The first of the writes is read back, over the raw transport. */
  lemma FirstReadBackRaw(w: Bytes, rest: Bytes, cut: bool)
    requires Clear(w)
    ensures IsChunk(w) ==> TakeExact(Raw(w + rest, cut), |w|) == Got(w, Raw(rest, cut))
    ensures !IsChunk(w) ==> TakeLine(Raw(w + rest, cut)) == Got(w[..|w| - 1], Raw(rest, cut))
  {
    if IsChunk(w) {
      assert (w + rest)[..|w|] == w && (w + rest)[|w|..] == rest;
    } else {
      ClearLine(w);
      StreamTheorems.LineReadBack(w[..|w| - 1], rest, cut);
    }
  }

  lemma {:induction false} ReadsBackRaw(log: seq<Bytes>, cut: bool)
    requires All(Clear, log)
    ensures ReadsBack(Raw(Flatten(log), cut), log)
  {
    hide Clear, TakeExact, TakeLine;
    if log != [] {
      assert Clear(log[0]) && forall i :: 0 <= i < |log| - 1 ==> log[1..][i] == log[i + 1];
      ReadsBackRaw(log[1..], cut);
      ClearNotEmpty(log[0]);
      FirstReadBackRaw(log[0], Flatten(log[1..]), cut);
    }
  }

  lemma ClearNotEmpty(w: Bytes)
    requires Clear(w)
    ensures w != [] && w[..|w| - 1] + [w[|w| - 1]] == w && (!IsChunk(w) ==> w[|w| - 1] == '\n')
  {
  }

  /** The same over WebSocket, where each message is a frame. */
  lemma FirstReadBackWs(w: Bytes, rest: seq<Frame>)
    requires Clear(w)
    ensures var frames := [FrameOf(Framed(true, w))] + rest;
            && (IsChunk(w) ==> TakeExact(Ws(frames), |w|) == Got(w, Ws(rest)))
            && (!IsChunk(w) ==> TakeLine(Ws(frames)) == Got(w[..|w| - 1], Ws(rest)))
  {
    var frames := [FrameOf(Framed(true, w))] + rest;
    assert frames[1..] == rest;
    ClearTravels(w);
    if IsChunk(w) {
      assert w[..|w|] == w;
    } else {
      ClearLine(w);
      StreamTheorems.FrameLineReadBack(w[..|w| - 1]);
    }
  }

  lemma {:induction false} ReadsBackWs(log: seq<Bytes>, wire: seq<Message>)
    requires AllFramed(true, log, wire) && All(Clear, log)
    ensures ReadsBack(Ws(FramesOf(wire)), log)
  {
    hide Clear, TakeExact, TakeLine, Framed;
    if log != [] {
      assert Clear(log[0]) && forall i :: 0 <= i < |log| - 1 ==>
               log[1..][i] == log[i + 1] && wire[1..][i] == wire[i + 1];
      ReadsBackWs(log[1..], wire[1..]);
      ClearNotEmpty(log[0]);
      FirstReadBackWs(log[0], FramesOf(wire[1..]));
    }
  }

  /** In both variants a peer reads back exactly the chunks and lines that were written. */
  lemma PeerReadsLog(ws: bool, log: seq<Bytes>, wire: seq<Message>, cut: bool)
    requires AllFramed(ws, log, wire) && All(Clear, log)
    ensures BytesOut(wire) == Flatten(log) && ReadsBack(Incoming(ws, wire, cut), log)
  {
    hide Clear, Travels, ReadsBack;
    AllClearTravel(log);
    BytesAreSent(ws, log, wire);
    if ws {
      ReadsBackWs(log, wire);
    } else {
      ReadsBackRaw(log, cut);
    }
  }
}
