/** What every session guarantees about chunk sizes and accounting, however it ends. */
module SessionTheorems {
  import opened Text
  import opened Streams
  import opened Transfer
  import opened Session

  // ── The chunk size ─────────────────────────────────────────────────────────────

  /** The valid chunk size that a request asks for, whatever else is wrong with it. */
  function AskedIn(request: Request): Option<nat> {
    match request
    case GetTime(_, chunk) => ParseChunkSize(chunk)
    case GetChunks(_, chunk) => ParseChunkSize(chunk)
    case Put(chunk, _) => ParseChunkSize(chunk)
    case _ => None
  }

  /** The valid chunk size that the next line asks for. */
  function Asked(input: Input): Option<nat> {
    match TakeLine(input)
    case Got(line, _) => AskedIn(ParseRequest(line))
    case Failure(_) => None
  }

  /** The last size that was asked for, or the default. */
  function LastAsked(asked: seq<Option<nat>>): nat {
    if asked == [] then CHUNK_SIZE
    else match asked[|asked| - 1]
      case Some(s) => s
      case None => LastAsked(asked[..|asked| - 1])
  }

  /** What `ask` finds at each of the points. */
  function AllAsked(ask: Input -> Option<nat>, points: seq<Point>): (r: seq<Option<nat>>)
    ensures |r| == |points|
  {
    seq(|points|, i requires 0 <= i < |points| => ask(points[i].input))
  }

  /** The size after a command with this chunk size argument. */
  function SizeAfter(chunk: Bytes, size: nat): nat {
    match ParseChunkSize(chunk)
    case Some(s) => s
    case None => size
  }

  lemma NegotiatedSize(chunk: Bytes, size: nat)
    ensures Negotiate(chunk, size) == None ==> SizeAfter(chunk, size) == size
    ensures Negotiate(chunk, size).Some? ==> Negotiate(chunk, size).value == SizeAfter(chunk, size)
  {
    assert ParseChunkSize([]) == None;
  }

  lemma SizeOfGetTime(p: Point, seconds: Bytes, chunk: Bytes, x: Exchange, q: Point)
    requires ServesGetTime(p, seconds, chunk, x, q)
    ensures q.size == SizeAfter(chunk, p.size) && (x.Downloaded? || x.Uploaded? ==> x.size == q.size)
  {
    NegotiatedSize(chunk, p.size);
  }

  lemma SizeOfGetChunks(p: Point, count: Bytes, chunk: Bytes, x: Exchange, q: Point)
    requires ServesGetChunks(p, count, chunk, x, q)
    ensures q.size == SizeAfter(chunk, p.size) && (x.Downloaded? || x.Uploaded? ==> x.size == q.size)
  {
    NegotiatedSize(chunk, p.size);
  }

  lemma SizeOfPut(p: Point, chunk: Bytes, reports: bool, x: Exchange, q: Point)
    requires ServesPut(p, chunk, reports, x, q)
    ensures q.size == SizeAfter(chunk, p.size) && (x.Downloaded? || x.Uploaded? ==> x.size == q.size)
    ensures x.Uploaded? ==>
              x.size > 0 && Receive(p.input, x.size).Complete? && x.chunks == Receive(p.input, x.size).chunks
  {
    NegotiatedSize(chunk, p.size);
  }

  lemma SizeOfAnswer(p: Point, request: Request, x: Exchange, q: Point)
    requires Answers(p, request, x, q)
    ensures q.size == match AskedIn(request) case Some(s) => s case None => p.size
    ensures x.Downloaded? || x.Uploaded? ==> x.size == q.size
  {
    match request
    case GetTime(seconds, chunk) => SizeOfGetTime(p, seconds, chunk, x, q);
    case GetChunks(count, chunk) => SizeOfGetChunks(p, count, chunk, x, q);
    case Put(chunk, reports) => SizeOfPut(p, chunk, reports, x, q);
    case Ping =>
    case Quit =>
    case Unknown =>
  }

  /** The command that a step answers. */
  lemma StepAnswers(p: Point, x: Exchange, q: Point) returns (rest: Input, request: Request)
    requires Step(Serves, p, x, q)
    ensures TakeLine(p.input).Got? && rest == TakeLine(p.input).rest
    ensures request == ParseRequest(TakeLine(p.input).data)
    ensures Answers(Point(p.size, rest), request, x, q) && Asked(p.input) == AskedIn(request)
    ensures Completion(x, q) in Completions(Point(p.size, rest), request)
  {
    var taken := TakeLine(p.input);
    rest, request := taken.rest, ParseRequest(taken.data);
    IsCompletion(Point(p.size, rest), request, x, q);
  }

  /** The size after a command: the one it asks for, or no change. */
  function Updated(asked: Option<nat>, size: nat): nat {
    match asked
    case Some(s) => s
    case None => size
  }

  /** One exchange: the size asked for, or no change. */
  lemma SizeOfStep(p: Point, x: Exchange, q: Point)
    requires Serves(p, x, q)
    ensures q.size == Updated(Asked(p.input), p.size)
    ensures x.Downloaded? || x.Uploaded? ==> x.size == q.size
  {
    var rest, request := StepAnswers(p, x, q);
    SizeOfAnswer(Point(p.size, rest), request, x, q);
  }

  /** Between two points the size changes as asked for at the first, to a valid one. */
  predicate Linked(ask: Input -> Option<nat>, p: Point, q: Point) {
    q.size == Updated(ask(p.input), p.size) && (ask(p.input).Some? ==> ValidSize(ask(p.input).value))
  }

  lemma {:induction false} SizesFollow(ask: Input -> Option<nat>, points: seq<Point>, n: nat)
    requires n < |points| && points[0].size == CHUNK_SIZE
    requires forall i {:trigger points[i]} :: 0 <= i < n ==> Linked(ask, points[i], points[i + 1])
    ensures points[n].size == LastAsked(AllAsked(ask, points[..n])) && ValidSize(points[n].size)
  {
    if n > 0 {
      SizesFollow(ask, points, n - 1);
      assert Linked(ask, points[n - 1], points[(n - 1) + 1]);
      assert AllAsked(ask, points[..n])[..n - 1] == AllAsked(ask, points[..n - 1]);
    }
  }

  lemma StepIsLinked(p: Point, x: Exchange, q: Point)
    requires Serves(p, x, q)
    ensures Linked(Asked, p, q)
  {
    SizeOfStep(p, x, q);
    AskedIsValid(p.input);
  }

  lemma RunIsLinked(r: Run, i: nat)
    requires ValidRun(r) && i < |r.exchanges|
    ensures Linked(Asked, r.points[i], r.points[i + 1])
  {
    assert Serves(r.points[i], r.exchanges[i], r.points[i + 1]);
    StepIsLinked(r.points[i], r.exchanges[i], r.points[i + 1]);
  }

  /** The chunk size is always the last valid argument seen, or 4096, and within the limits. */
  lemma SizeIsLastAsked(r: Run, n: nat)
    requires ValidRun(r) && r.points[0].size == CHUNK_SIZE && n <= |r.exchanges|
    ensures r.points[n].size == LastAsked(AllAsked(Asked, r.points[..n])) && ValidSize(r.points[n].size)
  {
    forall i | 0 <= i < n ensures Linked(Asked, r.points[i], r.points[i + 1]) {
      RunIsLinked(r, i);
    }
    SizesFollow(Asked, r.points, n);
  }

  lemma AskedIsValid(input: Input)
    ensures Asked(input).Some? ==> ValidSize(Asked(input).value)
  {
  }

  // ── Accounting ─────────────────────────────────────────────────────────────────

  /** The chunks the client uploaded, one after the other. */
  function UploadedChunks(h: seq<Exchange>): seq<Bytes> {
    if h == [] then [] else
    UploadedChunks(h[..|h| - 1]) + match h[|h| - 1] case Uploaded(_, chunks, _, _, _) => chunks case _ => []
  }

  /** The round-trip times that were reported. */
  function Pings(h: seq<Exchange>): seq<nat> {
    if h == [] then [] else
    Pings(h[..|h| - 1]) + match h[|h| - 1] case Pinged(Some(ns)) => [ns] case _ => []
  }

  /** The exchanges that were tests. */
  function Tests(h: seq<Exchange>): seq<Exchange> {
    if h == [] then [] else
    Tests(h[..|h| - 1]) + if IsTest(h[|h| - 1]) then [h[|h| - 1]] else []
  }

  predicate IsLeast(m: nat, s: seq<nat>) {
    m in s && forall x :: x in s ==> m <= x
  }

  predicate IsGreatest(m: nat, s: seq<nat>) {
    m in s && forall x :: x in s ==> x <= m
  }

  lemma {:induction false} FlattenConcat(a: seq<Bytes>, b: seq<Bytes>)
    ensures Flatten(a + b) == Flatten(a) + Flatten(b)
  {
    if a == [] {
      assert a + b == b;
    } else {
      assert (a + b)[0] == a[0] && (a + b)[1..] == a[1..] + b;
      FlattenConcat(a[1..], b);
    }
  }

  /** Each upload holds what `Receive` delivers: chunks of one size. */
  predicate Whole(x: Exchange) {
    x.Uploaded? ==> forall i :: 0 <= i < |x.chunks| ==> |x.chunks[i]| == x.size
  }

  lemma AnswerIsWhole(p: Point, request: Request, x: Exchange, q: Point)
    requires Answers(p, request, x, q)
    ensures WellFormed(x) && Whole(x)
  {
    match request
    case GetTime(_, _) =>
    case GetChunks(_, _) =>
    case Put(chunk, reports) =>
      SizeOfPut(p, chunk, reports, x, q);
      if x.Uploaded? {
        ReceivedIsChunkStream(p.input, x.size);
      }
    case Ping =>
    case Quit =>
    case Unknown =>
  }

  lemma RunIsWhole(r: Run)
    requires ValidRun(r)
    ensures AllWellFormed(r.exchanges) && forall i :: 0 <= i < |r.exchanges| ==> Whole(r.exchanges[i])
  {
    forall i | 0 <= i < |r.exchanges| ensures WellFormed(r.exchanges[i]) && Whole(r.exchanges[i]) {
      assert Serves(r.points[i], r.exchanges[i], r.points[i + 1]);
      var rest, request := StepAnswers(r.points[i], r.exchanges[i], r.points[i + 1]);
      AnswerIsWhole(Point(r.points[i].size, rest), request, r.exchanges[i], r.points[i + 1]);
    }
  }

  /** Bytes are conserved: what is accounted as uploaded is what the client's chunks hold. */
  lemma {:induction false} UploadBytesAreChunkBytes(h: seq<Exchange>)
    requires forall i :: 0 <= i < |h| ==> Whole(h[i])
    ensures AccountAll(NO_STATS, h).uploadBytes == |Flatten(UploadedChunks(h))|
  {
    if h != [] {
      var n := |h| - 1;
      UploadBytesAreChunkBytes(h[..n]);
      if h[n].Uploaded? {
        FlattenConcat(UploadedChunks(h[..n]), h[n].chunks);
        FlattenLength(h[n].chunks, h[n].size);
      } else {
        assert UploadedChunks(h) == UploadedChunks(h[..n]);
      }
    }
  }

  /** Bytes are conserved: what is accounted as downloaded is what the transcript holds in chunks. */
  lemma {:induction false} DownloadBytesAreChunkBytes(filler: Filler, h: seq<Exchange>)
    requires AllWellFormed(h)
    ensures AccountAll(NO_STATS, h).downloadBytes == ChunkBytes(Transcript(filler, h))
  {
    if h != [] {
      var n := |h| - 1;
      DownloadBytesAreChunkBytes(filler, h[..n]);
      ReplyBytes(filler, h[n], Transcript(filler, h[..n]));
    }
  }

  /** Conservation over a whole run: both byte counters tell what really went over the connection. */
  lemma RunConservesBytes(filler: Filler, r: Run)
    requires ValidRun(r)
    ensures AllWellFormed(r.exchanges)
    ensures AccountAll(NO_STATS, r.exchanges).downloadBytes == ChunkBytes(Transcript(filler, r.exchanges))
    ensures AccountAll(NO_STATS, r.exchanges).uploadBytes == |Flatten(UploadedChunks(r.exchanges))|
  {
    RunIsWhole(r);
    DownloadBytesAreChunkBytes(filler, r.exchanges);
    UploadBytesAreChunkBytes(r.exchanges);
  }

  lemma ReplyBytes(filler: Filler, x: Exchange, before: seq<Bytes>)
    requires WellFormed(x)
    ensures ChunkBytes(before + ([ACCEPT] + Reply(filler, x)))
         == ChunkBytes(before) + if x.Downloaded? then x.size * x.count else 0
  {
    hide ChunkBytes, Reply;
    ConcatThrice(before, [ACCEPT], Reply(filler, x));
    BalancedLines(before, [ACCEPT]);
    if x.Downloaded? {
      DownloadedBytes(filler, x, before + [ACCEPT]);
    } else {
      OtherReplyBytes(filler, x, before + [ACCEPT]);
    }
  }

  lemma OtherReplyBytes(filler: Filler, x: Exchange, before: seq<Bytes>)
    requires WellFormed(x) && !x.Downloaded?
    ensures ChunkBytes(before + Reply(filler, x)) == ChunkBytes(before)
  {
    match x
    case Refused(_) => BalancedLines(before, [ERR]);
    case Closed => BalancedLines(before, [BYE]);
    case Pinged(ns) =>
      FinalIsLine(ns);
      BalancedLines(before, [PONG, Final(ns)]);
    case Uploaded(size, _, reports, stamps, total) => UploadReplyBytes(size, reports, stamps, total, before);
  }

  lemma UploadReplyBytes(size: nat, reports: bool, stamps: seq<nat>, total: nat, before: seq<Bytes>)
    ensures ChunkBytes(before + ([OK] + Progress(reports, stamps, size) + [TimeLine(total)])) == ChunkBytes(before)
  {
    var progress := Progress(reports, stamps, size);
    BalancedLines(before, [OK]);
    ProgressIsLines(reports, stamps, size, before + [OK]);
    BalancedLines(before + [OK] + progress, [TimeLine(total)]);
    ConcatThrice(before, [OK], progress);
    ConcatThrice(before, [OK] + progress, [TimeLine(total)]);
  }

  /** The other counters: how many tests and pings there were, and the extreme round trips. */
  lemma {:induction false} CountersCount(h: seq<Exchange>)
    ensures AccountAll(NO_STATS, h).commands == |Tests(h)|
    ensures AccountAll(NO_STATS, h).pingCount == |Pings(h)|
    ensures IsLeast(AccountAll(NO_STATS, h).pingMin, [NO_PING] + Pings(h))
    ensures IsGreatest(AccountAll(NO_STATS, h).pingMax, [0] + Pings(h))
  {
    if h != [] {
      var (front, x) := (h[..|h| - 1], h[|h| - 1]);
      CountersCount(front);
      var (s, pings) := (AccountAll(NO_STATS, front), Pings(front));
      if x.Pinged? && x.ns.Some? {
        LeastSnoc([NO_PING], pings, x.ns.value, s.pingMin);
        GreatestSnoc([0], pings, x.ns.value, s.pingMax);
      } else {
        assert Pings(h) == pings;
      }
    }
  }

  lemma LeastSnoc(first: seq<nat>, pings: seq<nat>, ns: nat, lo: nat)
    requires IsLeast(lo, first + pings)
    ensures IsLeast(if ns < lo then ns else lo, first + (pings + [ns]))
  {
    assert forall x :: x in first + (pings + [ns]) <==> x in first + pings || x == ns;
  }

  lemma GreatestSnoc(first: seq<nat>, pings: seq<nat>, ns: nat, hi: nat)
    requires IsGreatest(hi, first + pings)
    ensures IsGreatest(if ns > hi then ns else hi, first + (pings + [ns]))
  {
    assert forall x :: x in first + (pings + [ns]) <==> x in first + pings || x == ns;
  }

  /** Once there was a ping, the extremes are those of the pings, and in order. */
  lemma PingExtremes(h: seq<Exchange>)
    requires Pings(h) != [] && forall ns :: ns in Pings(h) ==> ns <= NO_PING
    ensures var s := AccountAll(NO_STATS, h);
            IsLeast(s.pingMin, Pings(h)) && IsGreatest(s.pingMax, Pings(h)) && s.pingMin <= s.pingMax
  {
    CountersCount(h);
    var s := AccountAll(NO_STATS, h);
    var first := Pings(h)[0];
    assert first in Pings(h);
    assert forall x :: x in [NO_PING] + Pings(h) <==> x == NO_PING || x in Pings(h);
    assert forall x :: x in [0] + Pings(h) <==> x == 0 || x in Pings(h);
  }

  // ── Whole sessions ─────────────────────────────────────────────────────────────

  /** What is known of the exchange in which a session was interrupted. */
  predicate Sane(x: Exchange, phase: Phase, n: int, broken: bool) {
    && (phase.Waiting? ==> x.Closed? || x == Refused(false))
    && (phase.Transferred? ==> IsTest(x) && Whole(x))
    && (x.Closed? ==> broken)
    && (x.Downloaded? ==> n >= 1 && if phase.Transferred? then n - 1 == x.count else n - 1 < x.count)
  }

  lemma BeginningIsSane(p: Point, request: Request, b: Beginning, phase: Phase)
    requires b in Beginnings(p, request) && phase.Transferred? == b.transferred && b.n >= 0
    requires phase.Waiting? <==> request.Quit? || request.Unknown?
    ensures Sane(b.x, phase, b.n + 1, b.broken)
  {
    match request
    case GetTime(_, _) =>
    case GetChunks(_, _) =>
    case Put(_, _) =>
      if b.x.Uploaded? && b.transferred {
        ReceivedIsChunkStream(p.input, b.x.size);
      }
    case Ping =>
    case Quit =>
    case Unknown =>
  }

  lemma InterruptionIsSane(p: Point, c: Interruption)
    requires c in Interruptions(p)
    ensures Sane(c.x, c.phase, c.n, c.broken)
  {
    hide Beginnings, TakeLine, ParseRequest;
    if c.n > 0 && TakeLine(p.input).Got? {
      var (line, rest) := (TakeLine(p.input).data, TakeLine(p.input).rest);
      BeginningIsSane(Point(p.size, rest), ParseRequest(line),
                      Beginning(c.x, c.phase.Transferred?, c.n - 1, c.broken, c.error), c.phase);
    }
  }

  lemma TestWhenTransferred(p: Point, c: Interruption)
    requires c in Interruptions(p)
    ensures c.phase.Transferred? ==> IsTest(c.x)
  {
    InterruptionIsSane(p, c);
  }

  /** The bytes of a send loop that a failed write cut off after `n` writes of its turn: written but not accounted. */
  function Unfinished(story: Story, n: int): nat {
    if story.phase.Dispatched? && story.cut.Downloaded? && n > 1 then story.cut.size * (n - 1) else 0
  }

  /** The first `n` writes of a turn. */
  lemma PlanBytes(filler: Filler, x: Exchange, before: seq<Bytes>, n: nat)
    requires WellFormed(x) && n <= |[ACCEPT] + Reply(filler, x)|
    requires x.Downloaded? ==> 1 <= n <= x.count + 1
    ensures ChunkBytes(before + ([ACCEPT] + Reply(filler, x))[..n])
         == ChunkBytes(before) + if x.Downloaded? then x.size * (n - 1) else 0
  {
    var plan := [ACCEPT] + Reply(filler, x);
    if x.Downloaded? {
      var chunks := Chunks(filler, x.size, x.count)[..n - 1];
      assert plan[..n] == [ACCEPT] + chunks;
      assert before + plan[..n] == (before + [ACCEPT]) + chunks;
      BalancedLines(before, [ACCEPT]);
      forall i | 0 <= i < |chunks| ensures IsChunk(chunks[i]) && |chunks[i]| == x.size {
        assert chunks[i] == Chunk(filler, x.size, i == x.count - 1);
      }
      ChunkBytesOfChunks(chunks, x.size);
      ChunkBytesConcat(before + [ACCEPT], chunks);
    } else {
      OtherReplyIsLines(filler, x);
      assert forall w :: w in plan[..n] ==> w == ACCEPT || w in Reply(filler, x);
      BalancedLines(before, plan[..n]);
    }
  }

  lemma OtherReplyIsLines(filler: Filler, x: Exchange)
    requires WellFormed(x) && !x.Downloaded?
    ensures forall w :: w in Reply(filler, x) ==> !IsChunk(w)
  {
    match x
    case Refused(_) =>
    case Closed =>
    case Pinged(ns) => PingIsLines(ns);
    case Uploaded(size, _, reports, stamps, total) =>
      UploadIsLines(reports, stamps, size, total);
      assert [OK] + Progress(reports, stamps, size) + [TimeLine(total)]
             == [OK] + (Progress(reports, stamps, size) + [TimeLine(total)]);
  }

  /** What an interrupted turn accounts as downloaded, together with what it left unfinished, is what it wrote. */
  lemma CutAccount(story: Story, n: int, broken: bool)
    requires Sane(story.cut, story.phase, n, broken)
    ensures AccountCut(NO_STATS, story.cut, story.phase).downloadBytes + Unfinished(story, n)
         == if story.cut.Downloaded? then story.cut.size * (n - 1) else 0
    ensures story.cut.Downloaded? ==> 1 <= n <= story.cut.count + 1
  {
  }

  lemma SentPrefix(before: seq<Bytes>, plan: seq<Bytes>, log: seq<Bytes>, broken: bool, attempt: Bytes)
    requires Sent(before, plan, log, false, broken, attempt)
    ensures 0 <= |log| - |before| <= |plan| && log == before + plan[..|log| - |before|]
  {
  }

  lemma CutBytes(filler: Filler, story: Story, p: Point, before: seq<Bytes>, log: seq<Bytes>, broken: bool,
                 attempt: Bytes, error: Error)
    requires WellFormed(story.cut)
    requires Sent(before, [ACCEPT] + Reply(filler, story.cut), log, false, broken, attempt)
    requires Interruption(story.cut, story.phase, |log| - |before|, broken, error) in Interruptions(p)
    ensures ChunkBytes(log) == ChunkBytes(before) + AccountCut(NO_STATS, story.cut, story.phase).downloadBytes
                             + Unfinished(story, |log| - |before|)
  {
    hide Interruptions, Sent, Sane, AccountCut, Unfinished, ChunkBytes, Reply;
    var n := |log| - |before|;
    SentPrefix(before, [ACCEPT] + Reply(filler, story.cut), log, broken, attempt);
    InterruptionIsSane(p, Interruption(story.cut, story.phase, n, broken, error));
    CutAccount(story, n, broken);
    PlanBytes(filler, story.cut, before, n);
  }

  lemma AccountAdds(s: Stats, x: Exchange, phase: Phase)
    ensures AccountCut(s, x, phase).downloadBytes == s.downloadBytes + AccountCut(NO_STATS, x, phase).downloadBytes
  {
  }

  /**
   Conservation over every session, however it ends. What is accounted as uploaded is what the chunks
   of the completed uploads hold; the bytes written in chunks are those accounted as downloaded and
   those of a send loop that a failed write cut off.
   */
  lemma StoryConserves(filler: Filler, story: Story, start: Point, log0: seq<Bytes>, r: Status, log: seq<Bytes>,
                       broken: bool, attempt: Bytes)
    requires Tells(filler, story, start, log0, r, log, broken, attempt)
    ensures AccountAll(NO_STATS, Counted(story)).uploadBytes == |Flatten(UploadedChunks(Counted(story)))|
    ensures ChunkBytes(log) == ChunkBytes(log0) + AccountAll(NO_STATS, Counted(story)).downloadBytes
                             + Unfinished(story, |log| - |log0 + Transcript(filler, story.run.exchanges)|)
  {
    hide Interruptions, Serves, Sane;
    var (h, transcript) := (story.run.exchanges, Transcript(filler, story.run.exchanges));
    DownloadBytesAreChunkBytes(filler, h);
    ChunkBytesConcat(log0, transcript);
    StoryIsWhole(filler, story, start, log0, r, log, broken, attempt);
    UploadBytesAreChunkBytes(Counted(story));
    if r.Done? {
      assert Counted(story) == h;
    } else {
      var p := story.run.points[|h|];
      TestWhenTransferred(p, Interruption(story.cut, story.phase, |log| - |log0 + transcript|, broken, r.error));
      CutBytes(filler, story, p, log0 + transcript, log, broken, attempt, r.error);
      AccountStory(NO_STATS, story);
      AccountAdds(AccountAll(NO_STATS, h), story.cut, story.phase);
    }
  }

  lemma StoryIsWhole(filler: Filler, story: Story, start: Point, log0: seq<Bytes>, r: Status, log: seq<Bytes>,
                     broken: bool, attempt: Bytes)
    requires Tells(filler, story, start, log0, r, log, broken, attempt)
    ensures forall i :: 0 <= i < |Counted(story)| ==> Whole(Counted(story)[i])
  {
    hide Interruptions, Serves;
    RunIsWhole(story.run);
    var h := story.run.exchanges;
    if r.Failed? {
      var n := |log| - |log0 + Transcript(filler, h)|;
      InterruptionIsSane(story.run.points[|h|], Interruption(story.cut, story.phase, n, broken, r.error));
    }
  }
}
