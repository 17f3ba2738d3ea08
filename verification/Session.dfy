/** What one measurement session is: requests, exchanges, transcripts and their accounting. */
module Session {
  import opened Text
  import opened Streams
  import opened Transfer

  const ACCEPT: Bytes := "ACCEPT GETCHUNKS GETTIME " + "PUT PUTNORESULT PING QUIT\n"
  const OK: Bytes := "OK\n"
  const ERR: Bytes := "ERR\n"
  const PONG: Bytes := "PONG\n"
  const BYE: Bytes := "BYE\n"

  const MAX_CHUNKS: nat := 300_000
  const MAX_SECONDS: nat := 30
  const U32_MAX: nat := 0xFFFF_FFFF
  const U64_MAX: nat := 0xFFFF_FFFF_FFFF_FFFF

  // ── Requests ───────────────────────────────────────────────────────────────────

  datatype Request =
    | GetTime(seconds: Bytes, chunk: Bytes)
    | GetChunks(count: Bytes, chunk: Bytes)
    | Put(chunk: Bytes, reports: bool)
    | Ping
    | Quit
    | Unknown

  function Argument(parts: seq<Bytes>, i: nat): Bytes {
    if i < |parts| then Trim(parts[i]) else []
  }

  /** The command and its arguments, separated by single spaces. */
  function ParseRequest(line: Bytes): Request {
    var parts := SplitN(Trim(line), 3, ' ');
    var (first, second) := (Argument(parts, 1), Argument(parts, 2));
    if parts[0] == "GETTIME" then GetTime(first, second)
    else if parts[0] == "GETCHUNKS" then GetChunks(first, second)
    else if parts[0] == "PUT" then Put(first, true)
    else if parts[0] == "PUTNORESULT" then Put(first, false)
    else if parts[0] == "PING" then Ping
    else if parts[0] == "QUIT" then Quit
    else Unknown
  }

  /** `parse_chunk_size`. */
  function ParseChunkSize(arg: Bytes): (r: Option<nat>)
    ensures r.Some? ==> MIN_CHUNK_SIZE <= r.value <= MAX_CHUNK_SIZE
  {
    match ParseUnsigned(arg, U64_MAX)
    case Some(n) => if n < MIN_CHUNK_SIZE || n > MAX_CHUNK_SIZE then None else Some(n)
    case None => None
  }

  /** Exactly the decimal numerals within the limits are accepted. */
  lemma ChunkSizesAccepted(arg: Bytes, n: nat)
    ensures ParseChunkSize(arg) == Some(n) <==> Numeral(arg, n) && MIN_CHUNK_SIZE <= n <= MAX_CHUNK_SIZE
  {
    ParsesNumerals(arg, U64_MAX, n);
  }

  /** The chunk size a command runs with, or nothing if it asks for an impossible one. */
  function Negotiate(arg: Bytes, size: nat): Option<nat> {
    if arg == [] then Some(size) else ParseChunkSize(arg)
  }

  /** A count or a number of seconds: positive and within its maximum. */
  function ParsePositive(arg: Bytes, max: nat): (r: Option<nat>)
    ensures r.Some? ==> 0 < r.value <= max
  {
    match ParseUnsigned(arg, U32_MAX)
    case Some(n) => if 0 < n <= max then Some(n) else None
    case None => None
  }

  /** Exactly the decimal numerals from 1 to the maximum are accepted. */
  lemma PositivesAccepted(arg: Bytes, max: nat, n: nat)
    requires max <= U32_MAX
    ensures ParsePositive(arg, max) == Some(n) <==> Numeral(arg, n) && 0 < n <= max
  {
    ParsesNumerals(arg, U32_MAX, n);
  }

  // ── Exchanges ──────────────────────────────────────────────────────────────────

  /** One command as it was answered. */
  datatype Exchange =
    /** Answered with ERR; `known` if the command itself was one of the test commands. */
    | Refused(known: bool)
    /** `count` chunks sent, timed by `stamps` for GETTIME; `answer` is the time sent if the client acknowledged. */
    | Downloaded(size: nat, count: nat, stamps: seq<nat>, sendNs: nat, answer: Option<nat>)
    /** `chunks` received, at the elapsed times `stamps` if reports were sent. */
    | Uploaded(size: nat, chunks: seq<Bytes>, reports: bool, stamps: seq<nat>, total: nat)
    /** The round trip took `ns`, unless the client did not acknowledge. */
    | Pinged(ns: Option<nat>)
    | Closed

  function Final(answer: Option<nat>): Bytes {
    match answer
    case Some(ns) => TimeLine(ns)
    case None => ERR
  }

  /** What the server writes in answer to one command. */
  function Reply(filler: Filler, x: Exchange): seq<Bytes>
    requires WellFormed(x)
  {
    match x
    case Refused(_) => [ERR]
    case Downloaded(size, count, _, _, answer) => Chunks(filler, size, count) + [Final(answer)]
    case Uploaded(size, _, reports, stamps, total) => [OK] + Progress(reports, stamps, size) + [TimeLine(total)]
    case Pinged(ns) => [PONG, Final(ns)]
    case Closed => [BYE]
  }

  /** The lines an upload writes between OK and the final TIME. */
  function Progress(reports: bool, stamps: seq<nat>, size: nat): seq<Bytes> {
    if reports then ReportLines(Reports(stamps, size)) else []
  }

  predicate ValidSize(size: nat) {
    MIN_CHUNK_SIZE <= size <= MAX_CHUNK_SIZE
  }

  /** What the times of the chunks must be in an upload that is reported as finished after `total`. */
  predicate TimesOf(reports: bool, stamps: seq<nat>, total: nat) {
    (!reports ==> stamps == []) && Sorted(stamps) && LastBy(stamps, total)
  }

  /** Times run forward and sizes are within the limits. */
  predicate WellFormed(x: Exchange) {
    match x
    case Downloaded(size, count, _, sendNs, answer) =>
      ValidSize(size) && count > 0 && (answer.Some? ==> sendNs <= answer.value)
    case Uploaded(size, _, reports, stamps, total) => ValidSize(size) && TimesOf(reports, stamps, total)
    case _ => true
  }

  // ── Which exchange answers which command ───────────────────────────────────────

  /** The chunk size in force and what the client will still send. */
  datatype Point = Point(size: nat, input: Input)

  const NANOS: nat := 1_000_000_000

  /** A timed download ends with the first chunk that starts when the time is up. */
  predicate TimedBy(stamps: seq<nat>, maxNs: nat) {
    stamps != [] && TimedUntil(stamps, maxNs, |stamps| - 1, true)
  }

  /**
   Behind `n` chunks that started before the time was up another one started, as the last one exactly if
   it then was.
   */
  predicate TimedUntil(stamps: seq<nat>, maxNs: nat, n: int, last: bool) {
    && 0 <= n && |stamps| == n + 1
    && StillRunning(stamps[..n], maxNs, stamps[n])
    && (last <==> maxNs <= stamps[n])
  }

  /** All stamps are before the end of the download, and in order, up to `now`. */
  predicate StillRunning(stamps: seq<nat>, maxNs: nat, now: nat) {
    Sorted(stamps) && forall i :: 0 <= i < |stamps| ==> stamps[i] < maxNs && stamps[i] <= now
  }

  lemma StillRunningSnoc(stamps: seq<nat>, maxNs: nat, before: nat, now: nat)
    requires StillRunning(stamps, maxNs, before) && before <= now
    ensures TimedUntil(stamps + [now], maxNs, |stamps|, maxNs <= now)
    ensures now < maxNs ==> StillRunning(stamps + [now], maxNs, now)
  {
    assert (stamps + [now])[..|stamps|] == stamps;
  }

  // ── What the clock said ────────────────────────────────────────────────────────

  /** Chunk `i` was written after the reading `stamps[i]`, and before the next reading was taken. */
  predicate Paced(start: nat, stamps: seq<nat>, sent: seq<nat>) {
    && (forall i :: 0 <= i < |stamps| && i < |sent| ==> start + stamps[i] <= sent[i])
    && (forall i :: 0 <= i < |sent| && i + 1 < |stamps| ==> sent[i] <= start + stamps[i + 1])
  }

  /** The reading `stamps[i]` was taken after read `i`, and before the next read was over. */
  predicate Stamped(start: nat, stamps: seq<nat>, heard: seq<nat>) {
    && |stamps| <= |heard|
    && (forall i :: 0 <= i < |stamps| ==> heard[i] <= start + stamps[i])
    && (forall i :: 0 <= i < |stamps| && i + 1 < |heard| ==> start + stamps[i] <= heard[i + 1])
  }

  /** None of the times is before `start` if the first one is not. */
  predicate FirstFrom(times: seq<nat>, start: nat) {
    times != [] ==> start <= times[0]
  }

  /** Times in order, none later than `now`. */
  predicate Past(stamps: seq<nat>, now: int) {
    Sorted(stamps) && (stamps != [] ==> stamps[|stamps| - 1] <= now)
  }

  /** The time in the answer, if any, was taken after the acknowledgement was heard. */
  predicate Measured(answer: Option<nat>, c: Clocking) {
    answer.Some? ==> c.heard != [] && c.heard[|c.heard| - 1] <= c.start + answer.value <= c.end
  }

  /** The times of a download are those of the clock: its chunks', the send time, and the one in the answer. */
  predicate ClockedDownload(count: nat, stamps: seq<nat>, sendNs: nat, answer: Option<nat>, c: Clocking) {
    && Paced(c.start, stamps, c.sent) && FirstFrom(c.sent, c.start)
    && (0 < count <= |c.sent| ==> c.sent[count - 1] <= c.start + sendNs)
    && c.start + sendNs <= c.end && FirstFrom(c.heard, c.start + sendNs)
    && Measured(answer, c)
  }

  /** The times of an upload behind its OK: they count from before the first chunk. */
  predicate ClockedReception(stamps: seq<nat>, total: nat, c: Clocking) {
    && Stamped(c.start, stamps, c.heard) && FirstFrom(c.heard, c.start)
    && LastBy(c.heard, c.start + total) && c.start + total <= c.end
  }

  /** The times of an upload: they count from a reading between OK and the first chunk. */
  predicate ClockedUpload(stamps: seq<nat>, total: nat, c: Clocking) {
    && ClockedReception(stamps, total, c)
    && (c.heard != [] ==> c.sent != [] && c.sent[0] <= c.start)
  }

  /** The times in an exchange, broken off or not, are those that the clock said. */
  predicate Clocked(x: Exchange, c: Clocking) {
    && c.begin <= c.start <= c.end
    && match x
       case Downloaded(_, count, stamps, sendNs, answer) => ClockedDownload(count, stamps, sendNs, answer, c)
       case Uploaded(_, _, _, stamps, total) => ClockedUpload(stamps, total, c)
       case Pinged(ns) => FirstFrom(c.sent, c.start) && (ns.Some? ==> c.sent != []) && Measured(ns, c)
       case _ => true
  }

  lemma PacedSnoc(start: nat, stamps: seq<nat>, sent: seq<nat>, before: nat, stamp: nat, now: nat)
    requires Paced(start, stamps, sent) && |stamps| == |sent| && LastBy(sent, before)
    requires before <= start + stamp <= now
    ensures Paced(start, stamps + [stamp], sent) && Paced(start, stamps + [stamp], sent + [now])
  {
  }

  /** What is written behind the chunks does not matter. */
  lemma PacedMore(start: nat, stamps: seq<nat>, sent: seq<nat>, more: seq<nat>)
    requires Paced(start, stamps, sent) && |stamps| <= |sent|
    ensures Paced(start, stamps, sent + more)
  {
  }

  lemma StampedHeard(start: nat, stamps: seq<nat>, heard: seq<nat>, before: int, at: nat)
    requires Stamped(start, stamps, heard) && Past(stamps, before - start) && before <= at
    ensures Stamped(start, stamps, heard + [at])
  {
  }

  lemma StampedSnoc(start: nat, stamps: seq<nat>, heard: seq<nat>, at: nat, stamp: nat)
    requires Stamped(start, stamps, heard + [at]) && |stamps| == |heard| && at <= start + stamp
    ensures Stamped(start, stamps + [stamp], heard + [at])
  {
  }

  lemma TimesThen(a: seq<nat>, p: seq<nat>, b: seq<nat>, q: seq<nat>, c: seq<nat>)
    requires b == a + p && c == b + q
    ensures c == a + (p + q)
  {
  }

  predicate IsOk(line: Bytes) {
    Trim(line) == "OK"
  }

  /** The next line acknowledges, or not. */
  predicate Acknowledges(input: Input, answer: Option<nat>, rest: Input) {
    match TakeLine(input)
    case Got(ack, after) => rest == after && (answer.Some? <==> IsOk(ack))
    case Failure(_) => false
  }

  predicate ServesGetTime(p: Point, seconds: Bytes, chunk: Bytes, x: Exchange, q: Point) {
    match Negotiate(chunk, p.size)
    case None => x == Refused(true) && q == p
    case Some(size) =>
      match ParsePositive(seconds, MAX_SECONDS)
      case None => x == Refused(true) && q == Point(size, p.input)
      case Some(s) =>
        && x.Downloaded? && x.size == q.size == size
        && x.count == |x.stamps| && TimedBy(x.stamps, s * NANOS) && x.stamps[x.count - 1] <= x.sendNs
        && Acknowledges(p.input, x.answer, q.input)
  }

  predicate ServesGetChunks(p: Point, count: Bytes, chunk: Bytes, x: Exchange, q: Point) {
    match Negotiate(chunk, p.size)
    case None => x == Refused(true) && q == p
    case Some(size) =>
      match ParsePositive(count, MAX_CHUNKS)
      case None => x == Refused(true) && q == Point(size, p.input)
      case Some(n) =>
        && x.Downloaded? && x.size == q.size == size
        && x.count == n
        && Acknowledges(p.input, x.answer, q.input)
  }

  predicate ServesPut(p: Point, chunk: Bytes, reports: bool, x: Exchange, q: Point) {
    match Negotiate(chunk, p.size)
    case None => x == Refused(true) && q == p
    case Some(size) =>
      && size > 0
      && x.Uploaded? && x.size == q.size == size && x.reports == reports
      && Receive(p.input, size) == Complete(x.chunks, q.input)
      && (reports ==> |x.stamps| == |x.chunks|)
  }

  predicate ServesPing(p: Point, x: Exchange, q: Point) {
    x.Pinged? && q.size == p.size && Acknowledges(p.input, x.ns, q.input)
  }

  /** In the state `p`, just after a command line was read, `x` is a right answer that leads to `q`. */
  predicate Answers(p: Point, request: Request, x: Exchange, q: Point) {
    && WellFormed(x)
    && match request
       case GetTime(seconds, chunk) => ServesGetTime(p, seconds, chunk, x, q)
       case GetChunks(count, chunk) => ServesGetChunks(p, count, chunk, x, q)
       case Put(chunk, reports) => ServesPut(p, chunk, reports, x, q)
       case Ping => ServesPing(p, x, q)
       case Quit => x == Closed && q == p
       case Unknown => x == Refused(false) && q == p
  }

  /** An exchange and the state it leads to. */
  datatype Completion = Completion(x: Exchange, next: Point)

  /** All the ways in which a command can be answered completely. */
  ghost function Completions(p: Point, request: Request): iset<Completion> {
    iset c: Completion | Answers(p, request, c.x, c.next)
  }

  lemma IsCompletion(p: Point, request: Request, x: Exchange, q: Point)
    requires Answers(p, request, x, q)
    ensures Completion(x, q) in Completions(p, request)
  {
  }

  /** The next line from the client is a command that `x` answers. */
  predicate Serves(p: Point, x: Exchange, q: Point) {
    match TakeLine(p.input)
    case Got(line, rest) => Answers(Point(p.size, rest), ParseRequest(line), x, q)
    case Failure(_) => false
  }

  /** A run of the command loop: the exchanges, and the state before and after each. */
  datatype Run = Run(points: seq<Point>, exchanges: seq<Exchange>)

  predicate ValidRun(r: Run) {
    Chain(Serves, r.points, r.exchanges)
  }

  predicate Step<P, X>(step: (P, X, P) -> bool, p: P, x: X, q: P) {
    step(p, x, q)
  }

  /** Each of `xs` is a step between neighbouring points. */
  predicate Chain<P, X>(step: (P, X, P) -> bool, points: seq<P>, xs: seq<X>) {
    && |points| == |xs| + 1
    && forall i {:trigger xs[i]} :: 0 <= i < |xs| ==> step(points[i], xs[i], points[i + 1])
  }

  lemma ChainSnoc<P, X>(step: (P, X, P) -> bool, points: seq<P>, xs: seq<X>, x: X, q: P)
    requires Chain(step, points, xs) && Step(step, points[|xs|], x, q)
    ensures Chain(step, points + [q], xs + [x])
  {
  }

  function Extend(r: Run, x: Exchange, q: Point): Run {
    Run(r.points + [q], r.exchanges + [x])
  }

  lemma ExtendValid(r: Run, x: Exchange, q: Point)
    requires ValidRun(r) && Step(Serves, r.points[|r.points| - 1], x, q)
    ensures ValidRun(Extend(r, x, q))
  {
    ChainSnoc(Serves, r.points, r.exchanges, x, q);
  }

  lemma RunStep(r: Run, i: nat)
    requires ValidRun(r) && i < |r.exchanges|
    ensures Step(Serves, r.points[i], r.exchanges[i], r.points[i + 1])
  {
  }

  predicate AllWellFormed(h: seq<Exchange>) {
    forall i :: 0 <= i < |h| ==> WellFormed(h[i])
  }

  /** Everything the command loop writes for the exchanges `h`. */
  function Transcript(filler: Filler, h: seq<Exchange>): seq<Bytes>
    requires AllWellFormed(h)
  {
    if h == [] then [] else
    Transcript(filler, h[..|h| - 1]) + ([ACCEPT] + Reply(filler, h[|h| - 1]))
  }

  lemma TranscriptSnoc(filler: Filler, h: seq<Exchange>, x: Exchange)
    requires AllWellFormed(h) && WellFormed(x)
    ensures AllWellFormed(h + [x])
    ensures Transcript(filler, h + [x]) == Transcript(filler, h) + ([ACCEPT] + Reply(filler, x))
  {
    assert (h + [x])[..|h|] == h;
  }

  // ── Completed and interrupted output ───────────────────────────────────────────

  /**
   `log` is `before` followed by the planned writes: all of them if `done`, otherwise only some, and
   if that is because a write failed then it was the next one.
   */
  predicate Sent(before: seq<Bytes>, planned: seq<Bytes>, log: seq<Bytes>, done: bool, broken: bool, attempt: Bytes) {
    && before <= log
    && if done then log == before + planned && !broken
       else log <= before + planned && (broken ==> |log| < |before + planned| && attempt == (before + planned)[|log|])
  }

  lemma SentOne(before: seq<Bytes>, w: Bytes, log: seq<Bytes>, done: bool, broken: bool, attempt: Bytes)
    requires if done then log == before + [w] && !broken else log == before && attempt == w
    ensures Sent(before, [w], log, done, broken, attempt)
  {
  }

  lemma SentAll(before: seq<Bytes>, planned: seq<Bytes>, log: seq<Bytes>, broken: bool, attempt: Bytes)
    requires Sent(before, planned, log, true, broken, attempt)
    ensures log == before + planned && !broken
  {
  }

  lemma SentNothing(before: seq<Bytes>, planned: seq<Bytes>, attempt: Bytes)
    ensures Sent(before, planned, before, false, false, attempt)
  {
  }

  /** The first `k` planned writes are out, and the next one failed or there is none. */
  lemma SentFirst(before: seq<Bytes>, planned: seq<Bytes>, k: nat, log: seq<Bytes>, broken: bool, attempt: Bytes)
    requires k <= |planned| && log == before + planned[..k]
    requires broken <==> k < |planned|
    requires broken ==> attempt == planned[k]
    ensures Sent(before, planned, log, k == |planned|, broken, attempt)
  {
    assert planned[..|planned|] == planned;
  }

  lemma SentThen(a: seq<Bytes>, p: seq<Bytes>, b: seq<Bytes>, q: seq<Bytes>, c: seq<Bytes>,
                 done: bool, broken: bool, attempt: Bytes)
    requires b == a + p && Sent(b, q, c, done, broken, attempt)
    ensures Sent(a, p + q, c, done, broken, attempt)
  {
    assert a + (p + q) == b + q;
  }

  lemma SentMore(a: seq<Bytes>, p: seq<Bytes>, q: seq<Bytes>, c: seq<Bytes>, broken: bool, attempt: Bytes)
    requires Sent(a, p, c, false, broken, attempt)
    ensures Sent(a, p + q, c, false, broken, attempt)
  {
    assert a + (p + q) == (a + p) + q;
  }

  // ── Accounting ─────────────────────────────────────────────────────────────────

  datatype Stats = Stats(
    downloadBytes: nat, downloadNs: nat, uploadBytes: nat, uploadNs: nat,
    pingCount: nat, pingMin: nat, pingMax: nat, commands: nat)

  /** `u128::MAX`, the minimum before any ping. */
  const NO_PING: nat := 0xFFFF_FFFF_FFFF_FFFF_FFFF_FFFF_FFFF_FFFF

  const NO_STATS: Stats := Stats(0, 0, 0, 0, 0, NO_PING, 0, 0)

  function AddDownload(s: Stats, bytes: nat, ns: nat): Stats {
    s.(downloadBytes := s.downloadBytes + bytes, downloadNs := s.downloadNs + ns)
  }

  function AddUpload(s: Stats, bytes: nat, ns: nat): Stats {
    s.(uploadBytes := s.uploadBytes + bytes, uploadNs := s.uploadNs + ns)
  }

  function AddPing(s: Stats, ns: nat): Stats {
    s.(pingCount := s.pingCount + 1,
       pingMin := if ns < s.pingMin then ns else s.pingMin,
       pingMax := if ns > s.pingMax then ns else s.pingMax)
  }

  /** The transfer or round trip of one exchange. */
  function AddTransfer(s: Stats, x: Exchange): Stats {
    match x
    case Downloaded(size, count, _, sendNs, _) =>
      AddDownload(s, size * count, sendNs)
    case Uploaded(size, chunks, _, _, total) =>
      AddUpload(s, size * |chunks|, total)
    case Pinged(Some(ns)) => AddPing(s, ns)
    case _ => s
  }

  predicate IsTest(x: Exchange) {
    !x.Closed? && x != Refused(false)
  }

  function Account(s: Stats, x: Exchange): Stats {
    AddTransfer(if IsTest(x) then s.(commands := s.commands + 1) else s, x)
  }

  function AccountAll(s: Stats, h: seq<Exchange>): Stats {
    if h == [] then s else Account(AccountAll(s, h[..|h| - 1]), h[|h| - 1])
  }

  lemma AccountSnoc(s: Stats, h: seq<Exchange>, x: Exchange)
    ensures AccountAll(s, h + [x]) == Account(AccountAll(s, h), x)
  {
    assert (h + [x])[..|h|] == h;
  }

  /** Only the last exchange may close the session, and it does if and only if `closed`. */
  predicate ClosedAtEnd(h: seq<Exchange>, closed: bool) {
    && (forall i :: 0 <= i < |h| - 1 ==> !h[i].Closed?)
    && (closed <==> h != [] && h[|h| - 1].Closed?)
  }

  /** Since `start`, with `log0` written and `stats0` counted, `run` has led to `now`, `log` and `stats`. */
  predicate Served(filler: Filler, run: Run, start: Point, log0: seq<Bytes>, stats0: Stats, now: Point,
                   log: seq<Bytes>, stats: Stats) {
    && ValidRun(run) && run.points[0] == start && run.points[|run.exchanges|] == now
    && AllWellFormed(run.exchanges)
    && log == log0 + Transcript(filler, run.exchanges)
    && stats == AccountAll(stats0, run.exchanges)
  }

  lemma ServedNothing(filler: Filler, start: Point, log0: seq<Bytes>, stats0: Stats)
    ensures Served(filler, Run([start], []), start, log0, stats0, start, log0, stats0)
  {
    assert log0 + [] == log0;
  }

  lemma ServedSnoc(filler: Filler, run: Run, start: Point, log0: seq<Bytes>, stats0: Stats, now: Point, log: seq<Bytes>,
                   stats: Stats, x: Exchange, next: Point, plan: seq<Bytes>, newLog: seq<Bytes>)
    requires Served(filler, run, start, log0, stats0, now, log, stats)
    requires Step(Serves, now, x, next) && WellFormed(x) && plan == [ACCEPT] + Reply(filler, x) && newLog == log + plan
    ensures Served(filler, Extend(run, x, next), start, log0, stats0, next, newLog, Account(stats, x))
  {
    TranscriptSnoc(filler, run.exchanges, x);
    AccountSnoc(stats0, run.exchanges, x);
    ExtendedRun(run, x, start, now, next);
    ConcatThrice(log0, Transcript(filler, run.exchanges), plan);
  }

  lemma ConcatThrice(a: seq<Bytes>, b: seq<Bytes>, c: seq<Bytes>)
    ensures (a + b) + c == a + (b + c)
  {
  }

  lemma ExtendedRun(run: Run, x: Exchange, start: Point, now: Point, next: Point)
    requires ValidRun(run) && run.points[0] == start && run.points[|run.exchanges|] == now
    requires Step(Serves, now, x, next)
    ensures var r := Extend(run, x, next);
            ValidRun(r) && r.points[0] == start && r.points[|r.exchanges|] == next
  {
    ExtendValid(run, x, next);
  }

  lemma NothingClosed()
    ensures ClosedAtEnd([], false)
  {
  }

  lemma ClosedSnoc(h: seq<Exchange>, x: Exchange)
    requires ClosedAtEnd(h, false)
    ensures ClosedAtEnd(h + [x], x.Closed?)
  {
  }

  /** The next line is this request. */
  predicate NextRequest(input: Input, request: Request, rest: Input) {
    match TakeLine(input)
    case Got(line, after) => ParseRequest(line) == request && rest == after
    case Failure(_) => false
  }

  lemma ServesRequest(p: Point, request: Request, rest: Input, x: Exchange, q: Point)
    requires NextRequest(p.input, request, rest) && Completion(x, q) in Completions(Point(p.size, rest), request)
    ensures Step(Serves, p, x, q)
  {
  }

  // ── Interrupted exchanges ──────────────────────────────────────────────────────
  //
  // How an exchange can break off, when `n` of its writes were made: a write failed if the stream is
  // `broken`, otherwise the next read did. The error is the one that is returned.

  /** The first write failed. */
  predicate CutLine(n: int, broken: bool, error: Error) {
    n == 0 && broken && error == TransportFailed
  }

  /** A line was read, which acknowledges or not. */
  predicate Heard(input: Input, answer: Option<nat>) {
    match TakeLine(input)
    case Got(ack, _) => answer.Some? <==> IsOk(ack)
    case Failure(_) => false
  }

  /** The acknowledgement could not be read, or it was and the line in answer to it could not be written. */
  predicate CutAck(input: Input, answer: Option<nat>, broken: bool, error: Error) {
    if broken then error == TransportFailed && Heard(input, answer)
    else answer == None && TakeLine(input) == Failure(error)
  }

  /** The acknowledgement was read. */
  predicate AckRead(input: Input, acknowledged: bool, rest: Input) {
    match TakeLine(input)
    case Got(ack, after) => rest == after && (acknowledged <==> IsOk(ack))
    case Failure(_) => false
  }

  /** What the answer to an acknowledgement means, written or not. */
  lemma AckAnswered(input: Input, acknowledged: bool, rest: Input, answer: Option<nat>, error: Error)
    requires AckRead(input, acknowledged, rest) && (answer.Some? <==> acknowledged)
    ensures Acknowledges(input, answer, rest)
    ensures error == TransportFailed ==> CutAck(input, answer, true, error)
  {
  }

  /** All chunks were sent and what followed broke off, or a write of a chunk failed. */
  predicate CutDownload(input: Input, count: nat, answer: Option<nat>, sent: bool, n: int, broken: bool, error: Error) {
    if sent then n == count && CutAck(input, answer, broken, error)
    else n < count && broken && error == TransportFailed
  }

  /**
   Behind the OK of an upload: the whole chunk stream was received and reported and only the final
   line could not be written, or the reception broke off.
   */
  predicate CutReception(input: Input, size: nat, chunks: seq<Bytes>, reports: bool, stamps: seq<nat>,
                         received: bool, n: int, broken: bool, error: Error)
    requires size > 0
  {
    var (r, m) := (Receive(input, size), |Progress(reports, stamps, size)|);
    if received then
      && broken && error == TransportFailed && n == m
      && r.Complete? && r.chunks == chunks && (reports ==> |stamps| == |chunks|)
    else
      BrokeOff(input, size, reports, stamps, m - n, broken, error)
  }

  /**
   Why the reception of the chunk stream in `input` broke off, after chunks at the times `stamps`: the
   last due report could not be written, or, with all reports written, the next chunk could not be read.
   */
  predicate BrokeOff(input: Input, size: nat, reports: bool, stamps: seq<nat>, missing: int, broken: bool, error: Error)
    requires size > 0
  {
    var r := Receive(input, size);
    if broken then error == TransportFailed && reports && missing == 1 && |stamps| <= |r.chunks|
    else missing == 0 && r.Cut? && r.error == error && (reports ==> |stamps| == |r.chunks|)
  }

  predicate CutUpload(input: Input, size: nat, chunks: seq<Bytes>, reports: bool, stamps: seq<nat>,
                      received: bool, n: int, broken: bool, error: Error)
    requires size > 0
  {
    if n <= 0 then !received && stamps == [] && CutLine(n, broken, error)
    else CutReception(input, size, chunks, reports, stamps, received, n - 1, broken, error)
  }

  /** Where an upload broke off, and with which error. */
  datatype Break = Break(n: int, broken: bool, error: Error)

  /** All the ways in which an upload can break off behind its OK. */
  ghost function ReceptionBreaks(input: Input, size: nat, chunks: seq<Bytes>, reports: bool, stamps: seq<nat>,
                                 received: bool): iset<Break>
    requires size > 0
  {
    iset b: Break | CutReception(input, size, chunks, reports, stamps, received, b.n, b.broken, b.error)
  }

  /** All the ways in which an upload can break off. */
  ghost function UploadBreaks(input: Input, size: nat, chunks: seq<Bytes>, reports: bool, stamps: seq<nat>,
                              received: bool): iset<Break>
    requires size > 0
  {
    iset b: Break | CutUpload(input, size, chunks, reports, stamps, received, b.n, b.broken, b.error)
  }

  lemma CutBeforeTotal(input: Input, size: nat, chunks: seq<Bytes>, reports: bool, stamps: seq<nat>,
                       n: int, broken: bool, error: Error)
    requires size > 0 && BrokeOff(input, size, reports, stamps, |Progress(reports, stamps, size)| - n, broken, error)
    ensures Break(n, broken, error) in ReceptionBreaks(input, size, chunks, reports, stamps, false)
  {
  }

  lemma CutAtTotal(input: Input, size: nat, chunks: seq<Bytes>, reports: bool, stamps: seq<nat>, rest: Input,
                   error: Error)
    requires size > 0 && Receive(input, size) == Complete(chunks, rest) && (reports ==> |stamps| == |chunks|)
    requires error == TransportFailed
    ensures Break(|Progress(reports, stamps, size)|, true, error)
            in ReceptionBreaks(input, size, chunks, reports, stamps, true)
  {
  }

  lemma CutAtOk(input: Input, size: nat, reports: bool, error: Error)
    requires size > 0 && error == TransportFailed
    ensures Break(0, true, error) in UploadBreaks(input, size, [], reports, [], false)
  {
  }

  lemma CutBehindOk(input: Input, size: nat, chunks: seq<Bytes>, reports: bool, stamps: seq<nat>,
                    received: bool, n: nat, broken: bool, error: Error)
    requires size > 0 && Break(n, broken, error) in ReceptionBreaks(input, size, chunks, reports, stamps, received)
    ensures Break(n + 1, broken, error) in UploadBreaks(input, size, chunks, reports, stamps, received)
  {
  }

  predicate CutPing(input: Input, answer: Option<nat>, heard: bool, n: int, broken: bool, error: Error) {
    if n <= 0 then !heard && answer == None && CutLine(n, broken, error)
    else n == 1 && (heard <==> broken) && CutAck(input, answer, broken, error)
  }

  lemma CutPingFirst(input: Input, error: Error)
    requires error == TransportFailed
    ensures CutPing(input, None, false, 0, true, error)
  {
  }

  lemma CutPingAcked(input: Input, answer: Option<nat>, heard: bool, broken: bool, error: Error)
    requires CutAck(input, answer, broken, error) && (heard <==> broken)
    ensures CutPing(input, answer, heard, 1, broken, error)
  {
  }

  /** The chunks of a timed download started as they should, up to the one that could not be written, if it was one. */
  predicate CutTimed(x: Exchange, maxNs: nat, transferred: bool, n: int)
    requires x.Downloaded? && x.count > 0
  {
    if transferred then x.count == |x.stamps| && TimedBy(x.stamps, maxNs) && x.stamps[x.count - 1] <= x.sendNs
    else TimedUntil(x.stamps, maxNs, n, n + 1 == x.count)
  }

  predicate BeganGetTime(p: Point, seconds: Bytes, chunk: Bytes, x: Exchange, transferred: bool, n: int, broken: bool,
                         error: Error) {
    match Negotiate(chunk, p.size)
    case None => x == Refused(true) && CutLine(n, broken, error)
    case Some(size) =>
      match ParsePositive(seconds, MAX_SECONDS)
      case None => x == Refused(true) && CutLine(n, broken, error)
      case Some(s) =>
        && x.Downloaded? && x.size == size && x.count > 0
        && CutTimed(x, s * NANOS, transferred, n)
        && CutDownload(p.input, x.count, x.answer, transferred, n, broken, error)
  }

  predicate BeganGetChunks(p: Point, count: Bytes, chunk: Bytes, x: Exchange, transferred: bool, n: int, broken: bool,
                           error: Error) {
    match Negotiate(chunk, p.size)
    case None => x == Refused(true) && CutLine(n, broken, error)
    case Some(size) =>
      match ParsePositive(count, MAX_CHUNKS)
      case None => x == Refused(true) && CutLine(n, broken, error)
      case Some(c) =>
        && x.Downloaded? && x.size == size && x.count == c
        && CutDownload(p.input, x.count, x.answer, transferred, n, broken, error)
  }

  predicate BeganPut(p: Point, chunk: Bytes, reports: bool, x: Exchange, transferred: bool, n: int, broken: bool,
                     error: Error) {
    match Negotiate(chunk, p.size)
    case None => x == Refused(true) && CutLine(n, broken, error)
    case Some(size) =>
      && size > 0
      && x.Uploaded? && x.size == size && x.reports == reports
      && CutUpload(p.input, size, x.chunks, reports, x.stamps, transferred, n, broken, error)
  }

  /**
   In the state `p`, just after the command was read, `n` writes of the answer `x` were made before it
   broke off; `transferred` tells whether the transfer or the round trip was complete by then.
   */
  predicate Began(p: Point, request: Request, x: Exchange, transferred: bool, n: int, broken: bool, error: Error) {
    match request
    case GetTime(seconds, chunk) => BeganGetTime(p, seconds, chunk, x, transferred, n, broken, error)
    case GetChunks(count, chunk) => BeganGetChunks(p, count, chunk, x, transferred, n, broken, error)
    case Put(chunk, reports) => BeganPut(p, chunk, reports, x, transferred, n, broken, error)
    case Ping => x.Pinged? && CutPing(p.input, x.ns, transferred, n, broken, error)
    case Quit => x == Closed && CutLine(n, broken, error)
    case Unknown => x == Refused(false) && CutLine(n, broken, error)
  }

  /** An exchange that broke off. */
  datatype Beginning = Beginning(x: Exchange, transferred: bool, n: int, broken: bool, error: Error)

  /** All the ways in which the answer to a command can break off. */
  ghost function Beginnings(p: Point, request: Request): iset<Beginning> {
    iset b: Beginning | Began(p, request, b.x, b.transferred, b.n, b.broken, b.error)
  }

  /** A handler took the state `p` to `q`, or ended with a failure after `n` writes. */
  ghost predicate Handled(p: Point, request: Request, q: Point, x: Exchange, transferred: bool, r: Status, n: int,
                          broken: bool) {
    match r
    case Done => transferred && Completion(x, q) in Completions(p, request)
    case Failed(error) => Beginning(x, transferred, n, broken, error) in Beginnings(p, request)
  }

  /** How far the exchange in progress had come when the session broke off. */
  datatype Phase = Waiting | Dispatched | Transferred

  /** Behind the offer: no command could be read, or the answer to the one that was read broke off. */
  ghost predicate BeganAnswer(p: Point, x: Exchange, phase: Phase, n: int, broken: bool, error: Error) {
    match TakeLine(p.input)
    case Failure(e) => x == Refused(false) && phase.Waiting? && n == 0 && !broken && error == e
    case Got(line, rest) =>
      var request := ParseRequest(line);
      && (phase.Waiting? <==> request.Quit? || request.Unknown?)
      && Beginning(x, phase.Transferred?, n, broken, error) in Beginnings(Point(p.size, rest), request)
  }

  /** A turn of the command loop broke off after `n` writes. */
  ghost predicate BeganTurn(p: Point, x: Exchange, phase: Phase, n: int, broken: bool, error: Error) {
    if n <= 0 then x == Refused(false) && phase.Waiting? && CutLine(n, broken, error)
    else BeganAnswer(p, x, phase, n - 1, broken, error)
  }

  /** A completed test counts as a command with its transfer, anything else not at all. */
  lemma AccountCompleted(s: Stats, x: Exchange)
    ensures Account(s, x) == if IsTest(x) then AccountCut(s, x, Transferred) else s
  {
  }

  function AccountCut(s: Stats, x: Exchange, phase: Phase): Stats {
    match phase
    case Waiting => s
    case Dispatched => s.(commands := s.commands + 1)
    case Transferred => AddTransfer(s.(commands := s.commands + 1), x)
  }

  /** A turn of the command loop that broke off. */
  datatype Interruption = Interruption(x: Exchange, phase: Phase, n: int, broken: bool, error: Error)

  /** All the ways in which a turn can break off. */
  ghost function Interruptions(p: Point): iset<Interruption> {
    iset c: Interruption | BeganTurn(p, c.x, c.phase, c.n, c.broken, c.error)
  }

  lemma InterruptedOffer(p: Point, error: Error)
    requires error == TransportFailed
    ensures Interruption(Refused(false), Waiting, 0, true, error) in Interruptions(p)
  {
  }

  lemma InterruptedRead(p: Point, error: Error)
    requires TakeLine(p.input) == Failure(error)
    ensures Interruption(Refused(false), Waiting, 1, false, error) in Interruptions(p)
  {
  }

  lemma InterruptedAnswer(p: Point, request: Request, rest: Input, x: Exchange, phase: Phase, n: nat, broken: bool,
                          error: Error)
    requires NextRequest(p.input, request, rest)
    requires phase.Waiting? <==> request.Quit? || request.Unknown?
    requires Beginning(x, phase.Transferred?, n, broken, error) in Beginnings(Point(p.size, rest), request)
    ensures Interruption(x, phase, n + 1, broken, error) in Interruptions(p)
  {
  }

  /**
   The command is refused for its chunk size, or that size takes effect and the command is refused for
   its other argument.
   */
  predicate TurnsDown(p: Point, request: Request, newSize: nat) {
    match request
    case GetTime(seconds, chunk) => BadArgument(chunk, p.size, ParsePositive(seconds, MAX_SECONDS), newSize)
    case GetChunks(count, chunk) => BadArgument(chunk, p.size, ParsePositive(count, MAX_CHUNKS), newSize)
    case Put(chunk, _) => Negotiate(chunk, p.size).None? && newSize == p.size
    case _ => false
  }

  predicate BadArgument(chunk: Bytes, size: nat, other: Option<nat>, newSize: nat) {
    match Negotiate(chunk, size)
    case None => newSize == size
    case Some(s) => other.None? && newSize == s
  }

  lemma HandledRefusal(p: Point, request: Request, newSize: nat, r: Status, n: int, broken: bool)
    requires TurnsDown(p, request, newSize) && (r.Failed? ==> CutLine(n, broken, r.error))
    ensures Handled(p, request, Point(newSize, p.input), Refused(true), true, r, n, broken)
  {
    if r.Done? {
      IsCompletion(p, request, Refused(true), Point(newSize, p.input));
    }
  }

  // ── Whole sessions ─────────────────────────────────────────────────────────────

  /** A session: the exchanges that were completed, and the one that broke off, if one did. */
  datatype Story = Story(run: Run, cut: Exchange, phase: Phase)

  /** From `start`, with `log0` written, the session `story` ended with the result `r`. */
  ghost predicate Tells(filler: Filler, story: Story, start: Point, log0: seq<Bytes>, r: Status, log: seq<Bytes>,
                        broken: bool, attempt: Bytes) {
    var (run, h) := (story.run, story.run.exchanges);
    && ValidRun(run) && run.points[0] == start
    && AllWellFormed(h) && WellFormed(story.cut) && ClosedAtEnd(h, r.Done?)
    && match r
       case Done => story.phase.Waiting? && !broken && log == log0 + Transcript(filler, h)
       case Failed(error) => CutShort(story, log0 + Transcript(filler, h), filler, log, broken, attempt, error)
  }

  /** Behind `before`, the last turn broke off. */
  ghost predicate CutShort(story: Story, before: seq<Bytes>, filler: Filler, log: seq<Bytes>, broken: bool,
                           attempt: Bytes, error: Error)
    requires ValidRun(story.run) && WellFormed(story.cut)
  {
    && Sent(before, [ACCEPT] + Reply(filler, story.cut), log, false, broken, attempt)
    && Interruption(story.cut, story.phase, |log| - |before|, broken, error)
      in Interruptions(story.run.points[|story.run.exchanges|])
  }

  /**
   The exchanges as they are accounted: one that broke off before its transfer was complete counts as a
   command only.
   */
  function Counted(story: Story): seq<Exchange> {
    story.run.exchanges + match story.phase
                          case Waiting => []
                          case Dispatched => [Refused(true)]
                          case Transferred => [story.cut]
  }

  lemma AccountStory(s: Stats, story: Story)
    requires story.phase.Transferred? ==> IsTest(story.cut)
    ensures AccountAll(s, Counted(story)) == AccountCut(AccountAll(s, story.run.exchanges), story.cut, story.phase)
  {
    var h := story.run.exchanges;
    match story.phase
    case Waiting => assert h + [] == h;
    case Dispatched => AccountSnoc(s, h, Refused(true));
    case Transferred => AccountSnoc(s, h, story.cut);
  }

  lemma TellsDone(filler: Filler, run: Run, start: Point, log0: seq<Bytes>, stats0: Stats, now: Point, log: seq<Bytes>,
                  attempt: Bytes, stats: Stats)
    requires Served(filler, run, start, log0, stats0, now, log, stats) && ClosedAtEnd(run.exchanges, true)
    ensures var story := Story(run, Refused(false), Waiting);
            && Tells(filler, story, start, log0, Done, log, false, attempt)
            && stats == AccountAll(stats0, Counted(story))
            && run.points[|run.exchanges|] == now
  {
    AccountStory(stats0, Story(run, Refused(false), Waiting));
  }

  lemma TellsCut(filler: Filler, run: Run, start: Point, log0: seq<Bytes>, stats0: Stats, now: Point,
                 before: seq<Bytes>, stats1: Stats, cut: Exchange, phase: Phase, plan: seq<Bytes>, error: Error,
                 log: seq<Bytes>, broken: bool, attempt: Bytes, stats: Stats)
    requires Served(filler, run, start, log0, stats0, now, before, stats1) && ClosedAtEnd(run.exchanges, false)
    requires WellFormed(cut) && plan == [ACCEPT] + Reply(filler, cut) && Sent(before, plan, log, false, broken, attempt)
    requires Interruption(cut, phase, |log| - |before|, broken, error) in Interruptions(now)
    requires (phase.Transferred? ==> IsTest(cut)) && stats == AccountCut(stats1, cut, phase)
    ensures Tells(filler, Story(run, cut, phase), start, log0, Failed(error), log, broken, attempt)
    ensures stats == AccountAll(stats0, Counted(Story(run, cut, phase)))
  {
    hide Interruptions, Sent, Serves;
    AccountStory(stats0, Story(run, cut, phase));
  }

  // ── The clock over a session ───────────────────────────────────────────────────

  /** One turn of the command loop: the times of the offer and of the request, if it came to them, and the answer. */
  datatype Turn = Turn(begin: nat, offered: seq<nat>, asked: seq<nat>, answer: Clocking) {
    function Writes(): seq<nat> {
      offered + answer.sent
    }

    function Reads(): seq<nat> {
      asked + answer.heard
    }
  }

  function AllWrites(turns: seq<Turn>): seq<nat> {
    if turns == [] then [] else AllWrites(turns[..|turns| - 1]) + turns[|turns| - 1].Writes()
  }

  function AllReads(turns: seq<Turn>): seq<nat> {
    if turns == [] then [] else AllReads(turns[..|turns| - 1]) + turns[|turns| - 1].Reads()
  }

  /** How many writes an answer takes, and how many reads. */
  function WritesOf(x: Exchange): nat {
    match x
    case Downloaded(_, count, _, _, _) => count + 1
    case Uploaded(size, _, reports, stamps, _) => |Progress(reports, stamps, size)| + 2
    case Pinged(_) => 2
    case _ => 1
  }

  function ReadsOf(x: Exchange): nat {
    match x
    case Downloaded(_, _, _, _, _) => 1
    case Uploaded(_, chunks, _, _, _) => |chunks|
    case Pinged(_) => 1
    case _ => 0
  }

  lemma ReplyWrites(filler: Filler, x: Exchange)
    requires WellFormed(x)
    ensures |Reply(filler, x)| == WritesOf(x)
  {
  }

  /** Offer, request and answer follow each other, and the times in the answer are those of the clock. */
  predicate ClockedTurn(x: Exchange, t: Turn) {
    && FirstFrom(t.offered, t.begin)
    && (t.asked != [] ==> t.offered != [] && t.offered[|t.offered| - 1] <= t.asked[0])
    && LastBy(t.asked, t.answer.begin) && t.begin <= t.answer.begin
    && Clocked(x, t.answer)
  }

  /** Each write and read of a completed turn has its time. */
  predicate Tallied(x: Exchange, t: Turn) {
    |t.offered| == |t.asked| == 1 && |t.answer.sent| == WritesOf(x) && |t.answer.heard| == ReadsOf(x)
  }

  /** From `begin` to `now` the turns followed one another without a gap. */
  predicate ClockedTurns(h: seq<Exchange>, turns: seq<Turn>, begin: nat, now: nat) {
    |h| == |turns| &&
    if h == [] then begin == now else
    var (n, t) := (|h| - 1, turns[|h| - 1]);
    ClockedTurns(h[..n], turns[..n], begin, t.begin) && ClockedTurn(h[n], t) && t.answer.end == now
  }

  /** The clock over a session: what had been sent and heard at its beginning, and its turns. */
  datatype Record = Record(begin: nat, sent: seq<nat>, heard: seq<nat>, turns: seq<Turn>)

  /**
   The record tells the times of the exchanges `h`, of which the first `whole` were completed: up to
   `now` these are all the times at which something was sent or heard.
   */
  predicate OnRecord(h: seq<Exchange>, whole: nat, record: Record, sent: seq<nat>, heard: seq<nat>, now: nat) {
    && ClockedTurns(h, record.turns, record.begin, now)
    && sent == record.sent + AllWrites(record.turns) && heard == record.heard + AllReads(record.turns)
    && (forall i :: 0 <= i < |h| && i < whole ==> Tallied(h[i], record.turns[i]))
  }

  lemma NothingOnRecord(sent: seq<nat>, heard: seq<nat>, now: nat)
    ensures OnRecord([], 0, Record(now, sent, heard, []), sent, heard, now)
  {
    assert sent + [] == sent && heard + [] == heard;
  }

  function AddTurn(record: Record, t: Turn): Record {
    record.(turns := record.turns + [t])
  }

  lemma OnRecordSnoc(h: seq<Exchange>, record: Record, sent: seq<nat>, heard: seq<nat>, x: Exchange, t: Turn,
                     whole: bool, newSent: seq<nat>, newHeard: seq<nat>)
    requires OnRecord(h, |h|, record, sent, heard, t.begin) && ClockedTurn(x, t) && (whole ==> Tallied(x, t))
    requires newSent == sent + t.Writes() && newHeard == heard + t.Reads()
    ensures OnRecord(h + [x], |h| + (if whole then 1 else 0), AddTurn(record, t), newSent, newHeard, t.answer.end)
  {
    hide ClockedTurn, Tallied;
    var turns := record.turns;
    assert (turns + [t])[..|turns|] == turns && (h + [x])[..|h|] == h;
    TimesThen(record.sent, AllWrites(turns), sent, t.Writes(), newSent);
    TimesThen(record.heard, AllReads(turns), heard, t.Reads(), newHeard);
  }

  /** The exchanges of a session that ended with `r`, the one that broke off included. */
  function Turns(story: Story, r: Status): seq<Exchange> {
    story.run.exchanges + if r.Done? then [] else [story.cut]
  }

  /** The latest time that an exchange reports. */
  function Latest(x: Exchange): nat {
    match x
    case Downloaded(_, _, _, _, Some(ns)) => ns
    case Uploaded(_, _, _, _, total) => total
    case Pinged(Some(ns)) => ns
    case _ => 0
  }

  /** No exchange reports a time later than `now`. */
  predicate AllBy(h: seq<Exchange>, now: nat) {
    forall i :: 0 <= i < |h| ==> Latest(h[i]) <= now
  }

  lemma AllByLater(h: seq<Exchange>, before: nat, now: nat)
    requires AllBy(h, before) && before <= now
    ensures AllBy(h, now)
  {
  }

  lemma LatestByClock(x: Exchange, c: Clocking)
    requires Clocked(x, c)
    ensures Latest(x) <= c.end
  {
  }

  lemma {:induction false} AllByClock(h: seq<Exchange>, turns: seq<Turn>, begin: nat, now: nat)
    requires ClockedTurns(h, turns, begin, now)
    ensures begin <= now && AllBy(h, now)
  {
    hide Clocked;
    if h != [] {
      var n := |h| - 1;
      AllByClock(h[..n], turns[..n], begin, turns[n].begin);
      LatestByClock(h[n], turns[n].answer);
      ClockRuns(h[n], turns[n].answer);
    }
  }

  lemma ClockRuns(x: Exchange, c: Clocking)
    requires Clocked(x, c)
    ensures c.begin <= c.start <= c.end
  {
  }

  // ── Bytes written as chunks ────────────────────────────────────────────────────

  /** Chunks are told from protocol lines by their last byte. */
  predicate IsChunk(w: Bytes) {
    w != [] && (w[|w| - 1] == TERMINAL || w[|w| - 1] == MORE)
  }

  function ChunkBytes(log: seq<Bytes>): nat {
    if log == [] then 0 else
    ChunkBytes(log[..|log| - 1]) + if IsChunk(log[|log| - 1]) then |log[|log| - 1]| else 0
  }

  lemma {:induction false} ChunkBytesConcat(a: seq<Bytes>, b: seq<Bytes>)
    ensures ChunkBytes(a + b) == ChunkBytes(a) + ChunkBytes(b)
  {
    if b == [] {
      assert a + b == a;
    } else {
      var n := |b| - 1;
      assert (a + b)[..|a + b| - 1] == a + b[..n] && (a + b)[|a + b| - 1] == b[n];
      ChunkBytesConcat(a, b[..n]);
    }
  }

  lemma {:induction false} ChunkBytesOfLines(lines: seq<Bytes>)
    requires forall w :: w in lines ==> !IsChunk(w)
    ensures ChunkBytes(lines) == 0
  {
    if lines != [] {
      assert lines[|lines| - 1] in lines;
      ChunkBytesOfLines(lines[..|lines| - 1]);
    }
  }

  lemma {:induction false} ChunkBytesOfChunks(chunks: seq<Bytes>, size: nat)
    requires forall i :: 0 <= i < |chunks| ==> IsChunk(chunks[i]) && |chunks[i]| == size
    ensures ChunkBytes(chunks) == size * |chunks|
  {
    if chunks != [] {
      var n := |chunks| - 1;
      ChunkBytesOfChunks(chunks[..n], size);
      assert IsChunk(chunks[n]) && |chunks[n]| == size;
      assert ChunkBytes(chunks) == ChunkBytes(chunks[..n]) + size;
      MulSnoc(size, n);
    }
  }

  lemma MulSnoc(size: nat, n: nat)
    ensures size * (n + 1) == size * n + size
  {
  }

  lemma MulSwap(m: nat, n: nat)
    ensures m * n == n * m
  {
  }

  lemma BalancedChunks(before: seq<Bytes>, filler: Filler, size: nat, count: nat)
    requires ValidSize(size)
    ensures ChunkBytes(before + Chunks(filler, size, count)) == ChunkBytes(before) + size * count
  {
    var chunks := Chunks(filler, size, count);
    assert forall i :: 0 <= i < count ==> chunks[i] == Chunk(filler, size, i == count - 1);
    ChunkBytesOfChunks(chunks, size);
    ChunkBytesConcat(before, chunks);
  }

  lemma BalancedLines(before: seq<Bytes>, lines: seq<Bytes>)
    requires forall w :: w in lines ==> !IsChunk(w)
    ensures ChunkBytes(before + lines) == ChunkBytes(before)
  {
    ChunkBytesOfLines(lines);
    ChunkBytesConcat(before, lines);
  }

  lemma UploadIsLines(reports: bool, stamps: seq<nat>, size: nat, total: nat)
    ensures forall w :: w in [OK] + (Progress(reports, stamps, size) + [TimeLine(total)]) ==> !IsChunk(w)
  {
    forall w | w in Progress(reports, stamps, size) ensures !IsChunk(w) {
    }
  }

  lemma PingIsLines(answer: Option<nat>)
    ensures forall w :: w in [PONG, Final(answer)] ==> !IsChunk(w)
  {
    FinalIsLine(answer);
  }

  /** A download in terms of its exchange. */
  lemma DownloadedExchange(filler: Filler, size: nat, count: nat, stamps: seq<nat>, sendNs: nat, answer: Option<nat>,
                           s: Stats)
    requires ValidSize(size) && count > 0 && (answer.Some? ==> sendNs <= answer.value)
    ensures var x := Downloaded(size, count, stamps, sendNs, answer);
            && WellFormed(x) && IsTest(x)
            && Reply(filler, x) == Chunks(filler, size, count) + [Final(answer)]
            && AddTransfer(s, x) == AddDownload(s, size * count, sendNs)
  {
  }

  /** A download is an answer, or the beginning of one, to its GETTIME. */
  lemma HandledGetTime(p: Point, seconds: Bytes, chunk: Bytes, secs: nat, x: Exchange, q: Point,
                       transferred: bool, r: Status, n: int, broken: bool)
    requires x.Downloaded? && WellFormed(x) && x.size == q.size
    requires Negotiate(chunk, p.size) == Some(x.size) && ParsePositive(seconds, MAX_SECONDS) == Some(secs)
    requires CutTimed(x, secs * NANOS, transferred, n)
    requires r.Done? ==> transferred && Acknowledges(p.input, x.answer, q.input)
    requires r.Failed? ==> CutDownload(p.input, x.count, x.answer, transferred, n, broken, r.error)
    ensures Handled(p, GetTime(seconds, chunk), q, x, transferred, r, n, broken)
  {
    hide TimedBy, TimedUntil, CutDownload, Acknowledges;
    if r.Done? {
      IsCompletion(p, GetTime(seconds, chunk), x, q);
    }
  }

  /** A download is an answer, or the beginning of one, to its GETCHUNKS. */
  lemma HandledGetChunks(p: Point, count: Bytes, chunk: Bytes, x: Exchange, q: Point,
                         transferred: bool, r: Status, n: int, broken: bool)
    requires x.Downloaded? && WellFormed(x) && x.size == q.size
    requires Negotiate(chunk, p.size) == Some(x.size) && ParsePositive(count, MAX_CHUNKS) == Some(x.count)
    requires r.Done? ==> transferred && Acknowledges(p.input, x.answer, q.input)
    requires r.Failed? ==> CutDownload(p.input, x.count, x.answer, transferred, n, broken, r.error)
    ensures Handled(p, GetChunks(count, chunk), q, x, transferred, r, n, broken)
  {
    hide CutDownload, Acknowledges;
    if r.Done? {
      IsCompletion(p, GetChunks(count, chunk), x, q);
    }
  }

  /** An upload in terms of its exchange. */
  lemma UploadedExchange(filler: Filler, size: nat, chunks: seq<Bytes>, reports: bool, stamps: seq<nat>, total: nat,
                         s: Stats)
    requires ValidSize(size) && TimesOf(reports, stamps, total)
    ensures var x := Uploaded(size, chunks, reports, stamps, total);
            && WellFormed(x) && IsTest(x)
            && Reply(filler, x) == [OK] + (Progress(reports, stamps, size) + [TimeLine(total)])
            && AddTransfer(s, x) == AddUpload(s, size * |chunks|, total)
  {
  }

  /** An upload is an answer, or the beginning of one, to its PUT or PUTNORESULT. */
  lemma HandledPut(p: Point, chunk: Bytes, x: Exchange, q: Point, received: bool, r: Status, n: int, broken: bool)
    requires x.Uploaded? && WellFormed(x) && x.size == q.size && Negotiate(chunk, p.size) == Some(x.size)
    requires r.Done? ==> received && Receive(p.input, x.size) == Complete(x.chunks, q.input)
    requires r.Done? && x.reports ==> |x.stamps| == |x.chunks|
    requires r.Failed? ==>
               Break(n, broken, r.error) in UploadBreaks(p.input, x.size, x.chunks, x.reports, x.stamps, received)
    ensures Handled(p, Put(chunk, x.reports), q, x, received, r, n, broken)
  {
    hide CutUpload, Receive;
    if r.Done? {
      IsCompletion(p, Put(chunk, x.reports), x, q);
    }
  }

  /** A round trip is an answer, or the beginning of one, to PING. */
  lemma HandledPing(p: Point, answer: Option<nat>, q: Point, heard: bool, r: Status, n: int, broken: bool)
    requires q.size == p.size
    requires r.Done? ==> heard && Acknowledges(p.input, answer, q.input)
    requires r.Failed? ==> CutPing(p.input, answer, heard, n, broken, r.error)
    ensures Handled(p, Ping, q, Pinged(answer), heard, r, n, broken)
  {
    hide CutPing, Acknowledges;
    if r.Done? {
      IsCompletion(p, Ping, Pinged(answer), q);
    }
  }

  /** A whole download writes exactly the bytes it is accounted with. */
  lemma DownloadedBytes(filler: Filler, x: Exchange, before: seq<Bytes>)
    requires x.Downloaded? && WellFormed(x)
    ensures ChunkBytes(before + Reply(filler, x)) == ChunkBytes(before) + x.size * x.count
  {
    var sent := before + Chunks(filler, x.size, x.count);
    BalancedChunks(before, filler, x.size, x.count);
    FinalIsLine(x.answer);
    BalancedLines(sent, [Final(x.answer)]);
    assert before + Reply(filler, x) == sent + [Final(x.answer)];
  }

  lemma ProgressIsLines(reports: bool, stamps: seq<nat>, size: nat, before: seq<Bytes>)
    ensures ChunkBytes(before + Progress(reports, stamps, size)) == ChunkBytes(before)
  {
    BalancedLines(before, Progress(reports, stamps, size));
  }

  lemma FinalIsLine(answer: Option<nat>)
    ensures !IsChunk(Final(answer))
  {
  }
}
