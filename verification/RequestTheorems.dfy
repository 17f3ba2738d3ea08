/** What the lines of a client mean: which command is read, when it is refused, and what is answered. */
module RequestTheorems {
  import opened Text
  import opened Streams
  import opened Transfer
  import opened Session

  // ── The fields of a line ───────────────────────────────────────────────────────

  /** What comes before the first space. */
  function Before(s: Bytes): Bytes {
    if s == [] || s[0] == ' ' then [] else [s[0]] + Before(s[1..])
  }

  /** What comes behind the first space, if there is one. */
  function Behind(s: Bytes): Bytes {
    if s == [] then [] else if s[0] == ' ' then s[1..] else Behind(s[1..])
  }

  /** The command word of a line, and its two arguments, of which the second one takes the rest. */
  function Word(line: Bytes): Bytes {
    Before(Trim(line))
  }

  function FirstArgument(line: Bytes): Bytes {
    Trim(Before(Behind(Trim(line))))
  }

  function SecondArgument(line: Bytes): Bytes {
    Trim(Behind(Behind(Trim(line))))
  }

  lemma {:induction false} BeforeFirst(s: Bytes, w: Bytes, rest: Bytes)
    requires ' ' !in w && (s == w || s == w + [' '] + rest)
    ensures Before(s) == w && Behind(s) == if s == w then [] else rest
  {
    if w == [] {
      assert s != w ==> s[1..] == rest;
    } else {
      assert s[0] == w[0] && w[1..] <= s[1..];
      assert s != w ==> s[1..] == w[1..] + [' '] + rest;
      assert w == [w[0]] + w[1..] && forall c :: c in w[1..] ==> c in w;
      BeforeFirst(s[1..], w[1..], rest);
    }
  }

  /** Splitting at the first space, if there is one. */
  lemma SplitAtSpace(s: Bytes)
    ensures match SplitOnce(s, " ")
            case None => ' ' !in s && Before(s) == s && Behind(s) == []
            case Some(p) => p == (Before(s), Behind(s)) && ' ' !in p.0
  {
    match SplitOnce(s, " ")
    case None =>
      forall i | 0 <= i < |s| ensures s[i] != ' ' {
        assert !At(s, " ", i);
        assert s[i..i + 1] == [s[i]];
      }
      BeforeFirst(s, s, []);
    case Some(p) =>
      var i := Find(s, " ", 0).value;
      forall j | 0 <= j < i ensures s[j] != ' ' {
        assert !At(s, " ", j);
        assert s[j..j + 1] == [s[j]];
      }
      assert p.0 == s[..i];
      BeforeFirst(s, p.0, p.1);
  }

  /** The three fields of a text. */
  lemma Fields(s: Bytes)
    ensures var parts := SplitN(s, 3, ' ');
            && parts[0] == Before(s)
            && (if |parts| > 1 then parts[1] == Before(Behind(s)) else Behind(s) == [])
            && (if |parts| > 2 then parts[2] == Behind(Behind(s)) else Behind(Behind(s)) == [])
  {
    SplitAtSpace(s);
    match SplitOnce(s, " ")
    case None =>
    case Some(p) =>
      SplitAtSpace(p.1);
      assert SplitN(s, 3, ' ') == [p.0] + SplitN(p.1, 2, ' ');
      match SplitOnce(p.1, " ")
      case None => assert SplitN(p.1, 2, ' ') == [p.1];
      case Some(q) => assert SplitN(p.1, 2, ' ') == [q.0] + SplitN(q.1, 1, ' ');
  }

  // ── Commands ───────────────────────────────────────────────────────────────────

  /** The commands that are offered. */
  const OFFERED: seq<Bytes> := ["GETCHUNKS", "GETTIME", "PUT", "PUTNORESULT", "PING", "QUIT"]

  /** The line that is sent before every command offers exactly these. */
  lemma AcceptOffers()
    ensures var w := OFFERED;
            ACCEPT == "ACCEPT " + w[0] + " " + w[1] + " " + w[2] + " " + w[3] + " " + w[4] + " " + w[5] + "\n"
  {
  }

  /** The request has the command word `w` and the arguments `a` and `b`. */
  predicate Means(r: Request, w: Bytes, a: Bytes, b: Bytes) {
    match r
    case GetTime(seconds, chunk) => w == "GETTIME" && seconds == a && chunk == b
    case GetChunks(count, chunk) => w == "GETCHUNKS" && count == a && chunk == b
    case Put(chunk, reports) => w == (if reports then "PUT" else "PUTNORESULT") && chunk == a
    case Ping => w == "PING"
    case Quit => w == "QUIT"
    case Unknown => w !in OFFERED
  }

  lemma WordsDiffer(w: Bytes)
    ensures w in OFFERED <==>
            w == "GETTIME" || w == "GETCHUNKS" || w == "PUT" || w == "PUTNORESULT" || w == "PING" || w == "QUIT"
  {
    assert w == "GETCHUNKS" ==> w == OFFERED[0];
    assert w == "GETTIME" ==> w == OFFERED[1];
    assert w == "PUT" ==> w == OFFERED[2];
    assert w == "PUTNORESULT" ==> w == OFFERED[3];
    assert w == "PING" ==> w == OFFERED[4];
    assert w == "QUIT" ==> w == OFFERED[5];
  }

  /** A word and its arguments belong to one request only. */
  lemma MeaningUnique(q: Request, r: Request, w: Bytes, a: Bytes, b: Bytes)
    requires Means(q, w, a, b) && Means(r, w, a, b)
    ensures q == r
  {
    WordsDiffer(w);
    assert |"GETCHUNKS"| == 9 && |"GETTIME"| == 7 && |"PUT"| == 3 && |"PUTNORESULT"| == 11;
    assert |"PING"| == 4 && |"QUIT"| == 4 && "PING"[0] != "QUIT"[0];
  }

  /** Every line is the request that its word and its arguments mean, and Unknown exactly if its word is not offered. */
  lemma RequestOfLine(line: Bytes)
    ensures Means(ParseRequest(line), Word(line), FirstArgument(line), SecondArgument(line))
  {
    hide Trim, SplitN, Before, Behind;
    var parts := SplitN(Trim(line), 3, ' ');
    Fields(Trim(line));
    TrimTight([]);
    BeforeFirst([], [], []);
    WordsDiffer(parts[0]);
  }

  // ── Round trip ─────────────────────────────────────────────────────────────────

  /** The arguments of a command as they are written; they are optional from the end. */
  function Arguments(a: Bytes, b: Bytes): Bytes {
    if b != [] then " " + a + " " + b else if a != [] then " " + a else []
  }

  /** A command as a client writes it. */
  function Spelled(r: Request): Bytes
    requires !r.Unknown?
  {
    match r
    case GetTime(seconds, chunk) => "GETTIME" + Arguments(seconds, chunk)
    case GetChunks(count, chunk) => "GETCHUNKS" + Arguments(count, chunk)
    case Put(chunk, reports) => (if reports then "PUT" else "PUTNORESULT") + Arguments(chunk, [])
    case Ping => "PING"
    case Quit => "QUIT"
  }

  /** The first argument is one field, and neither has white space around it. */
  predicate Spellable(r: Request) {
    match r
    case GetTime(seconds, chunk) => ' ' !in seconds && Tight(seconds) && Tight(chunk)
    case GetChunks(count, chunk) => ' ' !in count && Tight(count) && Tight(chunk)
    case Put(chunk, _) => ' ' !in chunk && Tight(chunk)
    case Unknown => false
    case _ => true
  }

  lemma TightEnds(w: Bytes, middle: Bytes, b: Bytes)
    requires w != [] && b != [] && Tight(w) && Tight(b)
    ensures Tight(w + middle + b)
  {
    var s := w + middle + b;
    assert s[0] == w[0] && s[|s| - 1] == b[|b| - 1];
  }

  lemma ArgumentsReadBack(w: Bytes, a: Bytes, b: Bytes)
    requires w != [] && ' ' !in w && Tight(w) && ' ' !in a && Tight(a) && Tight(b)
    ensures var s := w + Arguments(a, b);
            Tight(s) && Before(s) == w && Before(Behind(s)) == a && Behind(Behind(s)) == b
  {
    hide Tight, Before, Behind;
    var s := w + Arguments(a, b);
    if b != [] {
      assert s == w + [' '] + (a + [' '] + b) == w + ([' '] + a + [' ']) + b;
      BeforeFirst(s, w, a + [' '] + b);
      BeforeFirst(a + [' '] + b, a, b);
      TightEnds(w, [' '] + a + [' '], b);
    } else if a != [] {
      assert s == w + [' '] + a;
      BeforeFirst(s, w, a);
      BeforeFirst(a, a, []);
      TightEnds(w, [' '], a);
    } else {
      assert s == w;
      BeforeFirst(s, w, []);
      BeforeFirst([], [], []);
    }
  }

  lemma WordReadBack(line: Bytes, a: Bytes, b: Bytes, before: Bytes, w: Bytes, after: Bytes)
    requires w != [] && ' ' !in w && Tight(w) && ' ' !in a && Tight(a) && Tight(b)
    requires Blank(before) && Blank(after) && line == before + (w + Arguments(a, b)) + after
    ensures Word(line) == w && FirstArgument(line) == a && SecondArgument(line) == b
  {
    hide Trim, Tight, Blank, Before, Behind, Arguments;
    ArgumentsReadBack(w, a, b);
    TrimOfAround(before, w + Arguments(a, b), after);
    TrimTight(a);
    TrimTight(b);
  }

  lemma WordsAreTight(w: Bytes)
    requires w in OFFERED
    ensures w != [] && ' ' !in w && Tight(w)
  {
    WordsDiffer(w);
  }

  /**
   Parsing undoes printing, for every command, with and without its optional arguments, and any white
   space around it.
   */
  lemma RequestReadBack(r: Request, before: Bytes, after: Bytes)
    requires Spellable(r) && Blank(before) && Blank(after)
    ensures ParseRequest(before + Spelled(r) + after) == r
  {
    hide ParseRequest, Blank, Tight, Word, FirstArgument, SecondArgument;
    var line := before + Spelled(r) + after;
    var (w, a, b) := match r
                     case GetTime(seconds, chunk) => ("GETTIME", seconds, chunk)
                     case GetChunks(count, chunk) => ("GETCHUNKS", count, chunk)
                     case Put(chunk, reports) => (if reports then "PUT" else "PUTNORESULT", chunk, [])
                     case Ping => ("PING", [], [])
                     case _ => ("QUIT", [], []);
    EmptyIsTight();
    WordsDiffer(w);
    WordsAreTight(w);
    assert Spelled(r) == w + Arguments(a, b);
    WordReadBack(line, a, b, before, w, after);
    RequestOfLine(line);
    MeaningUnique(ParseRequest(line), r, w, a, b);
  }

  lemma EmptyIsTight()
    ensures Tight([]) && ' ' !in []
  {
  }

  // ── Which exchange a line leads to ─────────────────────────────────────────────

  lemma NumeralUnique(s: Bytes, m: nat, n: nat)
    requires Numeral(s, m) && Numeral(s, n)
    ensures m == n
  {
    hide Numeral;
    ParsesNumerals(s, m + n, m);
    ParsesNumerals(s, m + n, n);
  }

  /** The chunk size a command runs with: the one it asks for, or else the one in force. */
  ghost predicate SizeFor(arg: Bytes, size: nat, n: nat) {
    if arg == [] then n == size else Numeral(arg, n) && 4096 <= n <= 4_194_304
  }

  ghost predicate NumberFor(arg: Bytes, max: nat, n: nat) {
    Numeral(arg, n) && 1 <= n <= max
  }

  ghost predicate HasSize(arg: Bytes, size: nat) {
    exists n :: SizeFor(arg, size, n)
  }

  ghost predicate HasNumber(arg: Bytes, max: nat) {
    exists n :: NumberFor(arg, max, n)
  }

  lemma NegotiatesExactly(arg: Bytes, size: nat)
    ensures Negotiate(arg, size).Some? <==> HasSize(arg, size)
    ensures Negotiate(arg, size).Some? ==> SizeFor(arg, size, Negotiate(arg, size).value)
  {
    hide Numeral, ParseChunkSize;
    if Negotiate(arg, size).Some? {
      ChunkSizesAccepted(arg, Negotiate(arg, size).value);
      assert SizeFor(arg, size, Negotiate(arg, size).value);
    }
    if HasSize(arg, size) {
      var n :| SizeFor(arg, size, n);
      ChunkSizesAccepted(arg, n);
    }
  }

  lemma ParsesExactly(arg: Bytes, max: nat)
    requires max <= U32_MAX
    ensures ParsePositive(arg, max).Some? <==> HasNumber(arg, max)
    ensures ParsePositive(arg, max).Some? ==> NumberFor(arg, max, ParsePositive(arg, max).value)
  {
    hide Numeral, ParsePositive;
    if ParsePositive(arg, max).Some? {
      PositivesAccepted(arg, max, ParsePositive(arg, max).value);
      assert NumberFor(arg, max, ParsePositive(arg, max).value);
    }
    if HasNumber(arg, max) {
      var n :| NumberFor(arg, max, n);
      PositivesAccepted(arg, max, n);
    }
  }

  /**
   What the line with the word `w` and the arguments `a` and `b` leads to, with the chunk size `size` in
   force: a test is refused exactly if an argument is bad, and otherwise it is the test that was asked for.
   */
  ghost predicate LeadsTo(size: nat, w: Bytes, a: Bytes, b: Bytes, x: Exchange) {
    if w == "GETTIME" then
      if HasSize(b, size) && HasNumber(a, 30) then x.Downloaded? && SizeFor(b, size, x.size) else x == Refused(true)
    else if w == "GETCHUNKS" then
      if HasSize(b, size) && HasNumber(a, 300_000) then
        x.Downloaded? && SizeFor(b, size, x.size) && NumberFor(a, 300_000, x.count)
      else x == Refused(true)
    else if w == "PUT" || w == "PUTNORESULT" then
      if HasSize(a, size) then x.Uploaded? && SizeFor(a, size, x.size) && (x.reports <==> w == "PUT")
      else x == Refused(true)
    else if w == "PING" then x.Pinged?
    else if w == "QUIT" then x == Closed
    else x == Refused(false)
  }

  lemma AnswerIsRight(p: Point, request: Request, w: Bytes, a: Bytes, b: Bytes, x: Exchange, q: Point)
    requires Answers(p, request, x, q) && Means(request, w, a, b)
    ensures LeadsTo(p.size, w, a, b, x)
  {
    hide Numeral, Negotiate, ParsePositive, Receive, Acknowledges, TimedBy, HasSize, HasNumber, SizeFor, NumberFor;
    WordsDiffer(w);
    match request
    case GetTime(seconds, chunk) =>
      NegotiatesExactly(chunk, p.size);
      ParsesExactly(seconds, MAX_SECONDS);
    case GetChunks(count, chunk) =>
      NegotiatesExactly(chunk, p.size);
      ParsesExactly(count, MAX_CHUNKS);
    case Put(chunk, _) => NegotiatesExactly(chunk, p.size);
    case Ping =>
    case Quit =>
    case Unknown =>
  }

  lemma BeginningIsRight(p: Point, request: Request, w: Bytes, a: Bytes, b: Bytes, c: Beginning)
    requires c in Beginnings(p, request) && Means(request, w, a, b)
    ensures LeadsTo(p.size, w, a, b, c.x)
  {
    hide Numeral, Negotiate, ParsePositive, CutDownload, CutTimed, CutUpload, CutPing, HasSize, HasNumber, SizeFor,
      NumberFor;
    WordsDiffer(w);
    match request
    case GetTime(seconds, chunk) =>
      NegotiatesExactly(chunk, p.size);
      ParsesExactly(seconds, MAX_SECONDS);
    case GetChunks(count, chunk) =>
      NegotiatesExactly(chunk, p.size);
      ParsesExactly(count, MAX_CHUNKS);
    case Put(chunk, _) => NegotiatesExactly(chunk, p.size);
    case Ping =>
    case Quit =>
    case Unknown =>
  }

  /** The seconds that a completed GETTIME runs for are those in its argument. */
  lemma SecondsAreKept(p: Point, seconds: Bytes, chunk: Bytes, x: Exchange, q: Point, n: nat)
    requires Answers(p, GetTime(seconds, chunk), x, q) && x.Downloaded? && Numeral(seconds, n)
    ensures 1 <= n <= 30 && x.count == |x.stamps| && TimedBy(x.stamps, n * 1_000_000_000)
  {
    hide Numeral, Negotiate, TimedBy, Acknowledges;
    var k := ParsePositive(seconds, MAX_SECONDS).value;
    ParsesExactly(seconds, MAX_SECONDS);
    NumeralUnique(seconds, n, k);
  }

  // ── What is answered ───────────────────────────────────────────────────────────

  /** The next line is OK, with or without white space around it. */
  ghost predicate SaysOk(input: Input) {
    TakeLine(input).Got? && Around(TakeLine(input).data, "OK")
  }

  lemma AcknowledgesExactly(input: Input, answer: Option<nat>, rest: Input)
    requires Acknowledges(input, answer, rest)
    ensures answer.Some? <==> SaysOk(input)
    ensures TakeLine(input).Got? && rest == TakeLine(input).rest
  {
    hide TakeLine, Around, Trim;
    TrimExactly(TakeLine(input).data, "OK");
  }

  /** A test ends with its time if the client says OK, and with ERR otherwise. */
  ghost predicate EndsWith(w: Bytes, ok: bool) {
    if ok then exists ns :: w == "TIME " + Digits(ns) + "\n" else w == "ERR\n"
  }

  /** The writes of a download: chunks of one size, of which exactly the last one ends in 0xFF, and the end. */
  ghost predicate DownloadLines(reply: seq<Bytes>, size: nat, count: nat, ok: bool) {
    && |reply| == count + 1 && EndsWith(reply[count], ok)
    && forall i :: 0 <= i < count ==>
         |reply[i]| == size > 0 && reply[i][size - 1] == if i == count - 1 then 0xFF as char else '\0'
  }

  /** What is written in answer to a line with the word `w`, when `rest` is what the client sends behind it. */
  ghost predicate Written(w: Bytes, x: Exchange, reply: seq<Bytes>, rest: Input) {
    match x
    case Refused(_) => reply == ["ERR\n"]
    case Downloaded(size, count, _, _, _) => DownloadLines(reply, size, count, SaysOk(rest))
    case Uploaded(_, _, reports, _, _) =>
      && |reply| >= 2 && reply[0] == "OK\n" && EndsWith(reply[|reply| - 1], true)
      && (w == "PUTNORESULT" ==> |reply| == 2)
    case Pinged(_) => |reply| == 2 && reply[0] == "PONG\n" && EndsWith(reply[1], SaysOk(rest))
    case Closed => reply == ["BYE\n"]
  }

  lemma FinalEnds(answer: Option<nat>)
    ensures EndsWith(Final(answer), answer.Some?)
  {
    if answer.Some? {
      assert Final(answer) == "TIME " + Digits(answer.value) + "\n";
    }
  }

  lemma DownloadIsWritten(filler: Filler, x: Exchange, ok: bool)
    requires x.Downloaded? && WellFormed(x) && (x.answer.Some? <==> ok)
    ensures DownloadLines(Reply(filler, x), x.size, x.count, ok)
  {
    FinalEnds(x.answer);
    forall i | 0 <= i < x.count
      ensures |Reply(filler, x)[i]| == x.size
      ensures Reply(filler, x)[i][x.size - 1] == if i == x.count - 1 then 0xFF as char else '\0'
    {
      assert Reply(filler, x)[i] == Chunk(filler, x.size, i == x.count - 1);
    }
  }

  lemma AnswerIsWritten(filler: Filler, p: Point, request: Request, w: Bytes, a: Bytes, b: Bytes, x: Exchange, q: Point)
    requires Answers(p, request, x, q) && Means(request, w, a, b)
    ensures WellFormed(x) && Written(w, x, Reply(filler, x), p.input)
  {
    hide Negotiate, ParsePositive, Receive, Acknowledges, TimedBy, SaysOk, EndsWith, DownloadLines, Means, Digits;
    match x
    case Downloaded(_, _, _, _, answer) =>
      AcknowledgesExactly(p.input, answer, q.input);
      DownloadIsWritten(filler, x, SaysOk(p.input));
    case Pinged(ns) =>
      AcknowledgesExactly(p.input, ns, q.input);
      FinalEnds(ns);
    case Uploaded(_, _, _, _, total) =>
      FinalEnds(Some(total));
      PutMeans(request, w, a, b);
    case Refused(_) =>
    case Closed =>
  }

  lemma PutMeans(request: Request, w: Bytes, a: Bytes, b: Bytes)
    requires Means(request, w, a, b) && request.Put?
    ensures w == if request.reports then "PUT" else "PUTNORESULT"
  {
  }

  /**
   A completed turn. The line that was read decides what it is, whether it is refused, and what is
   written; and it closes the session exactly if its word is QUIT.
   */
  lemma TurnMeans(filler: Filler, p: Point, x: Exchange, q: Point)
    requires Step(Serves, p, x, q)
    ensures TakeLine(p.input).Got? && WellFormed(x)
    ensures var (line, rest) := (TakeLine(p.input).data, TakeLine(p.input).rest);
            && LeadsTo(p.size, Word(line), FirstArgument(line), SecondArgument(line), x)
            && Written(Word(line), x, Reply(filler, x), rest)
            && (x.Closed? <==> Word(line) == "QUIT")
  {
    hide Answers, LeadsTo, Written, TakeLine, Word, FirstArgument, SecondArgument;
    var (line, rest) := (TakeLine(p.input).data, TakeLine(p.input).rest);
    var (w, a, b) := (Word(line), FirstArgument(line), SecondArgument(line));
    RequestOfLine(line);
    AnswerIsRight(Point(p.size, rest), ParseRequest(line), w, a, b, x, q);
    AnswerIsWritten(filler, Point(p.size, rest), ParseRequest(line), w, a, b, x, q);
    ClosesOnQuit(p.size, w, a, b, x);
  }

  lemma ClosesOnQuit(size: nat, w: Bytes, a: Bytes, b: Bytes, x: Exchange)
    requires LeadsTo(size, w, a, b, x)
    ensures x.Closed? <==> w == "QUIT"
  {
  }

  /** An interrupted turn: if a line was read it decides what was begun. */
  lemma CutTurnMeans(p: Point, c: Interruption)
    requires c in Interruptions(p) && c.n > 0 && TakeLine(p.input).Got?
    ensures var line := TakeLine(p.input).data;
            LeadsTo(p.size, Word(line), FirstArgument(line), SecondArgument(line), c.x)
  {
    hide Beginnings, LeadsTo, TakeLine, Word, FirstArgument, SecondArgument, ParseRequest;
    var (line, rest) := (TakeLine(p.input).data, TakeLine(p.input).rest);
    RequestOfLine(line);
    BeginningIsRight(Point(p.size, rest), ParseRequest(line), Word(line), FirstArgument(line), SecondArgument(line),
                     Beginning(c.x, c.phase.Transferred?, c.n - 1, c.broken, c.error));
  }

  /** The word of the line that is read at a point of a session. */
  function WordAt(p: Point): Bytes {
    match TakeLine(p.input)
    case Got(line, _) => Word(line)
    case Failure(_) => []
  }

  /** A session ends without a failure exactly if its last line was QUIT, and no line before it was. */
  lemma QuitEnds(filler: Filler, story: Story, start: Point, log0: seq<Bytes>, r: Status, log: seq<Bytes>,
                 broken: bool, attempt: Bytes)
    requires Tells(filler, story, start, log0, r, log, broken, attempt)
    ensures var (h, points) := (story.run.exchanges, story.run.points);
            && |points| == |h| + 1
            && (r.Done? <==> h != [] && WordAt(points[|h| - 1]) == "QUIT")
            && forall i :: 0 <= i < |h| - 1 ==> WordAt(points[i]) != "QUIT"
  {
    hide Serves, TakeLine, Word, CutShort, LeadsTo, Written, Transcript;
    var h := story.run.exchanges;
    forall i | 0 <= i < |h| ensures h[i].Closed? <==> WordAt(story.run.points[i]) == "QUIT" {
      RunStep(story.run, i);
      TurnMeans(filler, story.run.points[i], h[i], story.run.points[i + 1]);
    }
  }
}
