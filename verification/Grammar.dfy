/** The protocol as the client sees it: a grammar of writes, and why every connection keeps to it. */
module Grammar {
  import opened Text
  import opened Streams
  import opened Transfer
  import opened Session
  import Greeting
  import SessionTheorems

  // ── The protocol as the client sees it ─────────────────────────────────────────

  /** What the client may see next. */
  datatype Expect =
    | Hello(version: Bytes)
    | Prompt
    | Gate
    | Sizes
    | Offer
    | Answer
    | MoreChunks(size: nat)
    | Timing
    | Reporting(last: Option<Report>)
    | End
    | Wrong

  ghost predicate IsTimeLine(w: Bytes) {
    exists ns :: w == TimeLine(ns)
  }

  ghost predicate IsReportLine(w: Bytes) {
    exists r :: w == ReportLine(r)
  }

  /** A report must come at least a millisecond after the last one and tell more bytes. */
  predicate Follows(last: Option<Report>, r: Report) {
    last.Some? ==> last.value.ns + REPORT_INTERVAL <= r.ns && last.value.bytes < r.bytes
  }

  /** The grammar of a connection, one write at a time. */
  ghost function Next(e: Expect, w: Bytes): Expect {
    match e
    case Hello(version) => if w == version then Prompt else Wrong
    case Prompt => if w == Greeting.PROMPT then Gate else Wrong
    case Gate => if w == ERR || w == BYE then End else if w == OK then Sizes else Wrong
    case Sizes => if w == Greeting.CHUNK_SIZES then Offer else Wrong
    case Offer => if w == ACCEPT then Answer else Wrong
    case Answer =>
      if w == ERR then Offer
      else if w == OK then Reporting(None)
      else if w == PONG then Timing
      else if w == BYE then End
      else if IsChunk(w) && ValidSize(|w|) then (if IsTerminal(w) then Timing else MoreChunks(|w|))
      else Wrong
    case MoreChunks(size) =>
      if IsChunk(w) && |w| == size then (if IsTerminal(w) then Timing else e) else Wrong
    case Timing => if w == ERR || IsTimeLine(w) then Offer else Wrong
    case Reporting(last) =>
      if IsReportLine(w) then
        var r :| w == ReportLine(r);
        if Follows(last, r) then Reporting(Some(r)) else Wrong
      else if exists ns :: w == TimeLine(ns) && (last.Some? ==> last.value.ns <= ns) then Offer
      else Wrong
    case End => Wrong
    case Wrong => Wrong
  }

  ghost function Follow(e: Expect, ws: seq<Bytes>): Expect {
    if ws == [] then e else Next(Follow(e, ws[..|ws| - 1]), ws[|ws| - 1])
  }

  lemma FollowOne(e: Expect, w: Bytes)
    ensures Follow(e, [w]) == Next(e, w)
  {
    assert [w][..0] == [];
    assert Follow(e, []) == e;
  }

  lemma {:induction false} FollowConcat(e: Expect, a: seq<Bytes>, b: seq<Bytes>)
    ensures Follow(e, a + b) == Follow(Follow(e, a), b)
  {
    if b == [] {
      assert a + b == a;
    } else {
      var n := |b| - 1;
      assert (a + b)[..|a + b| - 1] == a + b[..n] && (a + b)[|a + b| - 1] == b[n];
      FollowConcat(e, a, b[..n]);
    }
  }

  lemma {:induction false} WrongStaysWrong(ws: seq<Bytes>)
    ensures Follow(Wrong, ws) == Wrong
  {
    if ws != [] {
      WrongStaysWrong(ws[..|ws| - 1]);
    }
  }

  /** The beginning of a right output is right. */
  lemma PrefixIsRight(e: Expect, a: seq<Bytes>, b: seq<Bytes>)
    requires Follow(e, a + b) != Wrong
    ensures Follow(e, a) != Wrong
  {
    FollowConcat(e, a, b);
    WrongStaysWrong(b);
  }

  lemma NextReport(last: Option<Report>, r: Report)
    requires Follows(last, r)
    ensures Next(Reporting(last), ReportLine(r)) == Reporting(Some(r))
  {
    assert IsReportLine(ReportLine(r));
    forall q: Report | ReportLine(q) == ReportLine(r) ensures q == r {
      ReportLineInjective(q, r);
    }
  }

  lemma NextTime(last: Option<Report>, ns: nat)
    requires last.Some? ==> last.value.ns <= ns
    ensures Next(Reporting(last), TimeLine(ns)) == Offer
  {
    forall r: Report ensures TimeLine(ns) != ReportLine(r) {
      LinesUnambiguous(ns, ns, r);
    }
    assert TimeLine(ns) == TimeLine(ns);
  }

  function Newest(rs: seq<Report>): Option<Report> {
    if rs == [] then None else Some(rs[|rs| - 1])
  }

  lemma {:induction false} FollowReports(rs: seq<Report>, total: nat)
    requires Spaced(rs) && Increasing(rs, total)
    ensures Follow(Reporting(None), ReportLines(rs)) == Reporting(Newest(rs))
  {
    if rs != [] {
      var n := |rs| - 1;
      FollowReports(rs[..n], total);
      var lines := ReportLines(rs);
      assert lines[..n] == ReportLines(rs[..n]) && lines[n] == ReportLine(rs[n]);
      if n > 0 {
        assert rs[n - 1].ns + REPORT_INTERVAL <= rs[(n - 1) + 1].ns;
      }
      NextReport(Newest(rs[..n]), rs[n]);
    }
  }

  lemma FollowSnoc(e: Expect, ws: seq<Bytes>, w: Bytes)
    ensures Follow(e, ws + [w]) == Next(Follow(e, ws), w)
  {
    assert (ws + [w])[..|ws|] == ws;
  }

  /** One chunk, wherever a chunk is possible. */
  lemma NextChunk(filler: Filler, size: nat, terminal: bool, e: Expect)
    requires ValidSize(size) && (e == Answer || e == MoreChunks(size))
    ensures Next(e, Chunk(filler, size, terminal)) == if terminal then Timing else MoreChunks(size)
  {
    var w := Chunk(filler, size, terminal);
    assert w[|w| - 1] == if terminal then TERMINAL else MORE;
  }

  lemma {:induction false} FollowMoreChunks(filler: Filler, size: nat, count: nat, n: nat)
    requires ValidSize(size) && n < count
    ensures Follow(Answer, Chunks(filler, size, count)[..n]) == if n == 0 then Answer else MoreChunks(size)
  {
    if n > 0 {
      var chunks := Chunks(filler, size, count);
      assert chunks[..n] == chunks[..n - 1] + [Chunk(filler, size, false)];
      FollowMoreChunks(filler, size, count, n - 1);
      FollowSnoc(Answer, chunks[..n - 1], Chunk(filler, size, false));
      NextChunk(filler, size, false, Follow(Answer, chunks[..n - 1]));
    }
  }

  lemma FollowChunks(filler: Filler, size: nat, count: nat)
    requires ValidSize(size) && count > 0
    ensures Follow(Answer, Chunks(filler, size, count)) == Timing
  {
    var chunks := Chunks(filler, size, count);
    assert chunks == chunks[..count - 1] + [Chunk(filler, size, true)];
    FollowMoreChunks(filler, size, count, count - 1);
    FollowSnoc(Answer, chunks[..count - 1], Chunk(filler, size, true));
    NextChunk(filler, size, true, Follow(Answer, chunks[..count - 1]));
  }

  lemma NextFinal(answer: Option<nat>)
    ensures Next(Timing, Final(answer)) == Offer
  {
    if answer.Some? {
      assert IsTimeLine(TimeLine(answer.value));
    }
  }

  /** Every answer follows the grammar. */
  lemma ReplyFollows(filler: Filler, x: Exchange)
    requires WellFormed(x)
    ensures Follow(Answer, Reply(filler, x)) == if x.Closed? then End else Offer
  {
    match x
    case Refused(_) => FollowOne(Answer, ERR);
    case Closed => FollowOne(Answer, BYE);
    case Pinged(ns) =>
      FollowConcat(Answer, [PONG], [Final(ns)]);
      FollowOne(Answer, PONG);
      FollowOne(Timing, Final(ns));
      NextFinal(ns);
    case Downloaded(size, count, _, _, answer) =>
      FollowConcat(Answer, Chunks(filler, size, count), [Final(answer)]);
      FollowChunks(filler, size, count);
      FollowOne(Timing, Final(answer));
      NextFinal(answer);
    case Uploaded(size, _, reports, stamps, total) => UploadFollows(size, reports, stamps, total);
  }

  lemma UploadFollows(size: nat, reports: bool, stamps: seq<nat>, total: nat)
    requires ValidSize(size) && TimesOf(reports, stamps, total)
    ensures Follow(Answer, [OK] + Progress(reports, stamps, size) + [TimeLine(total)]) == Offer
  {
    hide Follow;
    var lines := Progress(reports, stamps, size);
    var rs := if reports then Reports(stamps, size) else [];
    if reports && stamps != [] {
      ReportsSpaced(stamps, size);
      ReportsIncrease(stamps, size);
    }
    FollowReports(rs, size * |stamps|);
    assert lines == ReportLines(rs);
    FollowConcat(Answer, [OK] + lines, [TimeLine(total)]);
    FollowConcat(Answer, [OK], lines);
    FollowOne(Answer, OK);
    FollowOne(Reporting(Newest(rs)), TimeLine(total));
    NextTime(Newest(rs), total);
  }

  /** Every run of the command loop writes a word of the grammar, which ends exactly with BYE. */
  lemma {:induction false} TranscriptFollows(filler: Filler, h: seq<Exchange>, closed: bool)
    requires AllWellFormed(h) && ClosedAtEnd(h, closed)
    ensures Follow(Offer, Transcript(filler, h)) == if closed then End else Offer
  {
    if h != [] {
      var n := |h| - 1;
      TranscriptFollows(filler, h[..n], false);
      FollowConcat(Offer, Transcript(filler, h[..n]), [ACCEPT] + Reply(filler, h[n]));
      FollowConcat(Offer, [ACCEPT], Reply(filler, h[n]));
      FollowOne(Offer, ACCEPT);
      ReplyFollows(filler, h[n]);
    }
  }

  // ── Interrupted output ─────────────────────────────────────────────────────────

  /** The output begins a word of the grammar, even with the write that failed, if one did. */
  ghost predicate Right(e: Expect, log: seq<Bytes>, broken: bool, attempt: Bytes) {
    && Follow(e, log) != Wrong
    && (broken ==> Follow(e, log + [attempt]) != Wrong)
  }

  /** What was written of a right plan is right, and unless all of it was written it has not ended. */
  lemma SentIsRight(e: Expect, before: seq<Bytes>, plan: seq<Bytes>, log: seq<Bytes>, done: bool, broken: bool,
                    attempt: Bytes)
    requires Follow(e, before + plan) != Wrong
    requires Sent(before, plan, log, done, broken, attempt)
    ensures Right(e, log, broken, attempt)
    ensures log != before + plan ==> Follow(e, log) != End
  {
    var all := before + plan;
    assert all == log + all[|log|..];
    PrefixIsRight(e, log, all[|log|..]);
    if log != all {
      var next := all[|log|];
      assert all == (log + [next]) + all[|log| + 1..];
      PrefixIsRight(e, log + [next], all[|log| + 1..]);
      FollowConcat(e, log, [next]);
      FollowOne(Follow(e, log), next);
    }
  }

  /** A run and one more answer, from any point where a command is offered. */
  lemma PlannedFollows(e: Expect, before: seq<Bytes>, filler: Filler, h: seq<Exchange>, cut: Exchange)
    requires Follow(e, before) == Offer
    requires AllWellFormed(h) && ClosedAtEnd(h, false) && WellFormed(cut)
    ensures Follow(e, (before + Transcript(filler, h)) + ([ACCEPT] + Reply(filler, cut)))
         == if cut.Closed? then End else Offer
  {
    FollowConcat(e, before, Transcript(filler, h));
    TranscriptFollows(filler, h, false);
    FollowConcat(e, before + Transcript(filler, h), [ACCEPT] + Reply(filler, cut));
    FollowConcat(Offer, [ACCEPT], Reply(filler, cut));
    FollowOne(Offer, ACCEPT);
    ReplyFollows(filler, cut);
  }

  /** A run that broke off wrote the beginning of a word of the grammar, and not a whole one. */
  lemma CutRunIsRight(e: Expect, before: seq<Bytes>, filler: Filler, h: seq<Exchange>, cut: Exchange, log: seq<Bytes>,
                      broken: bool, attempt: Bytes)
    requires Follow(e, before) == Offer
    requires AllWellFormed(h) && ClosedAtEnd(h, false) && WellFormed(cut) && (cut.Closed? ==> broken)
    requires Sent(before + Transcript(filler, h), [ACCEPT] + Reply(filler, cut), log, false, broken, attempt)
    ensures Right(e, log, broken, attempt) && Follow(e, log) != End
  {
    PlannedFollows(e, before, filler, h, cut);
    SentIsRight(e, before + Transcript(filler, h), [ACCEPT] + Reply(filler, cut), log, false, broken, attempt);
  }

  /** A run that was closed by QUIT wrote a whole word of the grammar. */
  lemma ClosedRunIsRight(e: Expect, before: seq<Bytes>, filler: Filler, h: seq<Exchange>)
    requires Follow(e, before) == Offer
    requires AllWellFormed(h) && ClosedAtEnd(h, true)
    ensures Follow(e, before + Transcript(filler, h)) == End
  {
    FollowConcat(e, before, Transcript(filler, h));
    TranscriptFollows(filler, h, true);
  }

  /**
   Whatever the client does and wherever the transport fails: the output is right, and it ends exactly
   if QUIT was answered.
   */
  lemma StoryIsRight(e: Expect, filler: Filler, story: Story, start: Point, log0: seq<Bytes>, r: Status,
                     log: seq<Bytes>, broken: bool, attempt: Bytes)
    requires Follow(e, log0) == Offer && Tells(filler, story, start, log0, r, log, broken, attempt)
    ensures Right(e, log, broken, attempt) && (r.Done? <==> Follow(e, log) == End)
  {
    hide Interruptions, Serves, Sent;
    var h := story.run.exchanges;
    if r.Done? {
      ClosedRunIsRight(e, log0, filler, h);
    } else {
      var c := Interruption(story.cut, story.phase, |log| - |log0 + Transcript(filler, h)|, broken, r.error);
      SessionTheorems.InterruptionIsSane(story.run.points[|h|], c);
      CutRunIsRight(e, log0, filler, h, story.cut, log, broken, attempt);
    }
  }

  // ── The greeting ───────────────────────────────────────────────────────────────

  lemma GreetingFollows(config: Greeting.Config, admission: Greeting.Admission)
    ensures Follow(Hello(config.version), Greeting.GreetingLines(config, admission))
         == if admission.Admitted? then Offer else End
  {
    var e, tail := Hello(config.version), Greeting.Announcement(admission);
    FollowConcat(e, [config.version, Greeting.PROMPT], tail);
    FollowTwo(e, config.version, Greeting.PROMPT);
    if admission.Admitted? {
      FollowTwo(Gate, OK, Greeting.CHUNK_SIZES);
    } else {
      FollowOne(Gate, tail[0]);
    }
  }

  lemma FollowTwo(e: Expect, v: Bytes, w: Bytes)
    ensures Follow(e, [v, w]) == Next(Next(e, v), w)
  {
    assert [v, w] == [v] + [w];
    FollowConcat(e, [v], [w]);
    FollowOne(e, v);
    FollowOne(Next(e, v), w);
  }
}
