/**
 What the times of a session mean: timed downloads stop on time, reports follow the chunks, every time
 is measured.
 */
module ClockTheorems {
  import opened Text
  import opened Streams
  import opened Transfer
  import opened Session
  import SessionTheorems

  // ── Timed downloads ────────────────────────────────────────────────────────────

  /** Of the `started` chunks only the last two can have been finished at or after `deadline`. */
  predicate AllButTwoBefore(sent: seq<nat>, started: nat, deadline: nat) {
    forall i :: 0 <= i < started - 2 && i < |sent| ==> sent[i] < deadline
  }

  lemma EarlyChunks(start: nat, stamps: seq<nat>, sent: seq<nat>, maxNs: nat, n: nat, last: bool)
    requires Paced(start, stamps, sent) && TimedUntil(stamps, maxNs, n, last)
    ensures AllButTwoBefore(sent, n + 1, start + maxNs)
    ensures last && n < |sent| ==> start + maxNs <= sent[n]
  {
    forall i | 0 <= i < n - 1 && i < |sent| ensures sent[i] < start + maxNs {
      assert stamps[..n][i + 1] == stamps[i + 1];
    }
  }

  /**
   A timed download of `seconds`: when the last chunk was written the time was up, all chunks but the last
   two were written before, and neither of the times told is shorter than the time asked for.
   */
  predicate StoppedOnTime(seconds: Bytes, x: Exchange, c: Clocking)
    requires x.Downloaded?
  {
    match ParsePositive(seconds, MAX_SECONDS)
    case None => false
    case Some(s) =>
      && AllButTwoBefore(c.sent, x.count, c.start + s * NANOS)
      && 0 < x.count <= |c.sent| && c.start + s * NANOS <= c.sent[x.count - 1]
      && s * NANOS <= x.sendNs && (x.answer.Some? ==> s * NANOS <= x.answer.value)
  }

  lemma GetTimeStopsOnTime(p: Point, seconds: Bytes, chunk: Bytes, x: Exchange, q: Point, c: Clocking)
    requires Completion(x, q) in Completions(p, GetTime(seconds, chunk)) && x.Downloaded?
    requires Clocked(x, c) && x.count <= |c.sent|
    ensures StoppedOnTime(seconds, x, c)
  {
    hide Acknowledges, StillRunning, Measured;
    EarlyChunks(c.start, x.stamps, c.sent, ParsePositive(seconds, MAX_SECONDS).value * NANOS, x.count - 1, true);
  }

  /**
   A GETTIME that breaks off has not run on: the chunk that could not be written is at most the first
   one too many.
   */
  lemma CutGetTimeStopsOnTime(p: Point, seconds: Bytes, chunk: Bytes, b: Beginning, c: Clocking)
    requires b in Beginnings(p, GetTime(seconds, chunk)) && b.x.Downloaded? && !b.transferred && b.n >= 0
    requires Clocked(b.x, c)
    ensures ParsePositive(seconds, MAX_SECONDS).Some?
    ensures AllButTwoBefore(c.sent, b.n + 1, c.start + ParsePositive(seconds, MAX_SECONDS).value * NANOS)
  {
    hide StillRunning, Measured;
    EarlyChunks(c.start, b.x.stamps, c.sent, ParsePositive(seconds, MAX_SECONDS).value * NANOS, b.n,
                b.n + 1 == b.x.count);
  }

  // ── Reports ────────────────────────────────────────────────────────────────────

  /** After the first `k + 1` reads, and not after the next one. */
  predicate Between(heard: seq<nat>, k: nat, t: nat) {
    k < |heard| && heard[k] <= t && (k + 1 < |heard| ==> t <= heard[k + 1])
  }

  /** A report tells exactly the bytes of the chunks that were read by the time it tells. */
  lemma ReportTellsReads(x: Exchange, c: Clocking, i: nat) returns (k: nat)
    requires x.Uploaded? && Clocked(x, c) && i < |Reports(x.stamps, x.size)|
    ensures Reports(x.stamps, x.size)[i].bytes == x.size * (k + 1)
    ensures Between(c.heard, k, c.start + Reports(x.stamps, x.size)[i].ns)
  {
    k := ReportsTellChunks(x.stamps, x.size, i);
  }

  /** `r` was taken not after the read `m` was reported on, and less than a millisecond before that read was over. */
  predicate Recent(r: Report, c: Clocking, m: nat) {
    && m < |c.heard| && c.heard[m] < c.start + r.ns + REPORT_INTERVAL
    && (m + 1 < |c.heard| ==> c.start + r.ns <= c.heard[m + 1])
  }

  /** No chunk arrives a millisecond or more after the latest report without being reported. */
  lemma ArrivalsAreReported(x: Exchange, c: Clocking, m: nat)
    requires x.Uploaded? && WellFormed(x) && Clocked(x, c) && m < |x.stamps|
    ensures exists r :: r in Reports(x.stamps, x.size) && Recent(r, c, m)
  {
    ReportsTimely(x.stamps, x.size, m);
    var rs, t := Reports(x.stamps, x.size), x.stamps[m];
    var i :| 0 <= i < |rs| && rs[i].ns <= t < rs[i].ns + REPORT_INTERVAL;
    assert rs[i] in rs && Recent(rs[i], c, m);
  }

  // ── Every time is measured ─────────────────────────────────────────────────────

  /** `ns` covers what passed from `first` to `last`, and it is no longer than the whole exchange. */
  predicate Covering(ns: nat, first: nat, last: nat, c: Clocking) {
    last - first <= ns <= c.end - c.begin
  }

  /**
   The times of an exchange cover what they are the times of: the send time the writes of all chunks,
   an answer what passed from the first write until the acknowledgement was heard, the time of an upload
   the reads of all chunks.
   */
  predicate TellsTime(x: Exchange, c: Clocking) {
    match x
    case Downloaded(_, count, _, sendNs, answer) =>
      && (0 < count <= |c.sent| ==> Covering(sendNs, c.sent[0], c.sent[count - 1], c))
      && (answer.Some? && c.sent != [] ==>
          c.heard != [] && Covering(answer.value, c.sent[0], c.heard[|c.heard| - 1], c))
    case Uploaded(_, _, _, _, total) =>
      c.heard != [] ==> Covering(total, c.heard[0], c.heard[|c.heard| - 1], c)
    case Pinged(Some(ns)) =>
      c.sent != [] && c.heard != [] && Covering(ns, c.sent[0], c.heard[|c.heard| - 1], c)
    case _ => true
  }

  lemma ClockedTellsTime(x: Exchange, c: Clocking)
    requires Clocked(x, c)
    ensures TellsTime(x, c)
  {
    hide Paced, Stamped;
  }

  /** One turn after the other, each with its measured times, from the beginning of the session to its end. */
  lemma {:induction false} TurnsTellTime(h: seq<Exchange>, turns: seq<Turn>, begin: nat, now: nat, i: nat)
    requires ClockedTurns(h, turns, begin, now) && i < |h|
    ensures ClockedTurn(h[i], turns[i]) && TellsTime(h[i], turns[i].answer)
    ensures begin <= turns[i].begin <= turns[i].answer.end <= now
    ensures i + 1 < |h| ==> turns[i].answer.end == turns[i + 1].begin
  {
    hide Clocked, TellsTime;
    var n := |h| - 1;
    ClockRuns(h[n], turns[n].answer);
    if i == n {
      AllByClock(h[..n], turns[..n], begin, turns[n].begin);
      ClockedTellsTime(h[n], turns[n].answer);
    } else {
      TurnsTellTime(h[..n], turns[..n], begin, turns[n].begin, i);
      if i + 1 == n {
        EndOfTurns(h[..n], turns[..n], begin, turns[n].begin);
      }
    }
  }

  lemma EndOfTurns(h: seq<Exchange>, turns: seq<Turn>, begin: nat, now: nat)
    requires ClockedTurns(h, turns, begin, now) && h != []
    ensures turns[|h| - 1].answer.end == now
  {
  }

  /** In every session, each completed GETTIME stops on time by the recorded times. */
  lemma SessionStopsOnTime(story: Story, r: Status, record: Record, sent: seq<nat>, heard: seq<nat>, now: nat, i: nat)
    requires ValidRun(story.run) && i < |story.run.exchanges|
    requires OnRecord(Turns(story, r), |story.run.exchanges|, record, sent, heard, now)
    ensures TakeLine(story.run.points[i].input).Got? && i < |record.turns|
    ensures var (x, request) := (story.run.exchanges[i], ParseRequest(TakeLine(story.run.points[i].input).data));
            x.Downloaded? && request.GetTime? ==> StoppedOnTime(request.seconds, x, record.turns[i].answer)
  {
    hide Clocked, Completions, StoppedOnTime, Serves, TakeLine;
    var (x, p, q) := (story.run.exchanges[i], story.run.points[i], story.run.points[i + 1]);
    assert Turns(story, r)[i] == x;
    TurnsTellTime(Turns(story, r), record.turns, record.begin, now, i);
    RunStep(story.run, i);
    var rest, request := SessionTheorems.StepAnswers(p, x, q);
    if x.Downloaded? && request.GetTime? {
      GetTimeStopsOnTime(Point(p.size, rest), request.seconds, request.chunk, x, q, record.turns[i].answer);
    }
  }

  lemma AllStamped(p: Point, request: Request, x: Exchange, q: Point)
    requires Completion(x, q) in Completions(p, request) && x.Uploaded? && x.reports
    ensures WellFormed(x) && |x.stamps| == |x.chunks|
  {
    hide Receive;
  }

  /** In every session, each chunk of a completed PUT is reported in time. */
  lemma SessionReportsArrivals(story: Story, r: Status, record: Record, sent: seq<nat>, heard: seq<nat>, now: nat,
                               i: nat, m: nat)
    requires ValidRun(story.run) && i < |story.run.exchanges|
    requires OnRecord(Turns(story, r), |story.run.exchanges|, record, sent, heard, now)
    requires story.run.exchanges[i].Uploaded? && story.run.exchanges[i].reports && m < |story.run.exchanges[i].chunks|
    ensures i < |record.turns| && |record.turns[i].answer.heard| == |story.run.exchanges[i].chunks|
    ensures exists r :: r in Reports(story.run.exchanges[i].stamps, story.run.exchanges[i].size)
                        && Recent(r, record.turns[i].answer, m)
  {
    hide Clocked, Completions, Recent, Reports, Serves, TakeLine;
    var (x, p, q) := (story.run.exchanges[i], story.run.points[i], story.run.points[i + 1]);
    assert Turns(story, r)[i] == x;
    TurnsTellTime(Turns(story, r), record.turns, record.begin, now, i);
    RunStep(story.run, i);
    var rest, request := SessionTheorems.StepAnswers(p, x, q);
    AllStamped(Point(p.size, rest), request, x, q);
    ArrivalsAreReported(x, record.turns[i].answer, m);
  }

  // ── The time of all transfers ──────────────────────────────────────────────────

  function Sum(s: seq<nat>): nat {
    if s == [] then 0 else Sum(s[..|s| - 1]) + s[|s| - 1]
  }

  /** The time that is accounted to downloads, uploads and pings. */
  function Accounted(h: seq<Exchange>): nat {
    var s := AccountAll(NO_STATS, h);
    s.downloadNs + s.uploadNs + Sum(SessionTheorems.Pings(h))
  }

  /** The time that is accounted to one exchange. */
  function TimeOf(x: Exchange): nat {
    match x
    case Downloaded(_, _, _, sendNs, _) => sendNs
    case Uploaded(_, _, _, _, total) => total
    case Pinged(Some(ns)) => ns
    case _ => 0
  }

  lemma AccountedSnoc(h: seq<Exchange>, x: Exchange)
    ensures Accounted(h + [x]) == Accounted(h) + TimeOf(x)
  {
    AccountSnoc(NO_STATS, h, x);
    var pings := SessionTheorems.Pings(h);
    assert (h + [x])[..|h|] == h;
    if x.Pinged? && x.ns.Some? {
      assert SessionTheorems.Pings(h + [x]) == pings + [x.ns.value];
      assert (pings + [x.ns.value])[..|pings|] == pings;
    } else {
      assert SessionTheorems.Pings(h + [x]) == pings + [];
      assert pings + [] == pings;
    }
  }

  lemma TimeByClock(x: Exchange, c: Clocking)
    requires Clocked(x, c)
    ensures TimeOf(x) <= c.end - c.begin
  {
    hide Paced, Stamped;
  }

  lemma {:induction false} TurnsFit(h: seq<Exchange>, turns: seq<Turn>, begin: nat, now: nat)
    requires ClockedTurns(h, turns, begin, now)
    ensures Accounted(h) <= now - begin
  {
    hide Clocked, Accounted;
    if h == [] {
      assert Accounted([]) == 0 by { NothingAccounted(); }
    } else {
      var n := |h| - 1;
      TurnsFit(h[..n], turns[..n], begin, turns[n].begin);
      AccountedSnoc(h[..n], h[n]);
      assert h[..n] + [h[n]] == h;
      TimeByClock(h[n], turns[n].answer);
    }
  }

  lemma NothingAccounted()
    ensures Accounted([]) == 0
  {
  }

  /**
   Over every session, however it ends: the times that are accounted to downloads, uploads and pings fit
   one after the other into the time the session took.
   */
  lemma TransfersFit(story: Story, r: Status, whole: nat, record: Record, sent: seq<nat>, heard: seq<nat>, now: nat)
    requires OnRecord(Turns(story, r), whole, record, sent, heard, now) && (r.Done? ==> story.phase.Waiting?)
    ensures Accounted(Counted(story)) <= now - record.begin
  {
    hide Clocked, Accounted, ClockedTurn;
    var (h, all) := (story.run.exchanges, Turns(story, r));
    TurnsFit(all, record.turns, record.begin, now);
    if r.Done? {
      assert h + [] == h;
    } else {
      assert all[..|h|] == h && all[|h|] == story.cut;
      AccountedSnoc(h, story.cut);
      match story.phase
      case Waiting => assert h + [] == h;
      case Dispatched => AccountedSnoc(h, Refused(true));
      case Transferred =>
    }
  }

  /** The send times of the downloads, and the times of the uploads. */
  function SendTimes(h: seq<Exchange>): seq<nat> {
    if h == [] then [] else
    SendTimes(h[..|h| - 1]) + if h[|h| - 1].Downloaded? then [h[|h| - 1].sendNs] else []
  }

  function UploadTimes(h: seq<Exchange>): seq<nat> {
    if h == [] then [] else
    UploadTimes(h[..|h| - 1]) + if h[|h| - 1].Uploaded? then [h[|h| - 1].total] else []
  }

  lemma SumMore(s: seq<nat>, more: bool, n: nat)
    ensures Sum(s + if more then [n] else []) == Sum(s) + if more then n else 0
  {
    assert (s + [n])[..|s|] == s && s + [] == s;
  }

  lemma AccountedTimes(s: Stats, x: Exchange)
    ensures Account(s, x).downloadNs == s.downloadNs + if x.Downloaded? then x.sendNs else 0
    ensures Account(s, x).uploadNs == s.uploadNs + if x.Uploaded? then x.total else 0
  {
  }

  /** Both time counters are the sums of the times of the exchanges that are accounted. */
  lemma {:induction false} TimesAreSums(h: seq<Exchange>)
    ensures AccountAll(NO_STATS, h).downloadNs == Sum(SendTimes(h))
    ensures AccountAll(NO_STATS, h).uploadNs == Sum(UploadTimes(h))
  {
    hide Account;
    if h != [] {
      var (front, x) := (h[..|h| - 1], h[|h| - 1]);
      TimesAreSums(front);
      AccountedTimes(AccountAll(NO_STATS, front), x);
      SumMore(SendTimes(front), x.Downloaded?, if x.Downloaded? then x.sendNs else 0);
      SumMore(UploadTimes(front), x.Uploaded?, if x.Uploaded? then x.total else 0);
    }
  }
}
