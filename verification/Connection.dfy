/** One connection after the upgrade: greeting, then commands, then the reason for its end. */
module Connection {
  import opened Text
  import opened Address
  import opened Clocks
  import opened Streams
  import opened Transfer
  import opened Session
  import opened Token
  import opened Greeting
  import opened Grammar
  import ClockTheorems
  import Commands
  import SessionTheorems
  import StreamTheorems
  import WireTheorems

  /** Why the connection ended: in the greeting, with QUIT, or with a failure in the command loop. */
  datatype Ending = AuthFailed(error: Error) | ClientQuit | Broken(error: Error)

  // ── The token gate ─────────────────────────────────────────────────────────────

  /** Behind the prompt there is at most a refusal. */
  predicate TurnedAway(log: seq<Bytes>) {
    |log| <= 3 && (|log| == 3 ==> log[2] == ERR || log[2] == BYE)
  }

  /**
   Nothing but version, prompt and a refusal was written before the client's token was accepted and its
   time had come.
   */
  ghost predicate Gated(c: Crypto, config: Config, keys: seq<SecretKey>, source: Option<IpAddr>, input: Input,
                  now1: int, now2: int, log: seq<Bytes>, times: seq<nat>)
  {
    TurnedAway(log) ||
    (FirstLine(input).Got? &&
     forall i :: 2 <= i < |times| ==> GateOpen(c, config, keys, source, FirstLine(input).data, now1, now2, times[i]))
  }

  /** The gate that the greeting leaves behind. */
  ghost predicate GateSet(c: Crypto, config: Config, keys: seq<SecretKey>, source: Option<IpAddr>, input: Input,
                    now1: int, now2: int, mark: nat, gate: nat)
  {
    FirstLine(input).Got? && mark == 2 && GateOpen(c, config, keys, source, FirstLine(input).data, now1, now2, gate)
  }

  lemma GateStaysOpen(c: Crypto, config: Config, keys: seq<SecretKey>, source: Option<IpAddr>, input: Input,
                      now1: int, now2: int, log: seq<Bytes>, times: seq<nat>, mark: nat, gate: nat)
    requires GateSet(c, config, keys, source, input, now1, now2, mark, gate) && NotBefore(times, mark, gate)
    ensures Gated(c, config, keys, source, input, now1, now2, log, times)
  {
  }

  // ── The greeting ───────────────────────────────────────────────────────────────

  lemma TurnedAwayLog(config: Config, admission: Admission, log: seq<Bytes>, complete: bool, broken: bool,
                      attempt: Bytes)
    requires Sent([], GreetingLines(config, admission), log, complete, broken, attempt) && !admission.Admitted?
    ensures TurnedAway(log)
  {
    var lines := GreetingLines(config, admission);
    assert [] + lines == lines;
    assert log <= lines && |lines| == 3;
  }

  lemma GreetingIsLines(config: Config, admission: Admission, log: seq<Bytes>, complete: bool, broken: bool,
                        attempt: Bytes)
    requires Sent([], GreetingLines(config, admission), log, complete, broken, attempt)
    ensures ChunkBytes(log) == 0
  {
    var lines := GreetingLines(config, admission);
    assert [] + lines == lines;
    forall w | w in lines ensures !IsChunk(w) {
      assert w == config.version || w == PROMPT || w == OK || w == CHUNK_SIZES || w == BYE || w == ERR;
      FixedLines(w, config.version);
    }
    assert forall w :: w in log ==> w in lines;
    ChunkBytesOfLines(log);
  }

  lemma FixedLines(w: Bytes, version: Line)
    requires w == version || w == PROMPT || w == OK || w == CHUNK_SIZES || w == BYE || w == ERR
    ensures !IsChunk(w)
  {
  }

  /** What a greeting, whole or cut short, has written. */
  lemma GreetingEffect(config: Config, admission: Admission, log: seq<Bytes>, complete: bool, broken: bool,
                       attempt: Bytes)
    requires Sent([], GreetingLines(config, admission), log, complete, broken, attempt)
    ensures ChunkBytes(log) == 0 && Right(Hello(config.version), log, broken, attempt)
    ensures complete ==> log == GreetingLines(config, admission)
    ensures !admission.Admitted? ==> TurnedAway(log)
  {
    var lines := GreetingLines(config, admission);
    assert [] + lines == lines;
    GreetingFollows(config, admission);
    GreetingIsLines(config, admission, log, complete, broken, attempt);
    SentIsRight(Hello(config.version), [], lines, log, complete, broken, attempt);
    if !admission.Admitted? {
      TurnedAwayLog(config, admission, log, complete, broken, attempt);
    }
  }

  // ── The form on the wire ───────────────────────────────────────────────────────

  /** Two lines of one kind. */
  lemma PairOf(p: Bytes -> bool, v: Bytes, w: Bytes)
    requires p(v) && p(w)
    ensures WireTheorems.All(p, [v, w])
  {
  }

  lemma PromptClear()
    ensures WireTheorems.Clear(PROMPT)
  {
  }

  lemma AnnouncementClear(admission: Admission)
    ensures WireTheorems.All(WireTheorems.Clear, Announcement(admission))
  {
    match admission
    case Admitted(_) =>
      WireTheorems.OkClear();
      SizesClear();
      PairOf(WireTheorems.Clear, OK, CHUNK_SIZES);
    case LeftEarly =>
      WireTheorems.ByeClear();
      WireTheorems.AllOne(WireTheorems.Clear, BYE);
    case _ =>
      WireTheorems.ErrClear();
      WireTheorems.AllOne(WireTheorems.Clear, ERR);
  }

  /** Over WebSocket the greeting is text with unchanged bytes, as all lines are, if the version line is. */
  lemma GreetingTravels(config: Config, admission: Admission)
    requires StreamTheorems.TextLine(config.version)
    ensures WireTheorems.All(WireTheorems.Travels, GreetingLines(config, admission))
  {
    hide WireTheorems.Travels, WireTheorems.Clear;
    WireTheorems.LineTravels(config.version);
    PromptClear();
    WireTheorems.ClearTravels(PROMPT);
    PairOf(WireTheorems.Travels, config.version, PROMPT);
    AnnouncementClear(admission);
    WireTheorems.AllClearTravel(Announcement(admission));
    WireTheorems.AllConcat(WireTheorems.Travels, [config.version, PROMPT], Announcement(admission));
  }

  /** The greeting is made of protocol lines if the version line is one. */
  lemma GreetingClear(config: Config, admission: Admission)
    requires WireTheorems.ProtocolLine(config.version)
    ensures WireTheorems.All(WireTheorems.Clear, GreetingLines(config, admission))
  {
    PromptClear();
    PairOf(WireTheorems.Clear, config.version, PROMPT);
    AnnouncementClear(admission);
    WireTheorems.AllConcat(WireTheorems.Clear, [config.version, PROMPT], Announcement(admission));
  }

  lemma SizesClear()
    ensures WireTheorems.Clear(CHUNK_SIZES)
  {
    WireTheorems.DigitsLength(CHUNK_SIZE, 4);
    WireTheorems.DigitsLength(MIN_CHUNK_SIZE, 4);
    WireTheorems.DigitsLength(MAX_CHUNK_SIZE, 7);
  }

  /** Every chunk is on the wire as a binary message and every line as a text message, all with unchanged bytes. */
  predicate OnWire(log: seq<Bytes>, wire: seq<Message>) {
    && |wire| == |log|
    && forall i :: 0 <= i < |log| ==> wire[i] == if IsChunk(log[i]) then BinaryMessage(log[i]) else TextMessage(log[i])
  }

  /** The bytes that went out are those that were written, and a peer reads back exactly the writes. */
  predicate Received(ws: bool, log: seq<Bytes>, wire: seq<Message>) {
    && WireTheorems.BytesOut(wire) == Flatten(log)
    && WireTheorems.ReadsBack(WireTheorems.Incoming(ws, wire, true), log)
  }

  lemma TravelsOnWire(log: seq<Bytes>, wire: seq<Message>)
    requires AllFramed(true, log, wire) && WireTheorems.All(WireTheorems.Travels, log)
    ensures OnWire(log, wire)
  {
    forall i | 0 <= i < |log|
      ensures wire[i] == if IsChunk(log[i]) then BinaryMessage(log[i]) else TextMessage(log[i])
    {
      assert WireTheorems.Travels(log[i]);
    }
  }

  /** Reading the opening line takes nothing that was not sent. */
  lemma {:induction false} FirstLineWeight(input: Input)
    ensures FirstLine(input).Got? ==> WireTheorems.Weight(FirstLine(input).rest) <= WireTheorems.Weight(input)
    decreases input.Size()
  {
    WireTheorems.TakeLineWeight(input);
    if TakeLine(input).Got? && Trim(TakeLine(input).data) == [] {
      FirstLineWeight(TakeLine(input).rest);
    }
  }

  // ── Whole connections ──────────────────────────────────────────────────────────

  function ResultOf(end: Ending): Status {
    match end
    case ClientQuit => Done
    case AuthFailed(e) => Failed(e)
    case Broken(e) => Failed(e)
  }

  /** A connection that does not reach the command loop has no exchanges. */
  function NoStory(input: Input): Story {
    Story(Run([Point(CHUNK_SIZE, input)], []), Refused(false), Waiting)
  }

  /**
   How a connection ends, and what it was: either its greeting fails, or the client is admitted and
   the commands that follow the opening line make up the story.
   */
  ghost predicate Ends(filler: Filler, c: Crypto, config: Config, keys: seq<SecretKey>, source: Option<IpAddr>,
                       input: Input, end: Ending, admission: Admission, now1: int, now2: int, story: Story, rest: Input,
                       log: seq<Bytes>, broken: bool, attempt: Bytes)
  {
    if end.AuthFailed? then
      && Greeted(c, config, keys, source, input, admission, now1, now2, [], Failed(end.error), rest, log, broken,
                 attempt)
      && story == NoStory(rest)
    else
      && FirstLine(input).Got? && admission.Admitted?
      && admission == Decide(c, config, keys, source, FirstLine(input).data, now1, now2)
      && Tells(filler, story, Point(CHUNK_SIZE, FirstLine(input).rest), GreetingLines(config, admission), ResultOf(end),
               log, broken, attempt)
  }

  /** The counters are those of the exchanges in the story, and they tell what really went over the connection. */
  ghost predicate Accounts(filler: Filler, story: Story, before: seq<Bytes>, log: seq<Bytes>, stats: Stats) {
    && AllWellFormed(story.run.exchanges)
    && var (h, transcript) := (Counted(story), Transcript(filler, story.run.exchanges));
       && stats == AccountAll(NO_STATS, h)
       && stats.commands == |SessionTheorems.Tests(h)|
       && stats.pingCount == |SessionTheorems.Pings(h)|
       && stats.uploadBytes == |Flatten(SessionTheorems.UploadedChunks(h))|
       && ChunkBytes(log) == stats.downloadBytes + SessionTheorems.Unfinished(story, |log| - |before + transcript|)
  }

  lemma TellsWellFormed(filler: Filler, story: Story, start: Point, log0: seq<Bytes>, r: Status, log: seq<Bytes>,
                        broken: bool, attempt: Bytes)
    requires Tells(filler, story, start, log0, r, log, broken, attempt)
    ensures AllWellFormed(story.run.exchanges)
  {
  }

  lemma StoryAccounts(filler: Filler, story: Story, start: Point, log0: seq<Bytes>, r: Status, log: seq<Bytes>,
                      broken: bool, attempt: Bytes, stats: Stats)
    requires Tells(filler, story, start, log0, r, log, broken, attempt)
    requires ChunkBytes(log0) == 0 && stats == AccountAll(NO_STATS, Counted(story))
    ensures Accounts(filler, story, log0, log, stats)
  {
    hide Tells, Counted, AccountAll, Transcript, ChunkBytes, Flatten;
    TellsWellFormed(filler, story, start, log0, r, log, broken, attempt);
    SessionTheorems.StoryConserves(filler, story, start, log0, r, log, broken, attempt);
    SessionTheorems.CountersCount(Counted(story));
  }

  /** The times accounted fit into the time that the commands took. */
  lemma StoryFits(filler: Filler, story: Story, start: Point, log0: seq<Bytes>, r: Status, log: seq<Bytes>,
                  broken: bool, attempt: Bytes, record: Record, sent: seq<nat>, heard: seq<nat>, now: nat, stats: Stats)
    requires Tells(filler, story, start, log0, r, log, broken, attempt) && stats == AccountAll(NO_STATS, Counted(story))
    requires OnRecord(Turns(story, r), |story.run.exchanges|, record, sent, heard, now)
    ensures stats.downloadNs + stats.uploadNs <= now - record.begin
  {
    hide ValidRun, OnRecord, Counted, Turns, AccountAll, CutShort;
    ClockTheorems.TransfersFit(story, r, |story.run.exchanges|, record, sent, heard, now);
  }

  lemma NothingAccounts(filler: Filler, input: Input, before: seq<Bytes>, log: seq<Bytes>)
    requires ChunkBytes(log) == 0
    ensures Accounts(filler, NoStory(input), before, log, NO_STATS)
  {
    assert Counted(NoStory(input)) == [];
  }

  /** The greeting: what it leaves behind. */
  method Greet(stream: Stream, c: Crypto, config: Config, keys: seq<SecretKey>, source: Option<IpAddr>)
    returns (r: Status, ghost admission: Admission, ghost now1: int, ghost now2: int)
    requires stream.Valid() && !stream.broken && stream.log == []
    modifies stream, stream.clock
    ensures stream.Valid() && stream.input.Ws? == old(stream.input.Ws?) && old(stream.clock.now) <= stream.clock.now
    ensures ChunkBytes(stream.log) == 0
    ensures Greeted(c, config, keys, source, old(stream.input), admission, now1, now2, [], r, stream.input,
                    stream.log, stream.broken, stream.attempt)
    ensures Right(Hello(config.version), stream.log, stream.broken, stream.attempt)
    ensures Seconds(old(stream.clock.now)) <= now1 <= now2 <= Seconds(stream.clock.now)
    ensures TurnedAway(stream.log)
            || GateSet(c, config, keys, source, old(stream.input), now1, now2, stream.mark, stream.gate)
    ensures r.Done? ==> GateSet(c, config, keys, source, old(stream.input), now1, now2, stream.mark, stream.gate)
    ensures r.Done? ==> !stream.broken && stream.log == GreetingLines(config, admission) && admission.Admitted?
  {
    hide Right, FirstLine, GateOpen, Decide, ChunkBytes, Sent;
    var a;
    r, a, now1, now2 := RunGreeting(stream, c, config, keys, source);
    admission := a;
    ghost var complete := !stream.broken && FirstLine(old(stream.input)).Got?;
    GreetingEffect(config, admission, stream.log, complete, stream.broken, stream.attempt);
  }

  /**
   `handle_connection` after the upgrade. `now1` and `now2` are the clock readings of the token check,
   `story` the exchanges of the command loop.
   */
  method HandleConnection(stream: Stream, filler: Filler, c: Crypto, config: Config, keys: seq<SecretKey>,
                          source: Option<IpAddr>, stats: Commands.ConnStats)
    returns (end: Ending, ghost admission: Admission, ghost now1: int, ghost now2: int, ghost story: Story,
             ghost record: Record)
    requires stream.Valid() && !stream.broken && stream.log == [] && stats.Value() == NO_STATS
    modifies stream, stream.clock, stats
    ensures stream.Valid() && stream.input.Ws? == old(stream.input.Ws?)
    // What happened, and why it ended.
    ensures Ends(filler, c, config, keys, source, old(stream.input), end, admission, now1, now2, story, stream.input,
                 stream.log, stream.broken, stream.attempt)
    ensures Seconds(old(stream.clock.now)) <= now1 <= now2 <= Seconds(stream.clock.now)
    // The output keeps to the grammar, and once the client is admitted it is complete exactly if the client quits.
    ensures Right(Hello(config.version), stream.log, stream.broken, stream.attempt)
    ensures !end.AuthFailed? ==> (end.ClientQuit? <==> Follow(Hello(config.version), stream.log) == End)
    // The token gate.
    ensures Gated(c, config, keys, source, old(stream.input), now1, now2, stream.log, stream.times)
    // The clock: behind the greeting every read and write has its time, and the times reported are those of the clock.
    ensures !end.AuthFailed? ==>
              && OnRecord(Turns(story, ResultOf(end)), |story.run.exchanges|, record, stream.times, stream.heard,
                          stream.clock.now)
              && |record.sent| == |GreetingLines(config, admission)| && now2 <= Seconds(record.begin)
    ensures stats.Value().downloadNs + stats.Value().uploadNs <= stream.clock.now - old(stream.clock.now)
    // Conservation.
    ensures Accounts(filler, story, GreetingLines(config, admission), stream.log, stats.Value())
    // The form on the wire.
    ensures (stream.input.Ws? && StreamTheorems.TextLine(config.version) && stream.clock.now <= NO_PING
             && WireTheorems.Weight(old(stream.input)) <= U64_MAX) ==> OnWire(stream.log, stream.wire)
    ensures !stream.input.Ws? ==>
              |stream.wire| == |stream.log| && forall i :: 0 <= i < |stream.log| ==>
                stream.wire[i] == Plain(stream.log[i])
    // A peer that reads it back gets the same lines and chunks, in both variants.
    ensures (WireTheorems.ProtocolLine(config.version) && stream.clock.now <= NO_PING
             && WireTheorems.Weight(old(stream.input)) <= U64_MAX) ==>
              Received(stream.input.Ws?, stream.log, stream.wire)
  {
    hide Right, Greeted, GateSet, Gated, TurnedAway, Accounts, OnWire, Received, Follow, FirstLine, Decide, Tells,
      ChunkBytes, StreamTheorems.TextLine, WireTheorems.Weight, AccountAll, Counted, AllBy, OnRecord;
    var r;
    r, admission, now1, now2 := Greet(stream, c, config, keys, source);
    ghost var lines, rest := GreetingLines(config, admission), stream.input;
    record := Record(stream.clock.now, stream.times, stream.heard, []);
    if r.Failed? {
      end, story := AuthFailed(r.error), NoStory(stream.input);
      NothingAccounts(filler, stream.input, lines, stream.log);
      GreetingOnWire(c, config, keys, source, old(stream.input), admission, now1, now2, r, stream.input, stream.log,
                     stream.broken, stream.attempt, stream.wire, stream.input.Ws?);
    } else {
      AdmittedBy(c, config, keys, source, old(stream.input), admission, now1, now2, r, rest, stream.log,
                 stream.attempt);
      r, story, record := Commands.RunCommands(stream, filler, stats);
      end := if r.Done? then ClientQuit else Broken(r.error);
      GreetingFollows(config, admission);
      StoryIsRight(Hello(config.version), filler, story, Point(CHUNK_SIZE, rest), lines, r, stream.log, stream.broken,
                   stream.attempt);
      StoryAccounts(filler, story, Point(CHUNK_SIZE, rest), lines, r, stream.log, stream.broken, stream.attempt,
                    stats.Value());
      StoryFits(filler, story, Point(CHUNK_SIZE, rest), lines, r, stream.log, stream.broken, stream.attempt, record,
                stream.times, stream.heard, stream.clock.now, stats.Value());
      StoryOnWire(filler, config, admission, story, old(stream.input), rest, r, stream.log, stream.broken,
                  stream.attempt, stream.wire, stream.input.Ws?, stream.clock.now);
      StoryReceived(filler, config, admission, story, old(stream.input), rest, r, stream.log, stream.broken,
                  stream.attempt, stream.wire, stream.input.Ws?, stream.clock.now);
    }
    RawOnWire(stream.log, stream.wire, stream.input.Ws?);
    GatedBy(c, config, keys, source, old(stream.input), now1, now2, stream.log, stream.times, stream.mark, stream.gate);
  }

  lemma GatedBy(c: Crypto, config: Config, keys: seq<SecretKey>, source: Option<IpAddr>, input: Input,
                now1: int, now2: int, log: seq<Bytes>, times: seq<nat>, mark: nat, gate: nat)
    requires TurnedAway(log) || GateSet(c, config, keys, source, input, now1, now2, mark, gate)
    requires NotBefore(times, mark, gate)
    ensures Gated(c, config, keys, source, input, now1, now2, log, times)
  {
    if !TurnedAway(log) {
      GateStaysOpen(c, config, keys, source, input, now1, now2, log, times, mark, gate);
    }
  }

  /** An admitted client: its opening line was read and decided so. */
  lemma AdmittedBy(c: Crypto, config: Config, keys: seq<SecretKey>, source: Option<IpAddr>, input: Input,
                   admission: Admission, now1: int, now2: int, r: Status, rest: Input, log: seq<Bytes>, attempt: Bytes)
    requires Greeted(c, config, keys, source, input, admission, now1, now2, [], r, rest, log, false, attempt) && r.Done?
    ensures FirstLine(input).Got? && rest == FirstLine(input).rest
    ensures admission == Decide(c, config, keys, source, FirstLine(input).data, now1, now2)
  {
  }

  lemma GreetingOnWire(c: Crypto, config: Config, keys: seq<SecretKey>, source: Option<IpAddr>, input: Input,
                       admission: Admission, now1: int, now2: int, r: Status, rest: Input, log: seq<Bytes>,
                       broken: bool, attempt: Bytes, wire: seq<Message>, ws: bool)
    requires Greeted(c, config, keys, source, input, admission, now1, now2, [], r, rest, log, broken, attempt)
    requires AllFramed(ws, log, wire)
    ensures ws && StreamTheorems.TextLine(config.version) ==> OnWire(log, wire)
    ensures WireTheorems.ProtocolLine(config.version) ==> Received(ws, log, wire)
  {
    hide StreamTheorems.TextLine, WireTheorems.ProtocolLine, WireTheorems.Travels, OnWire, Received, AllFramed;
    var lines := GreetingLines(config, admission);
    assert [] + lines == lines;
    GreetingReceived(config, admission, log, wire, ws);
    if ws && StreamTheorems.TextLine(config.version) {
      GreetingTravels(config, admission);
      WireTheorems.AllPrefix(WireTheorems.Travels, log, lines);
      TravelsOnWire(log, wire);
    }
  }

  lemma StoryOnWire(filler: Filler, config: Config, admission: Admission, story: Story, input: Input, rest: Input,
                    r: Status, log: seq<Bytes>, broken: bool, attempt: Bytes, wire: seq<Message>, ws: bool, now: nat)
    requires FirstLine(input).Got? && rest == FirstLine(input).rest
    requires Tells(filler, story, Point(CHUNK_SIZE, rest), GreetingLines(config, admission), r, log, broken, attempt)
    requires AllBy(story.run.exchanges, now) && Latest(story.cut) <= now && AllFramed(ws, log, wire)
    ensures ws && StreamTheorems.TextLine(config.version) && now <= NO_PING && WireTheorems.Weight(input) <= U64_MAX ==>
              OnWire(log, wire)
  {
    hide StreamTheorems.TextLine, WireTheorems.Travels, WireTheorems.Weight, Tells, OnWire, AllFramed, FirstLine;
    if ws && StreamTheorems.TextLine(config.version) && now <= NO_PING && WireTheorems.Weight(input) <= U64_MAX {
      GreetingTravels(config, admission);
      FirstLineWeight(input);
      AllByLater(story.run.exchanges, now, NO_PING);
      WireTheorems.StoryTravels(filler, story, Point(CHUNK_SIZE, rest), GreetingLines(config, admission), r, log,
                                broken, attempt);
      TravelsOnWire(log, wire);
    }
  }

  lemma RawOnWire(log: seq<Bytes>, wire: seq<Message>, ws: bool)
    requires AllFramed(ws, log, wire)
    ensures !ws ==> |wire| == |log| && forall i :: 0 <= i < |log| ==> wire[i] == Plain(log[i])
  {
    if !ws {
      WireTheorems.RawIsPlain(log, wire);
    }
  }

  lemma GreetingReceived(config: Config, admission: Admission, log: seq<Bytes>, wire: seq<Message>, ws: bool)
    requires log <= GreetingLines(config, admission) && AllFramed(ws, log, wire)
    ensures WireTheorems.ProtocolLine(config.version) ==> Received(ws, log, wire)
  {
    if WireTheorems.ProtocolLine(config.version) {
      GreetingClear(config, admission);
      WireTheorems.AllPrefix(WireTheorems.Clear, log, GreetingLines(config, admission));
      WireTheorems.PeerReadsLog(ws, log, wire, true);
    }
  }

  lemma StoryReceived(filler: Filler, config: Config, admission: Admission, story: Story, input: Input, rest: Input,
                      r: Status, log: seq<Bytes>, broken: bool, attempt: Bytes, wire: seq<Message>, ws: bool, now: nat)
    requires FirstLine(input).Got? && rest == FirstLine(input).rest
    requires Tells(filler, story, Point(CHUNK_SIZE, rest), GreetingLines(config, admission), r, log, broken, attempt)
    requires AllBy(story.run.exchanges, now) && Latest(story.cut) <= now && AllFramed(ws, log, wire)
    ensures WireTheorems.ProtocolLine(config.version) && now <= NO_PING && WireTheorems.Weight(input) <= U64_MAX ==>
              Received(ws, log, wire)
  {
    hide WireTheorems.ProtocolLine, WireTheorems.Clear, WireTheorems.Weight, Tells, Received, AllFramed, FirstLine;
    if WireTheorems.ProtocolLine(config.version) && now <= NO_PING && WireTheorems.Weight(input) <= U64_MAX {
      var lines := GreetingLines(config, admission);
      GreetingClear(config, admission);
      FirstLineWeight(input);
      AllByLater(story.run.exchanges, now, NO_PING);
      EnoughForClear();
      WireTheorems.StoryKeeps(WireTheorems.Clear, filler, story, Point(CHUNK_SIZE, rest), lines, r, log, broken,
                              attempt);
      WireTheorems.PeerReadsLog(ws, log, wire, true);
      IsReceived(ws, log, wire);
    }
  }

  lemma EnoughForClear()
    ensures WireTheorems.Suffices(WireTheorems.Clear)
  {
  }

  lemma IsReceived(ws: bool, log: seq<Bytes>, wire: seq<Message>)
    requires WireTheorems.BytesOut(wire) == Flatten(log)
    requires WireTheorems.ReadsBack(WireTheorems.Incoming(ws, wire, true), log)
    ensures Received(ws, log, wire)
  {
  }
}
