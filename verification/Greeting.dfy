/** The greeting: version, token gate, chunk sizes. */
module Greeting {
  import opened Text
  import opened Address
  import opened Clocks
  import opened Streams
  import opened Token
  import Base64
  import Commands
  import Session
  import StreamTheorems
  import TokenTheorems
  import TokenVerdicts
  import Transfer

  const PROMPT: Bytes := "ACCEPT TOKEN QUIT\n"

  const CHUNK_SIZES: Bytes :=
    "CHUNKSIZE " + Digits(CHUNK_SIZE) + " " + Digits(Transfer.MIN_CHUNK_SIZE) + " "
    + Digits(Transfer.MAX_CHUNK_SIZE) + "\n"

  type Line = b: Bytes | b != [] && b[|b| - 1] == '\n' witness "\n"

  /** `version` is the greeting line, which is fixed when the server is built. */
  datatype Config = Config(version: Line, checkToken: bool, v2Only: bool)

  /** What is remembered of a successful greeting. */
  datatype Identity = Identity(uuid: Bytes, tokenType: Bytes, keyName: Bytes)

  // ── The opening line ───────────────────────────────────────────────────────────

  /** The first line that is not blank. */
  function FirstLine(input: Input): Taken
    decreases input.Size()
  {
    match TakeLine(input)
    case Failure(e) => Failure(e)
    case Got(line, rest) => if Trim(line) == [] then FirstLine(rest) else Got(line, rest)
  }

  datatype Opening = Presented(token: Bytes) | Quitting | Malformed

  function ParseOpening(line: Bytes): Opening {
    if StartsWith(line, "TOKEN ") then Presented(Trim(line[6..]))
    else if StartsWith(TrimStart(line), "QUIT") then Quitting
    else Malformed
  }

  /** The text before the first underscore. */
  function UuidOf(token: Bytes): Bytes {
    match SplitOnce(token, "_")
    case Some(p) => p.0
    case None => token
  }

  function IdentityOf(token: Bytes, keyName: Bytes): Identity {
    Identity(UuidOf(token), if Find(token, "#v2#", 0).Some? then "v2" else "v1", keyName)
  }

  // ── The decision ───────────────────────────────────────────────────────────────

  datatype Admission = Admitted(identity: Identity) | Rejected(verdict: TokenResult) | LeftEarly | NoToken

  /** What becomes of a client that presents `line`, given the clock readings of the check. */
  function Decide(c: Crypto, config: Config, keys: seq<SecretKey>, source: Option<IpAddr>, line: Bytes,
                  now1: int, now2: int): Admission
  {
    match ParseOpening(line)
    case Quitting => LeftEarly
    case Malformed => NoToken
    case Presented(token) =>
      if !config.checkToken then Admitted(IdentityOf(token, [])) else
      match Verdict(c, token, keys, source, config.v2Only, now1, now2)
      case Accepted(_, keyName) => Admitted(IdentityOf(token, keyName))
      case rejected => Rejected(rejected)
  }

  /** What the server writes to a client it deals with so, after version and prompt. */
  function Announcement(admission: Admission): seq<Bytes> {
    match admission
    case Admitted(_) => [Session.OK, CHUNK_SIZES]
    case LeftEarly => [Session.BYE]
    case _ => [Session.ERR]
  }

  function GreetingLines(config: Config, admission: Admission): seq<Bytes> {
    [config.version, PROMPT] + Announcement(admission)
  }

  /** The start time in the presented token. */
  function StartOf(line: Bytes, now1: int): int {
    match ParseOpening(line)
    case Presented(token) => StartTime(token, now1)
    case _ => 0
  }

  /**
   The gate: the client presents a token that is accepted by the clock and was made for it with a loaded
   key, and by `now` its start time has come.
   */
  ghost predicate GateOpen(c: Crypto, config: Config, keys: seq<SecretKey>, source: Option<IpAddr>, line: Bytes,
                     now1: int, now2: int, now: nat)
  {
    config.checkToken ==>
      && ParseOpening(line).Presented?
      && Verdict(c, ParseOpening(line).token, keys, source, config.v2Only, now1, now2).Accepted?
      && now1 <= now2 <= Seconds(now)
      && StartOf(line, now1) * NANOS_PER_SEC <= now
      && exists k :: k in keys && TokenVerdicts.Genuine(c, ParseOpening(line).token, k, source, StartOf(line, now1))
  }

  // ── Theorems ───────────────────────────────────────────────────────────────────

  /** An accepted token has a start time in the window, and the sleep bridges what is left until then. */
  lemma AcceptedStart(c: Crypto, token: Bytes, keys: seq<SecretKey>, source: Option<IpAddr>, v2Only: bool, now1: int,
                      now2: int)
    requires Verdict(c, token, keys, source, v2Only, now1, now2).Accepted?
    ensures var start := StartTime(token, now1);
            var sleep := Verdict(c, token, keys, source, v2Only, now1, now2).sleepSecs;
            && InWindow(start, now2)
            && sleep == (if start > now2 then start - now2 else 0)
            && sleep <= 20
  {
  }

  /** The line presents this token. */
  ghost predicate Presents(line: Bytes, token: Bytes) {
    exists rest: Bytes :: line == "TOKEN " + rest && Tight(token) && Around(rest, token)
  }

  /** The line starts with QUIT, behind any white space. */
  ghost predicate SaysQuit(line: Bytes) {
    exists a: Bytes, rest: Bytes :: Blank(a) && line == a + "QUIT" + rest
  }

  lemma PresentsExactly(line: Bytes, token: Bytes)
    ensures ParseOpening(line) == Presented(token) <==> Presents(line, token)
  {
    hide Trim, Tight, Around;
    if StartsWith(line, "TOKEN ") {
      assert line == "TOKEN " + line[6..];
      TrimExactly(line[6..], token);
    }
    if Presents(line, token) {
      var rest: Bytes :| line == "TOKEN " + rest && Tight(token) && Around(rest, token);
      assert line[6..] == rest && "TOKEN " <= line;
      TrimExactly(rest, token);
    }
  }

  lemma QuitExactly(line: Bytes)
    ensures StartsWith(TrimStart(line), "QUIT") <==> SaysQuit(line)
  {
    hide TrimStart, Blank;
    var u := TrimStart(line);
    if StartsWith(u, "QUIT") {
      TrimStartBlank(line);
      SplitBehind(line, u, "QUIT");
    }
    if SaysQuit(line) {
      var a: Bytes, rest: Bytes :| Blank(a) && line == a + "QUIT" + rest;
      assert line == a + ("QUIT" + rest);
      TrimStartSkips(a, "QUIT" + rest);
      StartsAtWord(rest);
    }
  }

  lemma SplitBehind(s: Bytes, u: Bytes, word: Bytes)
    requires |u| <= |s| && u == s[|s| - |u|..] && word <= u
    ensures s == s[..|s| - |u|] + word + u[|word|..]
  {
  }

  lemma StartsAtWord(rest: Bytes)
    ensures TrimStart("QUIT" + rest) == "QUIT" + rest
  {
  }

  /** A line that presents a token is answered by the verdict on it. */
  lemma TokenIsAnswered(c: Crypto, config: Config, keys: seq<SecretKey>, source: Option<IpAddr>, line: Bytes,
                        token: Bytes, now1: int, now2: int)
    requires Presents(line, token)
    ensures var admission := Decide(c, config, keys, source, line, now1, now2);
            var sizes := "CHUNKSIZE " + Digits(4096) + " " + Digits(4096) + " " + Digits(4_194_304) + "\n";
            if !config.checkToken || Verdict(c, token, keys, source, config.v2Only, now1, now2).Accepted? then
              Announcement(admission) == ["OK\n", sizes] && Refusal(admission) == Done
            else Announcement(admission) == ["ERR\n"] && Refusal(admission) == Failed(TokenRejected)
  {
    hide ParseOpening, Verdict, Presents, Digits, IdentityOf;
    PresentsExactly(line, token);
  }

  /** Any other line is answered BYE if it starts with QUIT, and ERR if not. */
  lemma OtherIsAnswered(c: Crypto, config: Config, keys: seq<SecretKey>, source: Option<IpAddr>, line: Bytes,
                        now1: int, now2: int)
    requires forall token :: !Presents(line, token)
    ensures var admission := Decide(c, config, keys, source, line, now1, now2);
            if SaysQuit(line) then
              Announcement(admission) == ["BYE\n"] && Refusal(admission) == Failed(QuitBeforeToken)
            else Announcement(admission) == ["ERR\n"] && Refusal(admission) == Failed(ExpectedToken)
  {
    hide Verdict, Presents, SaysQuit, Trim, TrimStart, IdentityOf;
    QuitExactly(line);
    PresentsExactly(line, Trim(line[if |line| < 6 then |line| else 6..]));
  }

  /** What is remembered of an issued token: its UUID, its version, and the key that signed it. */
  lemma IdentityOfIssued(c: Crypto, key: Bytes, uuid: Bytes, start: int, ip: IpAddr, name: Bytes)
    requires TokenTheorems.UuidField(uuid)
    ensures IdentityOf(Issue(c, key, uuid, start, ip), name) == Identity(uuid, "v2", name)
    ensures IdentityOf(IssueV1(c, key, uuid, start), name) == Identity(uuid, "v1", name)
  {
    hide Find, Base64.Encode, PrintInt, UuidOf, V1Message;
    var (v1, raw) := (IssueV1(c, key, uuid, start), Issue(c, key, uuid, start, ip));
    var (ts, v2) := (PrintInt(start), Base64.Encode(IssueV2Bytes(c, key, start, ip)));
    var hmac := Base64.Encode(c.hmacSha1(key, V1Message(uuid, ts)));
    TokenTheorems.IssuedV1HasNoMarker(c, key, uuid, start);
    TokenTheorems.IssuedSplits(v1, v2);
    JoinsBehind(uuid, ts, hmac, v2);
    FirstUnderscore(uuid, ts + "_" + hmac, v1);
    FirstUnderscore(uuid, ts + "_" + hmac + "_#v2#" + v2, raw);
    MarkerFound(v1);
    MarkerFound(raw);
  }

  lemma JoinsBehind(uuid: Bytes, ts: Bytes, hmac: Bytes, v2: Bytes)
    ensures V1Message(uuid, ts) + "_" + hmac == uuid + "_" + (ts + "_" + hmac)
    ensures V1Message(uuid, ts) + "_" + hmac + "_#v2#" + v2 == uuid + "_" + (ts + "_" + hmac + "_#v2#" + v2)
  {
  }

  lemma MarkerFound(raw: Bytes)
    ensures Find(raw, "#v2#", 0).Some? <==> ExtractV2(raw).Some?
  {
  }

  lemma FirstUnderscore(uuid: Bytes, rest: Bytes, raw: Bytes)
    requires '_' !in uuid && raw == uuid + "_" + rest
    ensures UuidOf(raw) == uuid
  {
    assert raw[|uuid|..|uuid| + 1] == "_" && raw[..|uuid|] == uuid;
    forall j | 0 <= j < |uuid| ensures !At(raw, "_", j) {
      assert raw[j..j + 1] == [uuid[j]];
    }
    SplitOnceAt(raw, "_", |uuid|);
  }

  predicate AllBlank(lines: seq<Bytes>) {
    forall i :: 0 <= i < |lines| ==> StreamTheorems.Sendable(lines[i]) && Trim(lines[i]) == []
  }

  /** One blank line is skipped. */
  lemma BlankLineIsSkipped(input: Input, blank: Bytes, rest: Input)
    requires TakeLine(input) == Got(blank, rest) && Trim(blank) == []
    ensures FirstLine(input) == FirstLine(rest)
  {
  }

  lemma {:induction false} BlanksAreSkippedFrom(blanks: seq<Bytes>, k: nat, tail: Bytes, cut: bool)
    requires AllBlank(blanks) && k <= |blanks|
    ensures FirstLine(Raw(StreamTheorems.Lines(blanks[k..]) + tail, cut)) == FirstLine(Raw(tail, cut))
    decreases |blanks| - k
  {
    if k == |blanks| {
      assert StreamTheorems.Lines(blanks[k..]) + tail == tail;
    } else {
      var later := blanks[k + 1..];
      assert blanks[k..][0] == blanks[k] && blanks[k..][1..] == later;
      BlanksAreSkippedFrom(blanks, k + 1, tail, cut);
      StreamTheorems.LinesCons(blanks[k..], tail);
      var after := StreamTheorems.Lines(later) + tail;
      StreamTheorems.LineReadBack(blanks[k], after, cut);
      BlankLineIsSkipped(Raw(blanks[k] + "\n" + after, cut), blanks[k], Raw(after, cut));
    }
  }

  /** Any number of blank lines before the token is skipped. */
  lemma BlankLinesAreSkipped(blanks: seq<Bytes>, tail: Bytes, cut: bool)
    requires forall b :: b in blanks ==> StreamTheorems.Sendable(b) && Trim(b) == []
    ensures FirstLine(Raw(StreamTheorems.Lines(blanks) + tail, cut)) == FirstLine(Raw(tail, cut))
  {
    BlanksAreSkippedFrom(blanks, 0, tail, cut);
    assert blanks[0..] == blanks;
  }

  /** The line behind the blank ones is the opening line, and what follows it is left unread. */
  lemma OpeningLineReadBack(blanks: seq<Bytes>, line: Bytes, rest: Bytes, cut: bool)
    requires forall b :: b in blanks ==> StreamTheorems.Sendable(b) && Trim(b) == []
    requires StreamTheorems.Sendable(line) && Trim(line) != []
    ensures FirstLine(Raw(StreamTheorems.Lines(blanks) + (line + "\n" + rest), cut)) == Got(line, Raw(rest, cut))
  {
    BlankLinesAreSkipped(blanks, line + "\n" + rest, cut);
    StreamTheorems.LineReadBack(line, rest, cut);
  }

  // ── The methods ────────────────────────────────────────────────────────────────

  /** Read the first line that is not blank. */
  method ReadFirstLine(stream: Stream) returns (r: Status, line: Bytes)
    requires stream.Valid()
    modifies stream`input, stream`heard, stream.clock
    ensures stream.Valid() && stream.Advanced()
    ensures match FirstLine(old(stream.input))
            case Got(data, rest) => r.Done? && line == data && stream.input == rest
            case Failure(e) => r == Failed(e)
  {
    while true
      invariant stream.Valid() && stream.Advanced()
      invariant FirstLine(stream.input) == FirstLine(old(stream.input))
      decreases stream.input.Size()
    {
      r, line := stream.ReadLine();
      if r.Failed? || Trim(line) != [] {
        break;
      }
    }
  }

  /** Check the token, and sleep until its start time. */
  method CheckToken(stream: Stream, c: Crypto, config: Config, keys: seq<SecretKey>, source: Option<IpAddr>,
                    token: Bytes)
    returns (admission: Admission, ghost now1: int, ghost now2: int)
    requires stream.Valid()
    modifies stream.clock
    ensures stream.Valid() && stream.Advanced()
    ensures admission == if !config.checkToken then Admitted(IdentityOf(token, []))
                         else match Verdict(c, token, keys, source, config.v2Only, now1, now2)
                              case Accepted(_, keyName) => Admitted(IdentityOf(token, keyName))
                              case rejected => Rejected(rejected)
    ensures admission.Admitted? && config.checkToken ==>
              && StartTime(token, now1) * NANOS_PER_SEC <= stream.clock.now
              && exists k :: k in keys && TokenVerdicts.Genuine(c, token, k, source, StartTime(token, now1))
    ensures Seconds(old(stream.clock.now)) <= now1 <= now2 <= Seconds(stream.clock.now)
  {
    now1, now2 := Seconds(stream.clock.now), Seconds(stream.clock.now);
    if !config.checkToken {
      admission := Admitted(IdentityOf(token, []));
    } else {
      var verdict;
      verdict, now1, now2 := ValidateToken(c, token, keys, source, config.v2Only, stream.clock);
      match verdict {
        case Accepted(sleepSecs, keyName) =>
          AcceptedStart(c, token, keys, source, config.v2Only, now1, now2);
          TokenVerdicts.AcceptedIsGenuine(c, token, keys, source, config.v2Only, now1, now2);
          if sleepSecs > 0 {
            stream.clock.Sleep(sleepSecs);
          }
          admission := Admitted(IdentityOf(token, keyName));
        case _ =>
          admission := Rejected(verdict);
      }
    }
  }

  /** Write two lines. */
  method WriteTwo(stream: Stream, first: Bytes, second: Bytes) returns (r: Status)
    requires stream.Valid() && !stream.broken
    modifies stream, stream.clock
    ensures stream.Valid() && stream.Advanced() && stream.input == old(stream.input)
    ensures Session.Sent(old(stream.log), [first, second], stream.log, r.Done?, stream.broken, stream.attempt)
    ensures (r.Failed? <==> stream.broken) && (r.Failed? ==> r.error == TransportFailed)
  {
    r := Commands.WriteLine(stream, first);
    ghost var log := stream.log;
    assert [first] + [second] == [first, second];
    if r.Failed? {
      Session.SentMore(old(stream.log), [first], [second], stream.log, stream.broken, stream.attempt);
    } else {
      r := Commands.WriteLine(stream, second);
      Session.SentThen(old(stream.log), [first], log, [second], stream.log, r.Done?, stream.broken, stream.attempt);
    }
  }

  /** Tell the client what was decided. */
  method Announce(stream: Stream, admission: Admission) returns (r: Status)
    requires stream.Valid() && !stream.broken
    modifies stream, stream.clock
    ensures stream.Valid() && stream.Advanced() && stream.input == old(stream.input)
    ensures Session.Sent(old(stream.log), Announcement(admission), stream.log, r.Done?, stream.broken, stream.attempt)
    ensures (r.Failed? <==> stream.broken) && (r.Failed? ==> r.error == TransportFailed)
  {
    match admission {
      case Admitted(_) => r := WriteTwo(stream, Session.OK, CHUNK_SIZES);
      case LeftEarly => r := Commands.WriteLine(stream, Session.BYE);
      case _ => r := Commands.WriteLine(stream, Session.ERR);
    }
  }

  /** Read the opening line and decide. */
  method ReadAndDecide(stream: Stream, c: Crypto, config: Config, keys: seq<SecretKey>, source: Option<IpAddr>)
    returns (r: Status, admission: Admission, ghost now1: int, ghost now2: int)
    requires stream.Valid()
    modifies stream`input, stream`heard, stream.clock
    ensures stream.Valid() && stream.Advanced()
    ensures Seconds(old(stream.clock.now)) <= now1 <= now2 <= Seconds(stream.clock.now)
    ensures match FirstLine(old(stream.input))
            case Failure(e) => r == Failed(e) && admission == NoToken
            case Got(line, rest) =>
              && r.Done? && stream.input == rest
              && admission == Decide(c, config, keys, source, line, now1, now2)
              && (admission.Admitted? ==> GateOpen(c, config, keys, source, line, now1, now2, stream.clock.now))
  {
    admission, now1, now2 := NoToken, Seconds(stream.clock.now), Seconds(stream.clock.now);
    var line;
    r, line := ReadFirstLine(stream);
    if r.Done? {
      match ParseOpening(line) {
        case Presented(token) =>
          admission, now1, now2 := CheckToken(stream, c, config, keys, source, token);
        case Quitting => admission := LeftEarly;
        case Malformed =>
      }
    }
  }

  /** Why a client that is not admitted is disconnected. */
  function Refusal(admission: Admission): Status {
    match admission
    case Admitted(_) => Done
    case Rejected(_) => Failed(TokenRejected)
    case LeftEarly => Failed(QuitBeforeToken)
    case NoToken => Failed(ExpectedToken)
  }

  /**
   How a greeting ends that finds `input`. Unless version or prompt cannot be written, the opening line
   decides, and the decision is announced in full unless a write fails; the result tells which it was.
   */
  predicate Greeted(c: Crypto, config: Config, keys: seq<SecretKey>, source: Option<IpAddr>, input: Input,
                    admission: Admission, now1: int, now2: int, log0: seq<Bytes>, r: Status, rest: Input,
                    log: seq<Bytes>, broken: bool, attempt: Bytes)
  {
    && Session.Sent(log0, GreetingLines(config, admission), log, !broken && FirstLine(input).Got?, broken, attempt)
    && (broken ==> r == Failed(TransportFailed))
    && ((broken && |log| < |log0| + 2)
        || Decided(c, config, keys, source, input, admission, now1, now2, r, rest, |log| - |log0|, broken))
  }

  /** Behind the prompt. */
  predicate Decided(c: Crypto, config: Config, keys: seq<SecretKey>, source: Option<IpAddr>, input: Input,
                    admission: Admission, now1: int, now2: int, r: Status, rest: Input, n: int, broken: bool)
  {
    match FirstLine(input)
    case Failure(e) => !broken && n == 2 && r == Failed(e)
    case Got(line, after) =>
      && rest == after && admission == Decide(c, config, keys, source, line, now1, now2)
      && (!broken ==> r == Refusal(admission))
  }

  /** `run_greeting`. Behind the prompt nothing is written to an admitted client before the start time of its token. */
  method RunGreeting(stream: Stream, c: Crypto, config: Config, keys: seq<SecretKey>, source: Option<IpAddr>)
    returns (r: Status, admission: Admission, ghost now1: int, ghost now2: int)
    requires stream.Valid() && !stream.broken
    modifies stream, stream.clock
    ensures stream.Valid() && stream.input.Ws? == old(stream.input.Ws?) && old(stream.clock.now) <= stream.clock.now
    ensures Greeted(c, config, keys, source, old(stream.input), admission, now1, now2, old(stream.log), r, stream.input,
                    stream.log, stream.broken, stream.attempt)
    ensures Seconds(old(stream.clock.now)) <= now1 <= now2 <= Seconds(stream.clock.now)
    ensures admission.Admitted? ==> FirstLine(old(stream.input)).Got? && stream.mark == |old(stream.log)| + 2
    ensures admission.Admitted? ==>
              GateOpen(c, config, keys, source, FirstLine(old(stream.input)).data, now1, now2, stream.gate)
  {
    hide FirstLine, Decide, GateOpen, Session.Sent, Greeted;
    admission, now1, now2 := NoToken, Seconds(stream.clock.now), Seconds(stream.clock.now);
    r := WriteTwo(stream, config.version, PROMPT);
    ghost var log := stream.log;
    if r.Failed? {
      GreetedNone(c, config, keys, source, old(stream.input), now1, now2, old(stream.log), stream.input, stream.log,
                  stream.attempt);
    } else {
      Session.SentAll(old(stream.log), [config.version, PROMPT], stream.log, stream.broken, stream.attempt);
      r, admission, now1, now2 := ReadAndDecide(stream, c, config, keys, source);
      if r.Failed? {
        GreetedUnread(c, config, keys, source, old(stream.input), r.error, now1, now2, old(stream.log), stream.input,
                      stream.log, stream.attempt);
      } else {
        if admission.Admitted? {
          stream.Open();
        }
        r := Announce(stream, admission);
        if r.Done? {
          r := Refusal(admission);
        }
        GreetedInFull(c, config, keys, source, old(stream.input), admission, now1, now2, old(stream.log), r,
                      stream.input, log, stream.log, stream.broken, stream.attempt);
      }
    }
  }

  /** Version or prompt could not be written. */
  lemma GreetedNone(c: Crypto, config: Config, keys: seq<SecretKey>, source: Option<IpAddr>, input: Input,
                    now1: int, now2: int, log0: seq<Bytes>, rest: Input, log: seq<Bytes>, attempt: Bytes)
    requires Session.Sent(log0, [config.version, PROMPT], log, false, true, attempt)
    ensures Greeted(c, config, keys, source, input, NoToken, now1, now2, log0, Failed(TransportFailed), rest, log,
                    true, attempt)
  {
    hide FirstLine, Decide;
    Session.SentMore(log0, [config.version, PROMPT], Announcement(NoToken), log, true, attempt);
  }

  /** There was no opening line to be read behind the prompt. */
  lemma GreetedUnread(c: Crypto, config: Config, keys: seq<SecretKey>, source: Option<IpAddr>, input: Input,
                      error: Error, now1: int, now2: int, log0: seq<Bytes>, rest: Input, log: seq<Bytes>,
                      attempt: Bytes)
    requires FirstLine(input) == Failure(error) && log == log0 + [config.version, PROMPT]
    ensures Greeted(c, config, keys, source, input, NoToken, now1, now2, log0, Failed(error), rest, log, false, attempt)
  {
    hide FirstLine, Decide;
    Session.SentNothing(log, Announcement(NoToken), attempt);
    Session.SentThen(log0, [config.version, PROMPT], log, Announcement(NoToken), log, false, false, attempt);
  }

  /** The opening line decided, and the decision was announced, unless a write failed. */
  lemma GreetedInFull(c: Crypto, config: Config, keys: seq<SecretKey>, source: Option<IpAddr>, input: Input,
                      admission: Admission, now1: int, now2: int, log0: seq<Bytes>, r: Status, rest: Input,
                      prompted: seq<Bytes>, log: seq<Bytes>, broken: bool, attempt: Bytes)
    requires FirstLine(input).Got? && rest == FirstLine(input).rest && prompted == log0 + [config.version, PROMPT]
    requires admission == Decide(c, config, keys, source, FirstLine(input).data, now1, now2)
    requires Session.Sent(prompted, Announcement(admission), log, !broken, broken, attempt)
    requires r == if broken then Failed(TransportFailed) else Refusal(admission)
    ensures Greeted(c, config, keys, source, input, admission, now1, now2, log0, r, rest, log, broken, attempt)
  {
    hide FirstLine, Decide;
    Session.SentThen(log0, [config.version, PROMPT], prompted, Announcement(admission), log, !broken, broken, attempt);
  }
}
