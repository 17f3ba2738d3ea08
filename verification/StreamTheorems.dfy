/** What reading and writing a stream guarantees, in both variants. */
module StreamTheorems {
  import opened Text
  import opened Streams
  import Utf8

  // ── Blocks over WebSocket ──────────────────────────────────────────────────────

  lemma {:induction false} PayloadConcat(a: seq<Frame>, b: seq<Frame>)
    ensures Payload(a + b) == Payload(a) + Payload(b)
  {
    if b == [] {
      assert a + b == a;
    } else {
      var (front, last) := (b[..|b| - 1], b[|b| - 1]);
      assert b == front + [last] && a + b == (a + front) + [last];
      PayloadConcat(a, front);
      PayloadSnoc(front, last);
      PayloadSnoc(a + front, last);
    }
  }

  lemma PayloadSnoc(frames: seq<Frame>, f: Frame)
    ensures Payload(frames + [f]) == Payload(frames) + PayloadOf(f)
  {
    assert (frames + [f])[..|frames|] == frames;
  }

  lemma PayloadCons(frames: seq<Frame>, k: nat)
    requires 1 <= k <= |frames|
    ensures Payload(frames[..k]) == PayloadOf(frames[0]) + Payload(frames[1..][..k - 1])
  {
    assert frames[..k] == [frames[0]] + frames[1..][..k - 1];
    PayloadConcat([frames[0]], frames[1..][..k - 1]);
  }

  /** Taking the first frame off a run: what is still wanted from the rest. */
  lemma ShortestRunTail(frames: seq<Frame>, n: nat, k: nat)
    requires n > 0 && frames != [] && !frames[0].Close? && k >= 1
    requires |PayloadOf(frames[0])| < n
    ensures ShortestRun(frames, n, k) <==> ShortestRun(frames[1..], n - |PayloadOf(frames[0])|, k - 1)
  {
    var (p, rest) := (|PayloadOf(frames[0])|, frames[1..]);
    if k <= |frames| {
      forall j | 1 <= j <= k ensures |Payload(frames[..j])| == p + |Payload(rest[..j - 1])| {
        PayloadCons(frames, j);
      }
      assert frames[..k] == [frames[0]] + rest[..k - 1];
      if ShortestRun(frames, n, k) {
        forall j | 0 <= j < k - 1 ensures |Payload(rest[..j])| < n - p {
          assert |Payload(frames[..j + 1])| == p + |Payload(rest[..j])|;
        }
      }
    }
  }

  /** `read_exact` returns the first `n` bytes of the shortest run of frames that carries them. */
  lemma {:induction false} ShortestRunGathers(frames: seq<Frame>, n: nat, k: nat)
    requires n > 0 && ShortestRun(frames, n, k)
    ensures Gather(frames, n) == Got(Payload(frames[..k])[..n], Ws(frames[k..]))
  {
    assert k >= 1 && frames[0] in frames[..k];
    var p := PayloadOf(frames[0]);
    PayloadCons(frames, k);
    PayloadCons(frames, 1);
    if |p| < n {
      ShortestRunTail(frames, n, k);
      ShortestRunGathers(frames[1..], n - |p|, k - 1);
      GatherTail(frames, n, k);
    } else {
      assert k == 1;
    }
  }

  lemma GatherTail(frames: seq<Frame>, n: nat, k: nat)
    requires 1 <= k <= |frames| && !frames[0].Close? && |PayloadOf(frames[0])| < n
    requires n <= |PayloadOf(frames[0])| + |Payload(frames[1..][..k - 1])|
    requires Gather(frames[1..], n - |PayloadOf(frames[0])|)
          == Got(Payload(frames[1..][..k - 1])[..n - |PayloadOf(frames[0])|], Ws(frames[1..][k - 1..]))
    ensures Gather(frames, n) == Got((PayloadOf(frames[0]) + Payload(frames[1..][..k - 1]))[..n], Ws(frames[k..]))
  {
    var (p, q) := (PayloadOf(frames[0]), Payload(frames[1..][..k - 1]));
    assert frames[1..][k - 1..] == frames[k..];
    assert p + q[..n - |p|] == (p + q)[..n];
  }

  /** `read_exact` succeeds only if some run of frames, free of close frames, carries enough bytes. */
  lemma {:induction false} GatherFindsRun(frames: seq<Frame>, n: nat) returns (k: nat)
    requires n > 0 && Gather(frames, n).Got?
    ensures ShortestRun(frames, n, k)
  {
    var p := PayloadOf(frames[0]);
    if |p| >= n {
      k := 1;
      PayloadCons(frames, 1);
      assert frames[..1] == [frames[0]];
    } else {
      k := GatherFindsRun(frames[1..], n - |p|);
      k := k + 1;
      ShortestRunTail(frames, n, k);
    }
  }

  // ── Lines over the raw transport ───────────────────────────────────────────────

  /** A line that `read_line` gives back as it was written. */
  predicate Sendable(line: Bytes) {
    && Utf8.Valid(line)
    && '\n' !in line
    && (line != [] ==> line[|line| - 1] != '\r')
    && |line| < MAX_LINE_LENGTH
  }

  /** A line without line feed is read back unchanged exactly when it is sendable. */
  lemma LineReadBack(line: Bytes, rest: Bytes, cut: bool)
    requires '\n' !in line
    ensures TakeRawLine(line + "\n" + rest, cut) == Got(line, Raw(rest, cut)) <==> Sendable(line)
  {
    var b := line + "\n" + rest;
    var limit := if |b| <= MAX_LINE_LENGTH then |b| else MAX_LINE_LENGTH + 1;
    var window := b[..limit];
    if |line| < limit {
      FindNewline(window, |line|);
      assert ReadUntilNewline(b, cut) == Some(line + "\n");
      assert (line + "\n")[..|line|] == line;
      assert b[|line| + 1..] == rest;
    } else {
      assert window == line[..limit];
      FindNoNewline(window);
      assert ReadUntilNewline(b, cut) == Some(window);
    }
  }

  lemma FindNewline(s: Bytes, i: nat)
    requires i < |s| && s[i] == '\n' && forall j :: 0 <= j < i ==> s[j] != '\n'
    ensures Find(s, "\n", 0) == Some(i)
  {
    assert At(s, "\n", i);
    forall j | 0 <= j < i ensures !At(s, "\n", j) {
      assert s[j] != '\n';
    }
  }

  lemma FindNoNewline(s: Bytes)
    requires '\n' !in s
    ensures Find(s, "\n", 0) == None
  {
    forall j | 0 <= j <= |s| ensures !At(s, "\n", j) {
      if j < |s| {
        assert s[j] != '\n';
      }
    }
  }

  /** `line` is `text` without the carriage return at its end, if it has one. */
  predicate WithoutReturn(text: Bytes, line: Bytes) {
    text == line + "\r" || (text == line && (line != [] ==> line[|line| - 1] != '\r'))
  }

  /** The result of a line that was found: it must be UTF-8. */
  predicate Decoded(r: Taken, line: Bytes, rest: Input) {
    r == if Utf8.Valid(line) then Got(line, rest) else Failure(InvalidUtf8)
  }

  lemma StripsReturn(text: Bytes, line: Bytes)
    requires WithoutReturn(text, line)
    ensures StripSuffix(text, '\r') == line
  {
    assert (line + "\r")[..|line|] == line;
  }

  /** A line ended by a line feed, alone or behind a carriage return, among the first 1024 bytes. */
  lemma EndedLine(text: Bytes, line: Bytes, rest: Bytes, cut: bool)
    requires '\n' !in text && |text| < 1024 && WithoutReturn(text, line)
    ensures Decoded(TakeRawLine(text + "\n" + rest, cut), line, Raw(rest, cut))
  {
    hide Utf8.Valid;
    var b := text + "\n" + rest;
    var limit := if |b| <= MAX_LINE_LENGTH then |b| else MAX_LINE_LENGTH + 1;
    FindNewline(b[..limit], |text|);
    assert ReadUntilNewline(b, cut) == Some(text + "\n");
    assert (text + "\n")[..|text|] == text && b[|text| + 1..] == rest;
    StripsReturn(text, line);
  }

  /** A line that the end of the stream cuts off is a line, unless it is empty or the transport failed. */
  lemma LastLine(text: Bytes, line: Bytes, cut: bool)
    requires '\n' !in text && |text| <= 1024 && WithoutReturn(text, line)
    ensures if cut then TakeRawLine(text, cut) == Failure(TransportFailed)
            else if text == [] then TakeRawLine(text, cut) == Failure(ConnectionClosed)
            else Decoded(TakeRawLine(text, cut), line, Raw([], cut))
  {
    hide Utf8.Valid;
    assert text[..|text|] == text && text[|text|..] == [];
    FindNoNewline(text);
    StripsReturn(text, line);
    if text != [] {
      assert text[|text| - 1] in text;
    }
  }

  /** A line without line feed in its first 1024 bytes is refused if more bytes follow. */
  lemma LongLine(b: Bytes, cut: bool)
    requires |b| > 1024 && '\n' !in b[..1024]
    ensures TakeRawLine(b, cut) == Failure(LineTooLong)
  {
    var window := b[..1025];
    if b[1024] == '\n' {
      forall j | 0 <= j < 1024 ensures window[j] != '\n' {
        assert window[j] == b[..1024][j];
      }
      FindNewline(window, 1024);
    } else {
      forall j | 0 <= j < 1025 ensures window[j] != '\n' {
        assert j < 1024 ==> window[j] == b[..1024][j];
      }
      FindNoNewline(window);
    }
  }

  function Lines(lines: seq<Bytes>): Bytes {
    if lines == [] then [] else lines[0] + "\n" + Lines(lines[1..])
  }

  /** The results of `n` successive `read_line` calls. */
  function TakeLines(input: Input, n: nat): Option<(seq<Bytes>, Input)>
    decreases n
  {
    if n == 0 then Some(([], input))
    else match TakeLine(input)
      case Failure(_) => None
      case Got(line, rest) =>
        match TakeLines(rest, n - 1)
        case None => None
        case Some(p) => Some(([line] + p.0, p.1))
  }

  /** One line more, in front. */
  lemma TakeLinesCons(line: Bytes, after: Bytes, cut: bool, n: nat, lines: seq<Bytes>, rest: Input)
    requires Sendable(line) && TakeLines(Raw(after, cut), n) == Some((lines, rest))
    ensures TakeLines(Raw(line + "\n" + after, cut), n + 1) == Some(([line] + lines, rest))
  {
    LineReadBack(line, after, cut);
    assert TakeLine(Raw(line + "\n" + after, cut)) == Got(line, Raw(after, cut));
  }

  lemma LinesCons(lines: seq<Bytes>, rest: Bytes)
    requires lines != []
    ensures Lines(lines) + rest == lines[0] + "\n" + (Lines(lines[1..]) + rest)
  {
    ThreeAndOne(lines[0], "\n", Lines(lines[1..]), rest);
  }

  lemma ThreeAndOne(a: Bytes, b: Bytes, c: Bytes, d: Bytes)
    ensures (a + b + c) + d == a + b + (c + d)
  {
  }

  predicate AllSendable(lines: seq<Bytes>) {
    forall i :: 0 <= i < |lines| ==> Sendable(lines[i])
  }

  lemma {:induction false} LinesReadBackFrom(lines: seq<Bytes>, k: nat, rest: Bytes, cut: bool)
    requires AllSendable(lines) && k <= |lines|
    ensures TakeLines(Raw(Lines(lines[k..]) + rest, cut), |lines| - k) == Some((lines[k..], Raw(rest, cut)))
    decreases |lines| - k
  {
    if k == |lines| {
      assert Lines(lines[k..]) + rest == rest;
    } else {
      var (line, later) := (lines[k], lines[k + 1..]);
      assert lines[k..] == [line] + later && lines[k..][1..] == later;
      LinesReadBackFrom(lines, k + 1, rest, cut);
      LinesCons(lines[k..], rest);
      TakeLinesCons(line, Lines(later) + rest, cut, |later|, later, Raw(rest, cut));
    }
  }

  /** Successive `read_line` calls return the written lines and leave what follows them. */
  lemma LinesReadBack(lines: seq<Bytes>, rest: Bytes, cut: bool)
    requires forall l :: l in lines ==> Sendable(l)
    ensures TakeLines(Raw(Lines(lines) + rest, cut), |lines|) == Some((lines, Raw(rest, cut)))
  {
    LinesReadBackFrom(lines, 0, rest, cut);
    assert lines[0..] == lines;
  }

  // ── Messages over WebSocket ────────────────────────────────────────────────────

  /** A line that goes out as a text message, unchanged. */
  predicate TextLine(w: Bytes) {
    2 <= |w| <= CHUNK_SIZE - 3 && Utf8.IsAscii(w)
  }

  /** Protocol lines become text messages and chunks binary messages, with the same bytes. */
  lemma MessagesCarryTheData(w: Bytes)
    ensures TextLine(w) ==> Framed(true, w) == TextMessage(w)
    ensures |w| >= CHUNK_SIZE ==> Framed(true, w) == BinaryMessage(w)
  {
    if TextLine(w) {
      Utf8.AsciiIsValid(w);
      Utf8.LossyOfValid(w);
    }
  }

  /** A line in a frame of its own is read back unchanged, whatever control frames precede it. */
  lemma {:induction false} FramedLineReadBack(controls: seq<Frame>, line: Bytes, text: bool, rest: seq<Frame>)
    requires forall f :: f in controls ==> f.Control?
    requires Sendable(line)
    ensures var frame := if text then Frame.Text(line + "\n") else Binary(line + "\n");
            TakeFrameLine(controls + [frame] + rest) == Got(line, Ws(rest))
  {
    var frame := if text then Frame.Text(line + "\n") else Binary(line + "\n");
    var frames := controls + [frame] + rest;
    if controls != [] {
      assert frames[1..] == controls[1..] + [frame] + rest;
      assert controls[0] in controls;
      FramedLineReadBack(controls[1..], line, text, rest);
    } else {
      assert frames[0] == frame && frames[1..] == rest;
      FrameLineReadBack(line);
    }
  }

  lemma FrameLineReadBack(line: Bytes)
    requires Sendable(line)
    ensures FrameLine(Frame.Text(line + "\n")) == FrameLine(Binary(line + "\n")) == line
  {
    TrimNewline(line);
    ValidWithNewline(line);
    Utf8.LossyOfValid(line + "\n");
  }

  lemma TrimNewline(line: Bytes)
    requires line != [] ==> line[|line| - 1] != '\n' && line[|line| - 1] != '\r'
    ensures TrimEndMatches(TrimEndMatches(line + "\n", '\n'), '\r') == line
    ensures StripSuffix(StripSuffix(line + "\n", '\n'), '\r') == line
  {
    assert (line + "\n")[..|line|] == line;
  }

  lemma {:induction false} ValidWithNewline(line: Bytes)
    requires Utf8.Valid(line)
    ensures Utf8.Valid(line + "\n")
  {
    if line == [] {
      assert line + "\n" == "\n";
      assert ("\n")[1..] == [];
    } else {
      var n := Utf8.GoodPrefix(line);
      ValidWithNewline(line[n..]);
      assert (line + "\n")[n..] == line[n..] + "\n";
    }
  }

  predicate AllControl(frames: seq<Frame>) {
    forall f :: f in frames ==> f.Control?
  }

  lemma {:induction false} ControlsAreSkipped(controls: seq<Frame>, frames: seq<Frame>)
    requires AllControl(controls)
    ensures TakeFrameLine(controls + frames) == TakeFrameLine(frames)
  {
    if controls == [] {
      assert controls + frames == frames;
    } else {
      assert controls[0] in controls && (controls + frames)[1..] == controls[1..] + frames;
      ControlsAreSkipped(controls[1..], frames);
    }
  }

  /** Why no line is read over WebSocket: the peer closed, or the transport failed. */
  lemma NoFrameLine(controls: seq<Frame>, rest: seq<Frame>)
    requires AllControl(controls)
    ensures TakeFrameLine(controls + [Close] + rest) == Failure(ConnectionClosed)
    ensures TakeFrameLine(controls) == Failure(TransportFailed)
  {
    assert controls + [Close] + rest == controls + ([Close] + rest) && controls + [] == controls;
    ControlsAreSkipped(controls, [Close] + rest);
    ControlsAreSkipped(controls, []);
  }

  predicate AllAre(s: Bytes, c: Byte) {
    forall i :: 0 <= i < |s| ==> s[i] == c
  }

  lemma {:induction false} TrimsMatches(line: Bytes, tail: Bytes, c: Byte)
    requires AllAre(tail, c) && (line != [] ==> line[|line| - 1] != c)
    ensures TrimEndMatches(line + tail, c) == line
  {
    if tail == [] {
      assert line + tail == line;
    } else {
      var n := |tail| - 1;
      assert (line + tail)[..|line + tail| - 1] == line + tail[..n];
      TrimsMatches(line, tail[..n], c);
    }
  }

  /** A text frame loses all line lfs at its end and then all carriage crs; a binary frame at most one of each. */
  lemma FrameLineExactly(line: Bytes, crs: Bytes, lfs: Bytes)
    requires AllAre(crs, '\r') && AllAre(lfs, '\n')
    requires line != [] ==> line[|line| - 1] != '\r'
    requires crs == [] ==> line != [] ==> line[|line| - 1] != '\n'
    ensures FrameLine(Frame.Text(line + crs + lfs)) == line
  {
    TrimsMatches(line + crs, lfs, '\n');
    TrimsMatches(line, crs, '\r');
  }

  /** The line of a binary frame, from its lossy decoding. */
  lemma BinaryLineExactly(data: Bytes, text: Bytes, line: Bytes)
    requires WithoutReturn(text, line)
    ensures Utf8.Lossy(data) == text + "\n" ==> FrameLine(Binary(data)) == line
    ensures Utf8.Lossy(data) == text && (text != [] ==> text[|text| - 1] != '\n') ==> FrameLine(Binary(data)) == line
  {
    hide Utf8.Lossy;
    StripsReturn(text, line);
    assert (text + "\n")[..|text|] == text;
  }

  /** Why a block cannot be read: a close frame comes first, or the transport fails. */
  lemma {:induction false} GatherFails(frames: seq<Frame>, n: nat)
    requires Gather(frames, n).Failure?
    ensures Gather(frames, n).error == if Closes(frames) then ConnectionClosed else TransportFailed
  {
    if frames != [] {
      assert Closes(frames) <==> frames[0].Close? || Closes(frames[1..]);
      match frames[0]
      case Close =>
      case Control => GatherFails(frames[1..], n);
      case _ => GatherFails(frames[1..], n - |frames[0].payload|);
    }
  }

  /** On raw bytes a block is read exactly if it has arrived, and the error tells how the stream ended. */
  lemma RawBlockExactly(b: Bytes, cut: bool, n: nat)
    requires n > 0
    ensures match TakeExact(Raw(b, cut), n)
            case Got(data, rest) => |data| == n && rest.Raw? && rest.cut == cut && b == data + rest.bytes
            case Failure(e) => |b| < n && e == if cut then TransportFailed else ConnectionClosed
  {
  }
}
