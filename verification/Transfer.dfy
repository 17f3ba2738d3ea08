/** Chunk streams: how they are framed, sent, received and reported. */
module Transfer {
  import opened Text
  import opened Streams

  const MIN_CHUNK_SIZE: nat := 4096

  const MAX_CHUNK_SIZE: nat := 4_194_304

  /** The shared buffer of random bytes that downloads are cut from: arbitrary contents. */
  type Filler = b: Bytes | |b| == 4_194_304 witness seq(4_194_304, _ => '\0')

  /** The last byte of the last chunk, and of every other chunk. */
  const TERMINAL: Byte := 0xFF as char
  const MORE: Byte := '\0'

  predicate IsTerminal(chunk: Bytes) {
    chunk != [] && chunk[|chunk| - 1] == TERMINAL
  }

  // ── Sending ────────────────────────────────────────────────────────────────────

  function Chunk(filler: Bytes, size: nat, terminal: bool): (c: Bytes)
    requires 0 < size <= |filler|
    ensures |c| == size && (IsTerminal(c) <==> terminal)
  {
    filler[..size - 1] + [if terminal then TERMINAL else MORE]
  }

  /** What a download of `count` chunks writes. */
  function Chunks(filler: Bytes, size: nat, count: nat): (s: seq<Bytes>)
    requires 0 < size <= |filler|
    ensures |s| == count
  {
    seq(count, i => Chunk(filler, size, i == count - 1))
  }

  /** Chunks of one size of which exactly the last is terminal. */
  predicate ChunkStream(chunks: seq<Bytes>, size: nat) {
    && size > 0 && chunks != []
    && (forall i :: 0 <= i < |chunks| ==> |chunks[i]| == size)
    && (forall i :: 0 <= i < |chunks| ==> (IsTerminal(chunks[i]) <==> i == |chunks| - 1))
  }

  function Flatten(chunks: seq<Bytes>): Bytes {
    if chunks == [] then [] else chunks[0] + Flatten(chunks[1..])
  }

  // ── Receiving ──────────────────────────────────────────────────────────────────

  datatype Received = Complete(chunks: seq<Bytes>, rest: Input) | Cut(chunks: seq<Bytes>, error: Error)

  function Prepend(chunks: seq<Bytes>, r: Received): Received {
    match r
    case Complete(cs, rest) => Complete(chunks + cs, rest)
    case Cut(cs, e) => Cut(chunks + cs, e)
  }

  /** Read chunks up to the first terminal one. */
  function Receive(input: Input, size: nat): Received
    requires size > 0
    decreases input.Size()
  {
    match TakeExact(input, size)
    case Failure(e) => Cut([], e)
    case Got(chunk, rest) =>
      if IsTerminal(chunk) then Complete([chunk], rest) else Prepend([chunk], Receive(rest, size))
  }

  lemma PrependTwice(a: seq<Bytes>, b: seq<Bytes>, r: Received)
    ensures Prepend(a, Prepend(b, r)) == Prepend(a + b, r)
  {
    assert a + (b + r.chunks) == (a + b) + r.chunks;
  }

  /** One step of `Receive`. */
  lemma ReceiveGot(input: Input, size: nat, data: Bytes, rest: Input)
    requires size > 0 && TakeExact(input, size) == Got(data, rest)
    ensures rest.Size() < input.Size()
    ensures Receive(input, size) == if IsTerminal(data) then Complete([data], rest)
            else Prepend([data], Receive(rest, size))
  {
  }

  /** Whatever is received completely is a chunk stream, and it is what the client had sent. */
  lemma {:induction false} ReceivedIsChunkStream(input: Input, size: nat)
    requires size > 0 && Receive(input, size).Complete?
    ensures ChunkStream(Receive(input, size).chunks, size)
    ensures input.Raw? ==> WasSent(input, Receive(input, size).chunks, Receive(input, size).rest)
    decreases input.Size()
  {
    var taken := TakeExact(input, size);
    ReceiveGot(input, size, taken.data, taken.rest);
    if IsTerminal(taken.data) {
      WasSentOne(input, size);
    } else {
      ReceivedIsChunkStream(taken.rest, size);
      var later := Receive(taken.rest, size);
      ChunkStreamCons(taken.data, later.chunks, size);
      if input.Raw? {
        WasSentMore(input, size, later.chunks, later.rest);
      }
    }
  }

  /** A received upload ends with the first chunk whose last byte is 0xFF, and with no other. */
  lemma UploadEndsAtMarker(input: Input, size: nat, i: nat)
    requires size > 0 && Receive(input, size).Complete? && i < |Receive(input, size).chunks|
    ensures var chunks := Receive(input, size).chunks;
            |chunks[i]| == size && (chunks[i][size - 1] == 0xFF as char <==> i == |chunks| - 1)
  {
    ReceivedIsChunkStream(input, size);
    assert IsTerminal(Receive(input, size).chunks[i]) <==> i == |Receive(input, size).chunks| - 1;
  }

  lemma WasSentOne(input: Input, size: nat)
    requires size > 0 && TakeExact(input, size).Got?
    ensures input.Raw? ==> WasSent(input, [TakeExact(input, size).data], TakeExact(input, size).rest)
  {
    var data := TakeExact(input, size).data;
    assert Flatten([data]) == data;
  }

  lemma WasSentMore(input: Input, size: nat, chunks: seq<Bytes>, rest: Input)
    requires size > 0 && input.Raw? && TakeExact(input, size).Got?
    requires WasSent(TakeExact(input, size).rest, chunks, rest)
    ensures WasSent(input, [TakeExact(input, size).data] + chunks, rest)
  {
    var data := TakeExact(input, size).data;
    assert ([data] + chunks)[1..] == chunks;
    assert data + (Flatten(chunks) + rest.bytes) == (data + Flatten(chunks)) + rest.bytes;
  }

  /** The raw input starts with these chunks, and `rest` is what follows them. */
  predicate WasSent(input: Input, chunks: seq<Bytes>, rest: Input)
    requires input.Raw?
  {
    rest.Raw? && rest.cut == input.cut && input.bytes == Flatten(chunks) + rest.bytes
  }

  lemma ChunkStreamCons(chunk: Bytes, chunks: seq<Bytes>, size: nat)
    requires ChunkStream(chunks, size) && |chunk| == size && !IsTerminal(chunk)
    ensures ChunkStream([chunk] + chunks, size)
    ensures Flatten([chunk] + chunks) == chunk + Flatten(chunks)
  {
    assert ([chunk] + chunks)[1..] == chunks;
  }

  /** Sender and receiver are dual: a chunk stream is received whole and nothing behind it is read. */
  lemma {:induction false} ReceiveChunkStream(chunks: seq<Bytes>, size: nat, tail: Bytes, cut: bool)
    requires ChunkStream(chunks, size)
    ensures Receive(Raw(Flatten(chunks) + tail, cut), size) == Complete(chunks, Raw(tail, cut))
  {
    var bytes := Flatten(chunks) + tail;
    assert bytes[..size] == chunks[0] && bytes[size..] == Flatten(chunks[1..]) + tail;
    if |chunks| == 1 {
      assert Flatten(chunks[1..]) + tail == tail;
      assert chunks == [chunks[0]];
    } else {
      ChunkStreamTail(chunks, size);
      ReceiveChunkStream(chunks[1..], size, tail, cut);
      assert [chunks[0]] + chunks[1..] == chunks;
    }
  }

  lemma ChunkStreamTail(chunks: seq<Bytes>, size: nat)
    requires ChunkStream(chunks, size) && |chunks| > 1
    ensures ChunkStream(chunks[1..], size) && !IsTerminal(chunks[0])
  {
    forall i | 0 <= i < |chunks| - 1
      ensures |chunks[1..][i]| == size && (IsTerminal(chunks[1..][i]) <==> i == |chunks| - 2)
    {
      assert chunks[1..][i] == chunks[i + 1];
    }
  }

  /** A download is a chunk stream, so an upload loop of the same chunk size receives exactly it. */
  lemma DownloadIsReceived(filler: Filler, size: nat, count: nat, tail: Bytes, cut: bool)
    requires 0 < size <= MAX_CHUNK_SIZE && count > 0
    ensures ChunkStream(Chunks(filler, size, count), size)
    ensures Receive(Raw(Flatten(Chunks(filler, size, count)) + tail, cut), size)
         == Complete(Chunks(filler, size, count), Raw(tail, cut))
    ensures |Flatten(Chunks(filler, size, count))| == size * count
  {
    var chunks := Chunks(filler, size, count);
    assert forall i :: 0 <= i < count ==> chunks[i] == Chunk(filler, size, i == count - 1);
    ReceiveChunkStream(chunks, size, tail, cut);
    FlattenLength(chunks, size);
  }

  lemma {:induction false} FlattenLength(chunks: seq<Bytes>, size: nat)
    requires forall i :: 0 <= i < |chunks| ==> |chunks[i]| == size
    ensures |Flatten(chunks)| == size * |chunks|
  {
    if chunks != [] {
      FlattenLength(chunks[1..], size);
    }
  }

  function BinaryFrames(chunks: seq<Bytes>): seq<Frame> {
    seq(|chunks|, i requires 0 <= i < |chunks| => Binary(chunks[i]))
  }

  /** The same over WebSocket, where each chunk travels as one binary frame. */
  lemma {:induction false} ReceiveChunkFrames(chunks: seq<Bytes>, size: nat, tail: seq<Frame>)
    requires ChunkStream(chunks, size)
    ensures Receive(Ws(BinaryFrames(chunks) + tail), size) == Complete(chunks, Ws(tail))
  {
    var frames := BinaryFrames(chunks) + tail;
    assert frames[0] == Binary(chunks[0]) && chunks[0][..size] == chunks[0];
    assert frames[1..] == BinaryFrames(chunks[1..]) + tail;
    if |chunks| == 1 {
      assert BinaryFrames(chunks[1..]) + tail == tail;
      assert chunks == [chunks[0]];
    } else {
      ChunkStreamTail(chunks, size);
      ReceiveChunkFrames(chunks[1..], size, tail);
      assert [chunks[0]] + chunks[1..] == chunks;
    }
  }

  // ── Reports ────────────────────────────────────────────────────────────────────

  datatype Report = Report(ns: nat, bytes: nat)

  const REPORT_INTERVAL: nat := 1_000_000

  /** The reports that follow the chunks received at the elapsed times `stamps`. */
  function Reports(stamps: seq<nat>, size: nat): seq<Report> {
    if stamps == [] then [] else
    var k := |stamps| - 1;
    var before := Reports(stamps[..k], size);
    if before == [] || stamps[k] - before[|before| - 1].ns >= REPORT_INTERVAL
    then before + [Report(stamps[k], size * (k + 1))]
    else before
  }

  /** Every report tells the time of one of the chunks and the bytes up to it; the first chunk has one. */
  lemma {:induction false} ReportsTellChunks(stamps: seq<nat>, size: nat, i: nat) returns (m: nat)
    requires i < |Reports(stamps, size)|
    ensures m < |stamps| && Reports(stamps, size)[i] == Report(stamps[m], size * (m + 1))
    ensures i == 0 ==> m == 0
  {
    var k := |stamps| - 1;
    var before := Reports(stamps[..k], size);
    if i < |before| {
      m := ReportsTellChunks(stamps[..k], size, i);
    } else {
      m := k;
      if i == 0 && k > 0 {
        ReportsNonEmpty(stamps[..k], size);
      }
    }
  }

  lemma {:induction false} ReportsNonEmpty(stamps: seq<nat>, size: nat)
    requires stamps != []
    ensures Reports(stamps, size) != []
  {
  }

  /** The byte counts strictly increase, up to `total`. */
  predicate Increasing(r: seq<Report>, total: nat) {
    && (forall i :: 0 <= i < |r| ==> r[i].bytes <= total)
    && (forall i, j :: 0 <= i < j < |r| ==> r[i].bytes < r[j].bytes)
  }

  /** The byte counts of the reports strictly increase, up to the bytes received. */
  lemma {:induction false} ReportsIncrease(stamps: seq<nat>, size: nat)
    requires size > 0
    ensures Increasing(Reports(stamps, size), size * |stamps|)
  {
    if stamps != [] {
      var k := |stamps| - 1;
      var before := Reports(stamps[..k], size);
      ReportsIncrease(stamps[..k], size);
      assert size * (k + 1) == size * k + size;
      IncreasingSnoc(before, size * k, Report(stamps[k], size * (k + 1)));
    }
  }

  lemma IncreasingSnoc(r: seq<Report>, total: nat, last: Report)
    requires Increasing(r, total) && total < last.bytes
    ensures Increasing(r, last.bytes) && Increasing(r + [last], last.bytes)
  {
  }

  /** Any two consecutive reports are at least one millisecond apart. */
  predicate Spaced(r: seq<Report>) {
    forall i :: 0 <= i < |r| - 1 ==> r[i].ns + REPORT_INTERVAL <= r[i + 1].ns
  }

  lemma {:induction false} ReportsSpaced(stamps: seq<nat>, size: nat)
    requires Sorted(stamps) && stamps != []
    ensures Spaced(Reports(stamps, size))
    ensures var n := |Reports(stamps, size)|;
            n > 0 && Reports(stamps, size)[n - 1].ns <= stamps[|stamps| - 1]
  {
    var k := |stamps| - 1;
    if k > 0 {
      ReportsSpaced(stamps[..k], size);
    }
  }

  /** The moment `t` lies within a millisecond after one of the reports. */
  predicate Covers(r: seq<Report>, t: nat) {
    exists i :: 0 <= i < |r| && r[i].ns <= t < r[i].ns + REPORT_INTERVAL
  }

  lemma CoversSnoc(r: seq<Report>, last: Report, t: nat)
    requires Covers(r, t) || last.ns <= t < last.ns + REPORT_INTERVAL
    ensures Covers(r + [last], t)
  {
    var s := r + [last];
    if Covers(r, t) {
      var i :| 0 <= i < |r| && r[i].ns <= t < r[i].ns + REPORT_INTERVAL;
      assert s[i] == r[i];
    } else {
      assert s[|r|] == last;
    }
  }

  /** No chunk waits for a millisecond: each comes within one of the latest report. */
  lemma {:induction false} ReportsTimely(stamps: seq<nat>, size: nat, m: nat)
    requires Sorted(stamps) && m < |stamps|
    ensures Covers(Reports(stamps, size), stamps[m])
  {
    var k := |stamps| - 1;
    var before := Reports(stamps[..k], size);
    var last := Report(stamps[k], size * (k + 1));
    if m < k {
      ReportsTimely(stamps[..k], size, m);
      CoversSnoc(before, last, stamps[m]);
    } else if Reports(stamps, size) == before {
      ReportsSpaced(stamps, size);
      assert Covers(before, stamps[k]) by { assert before[|before| - 1].ns <= stamps[k]; }
    } else {
      CoversSnoc(before, last, stamps[k]);
    }
  }

  /** The number of reports is bounded by the duration of the upload in milliseconds. */
  lemma ReportsBounded(stamps: seq<nat>, size: nat, total: nat)
    requires Sorted(stamps) && stamps != [] && stamps[|stamps| - 1] <= total
    ensures |Reports(stamps, size)| <= 1 + total / REPORT_INTERVAL
    ensures forall r :: r in Reports(stamps, size) ==> r.ns <= total
  {
    ReportsSpaced(stamps, size);
    var r := Reports(stamps, size);
    forall i | 0 <= i < |r| ensures r[i].ns <= total {
      SpacedIncreasing(r, i, |r| - 1);
    }
    SpacedIncreasing(r, 0, |r| - 1);
  }

  lemma {:induction false} SpacedIncreasing(r: seq<Report>, i: nat, j: int)
    requires Spaced(r) && i <= j < |r|
    ensures r[i].ns + REPORT_INTERVAL * (j - i) <= r[j].ns
    decreases j
  {
    if i < j {
      SpacedIncreasing(r, i, j - 1);
      assert r[j - 1].ns + REPORT_INTERVAL <= r[(j - 1) + 1].ns;
    }
  }

  // ── Report lines ───────────────────────────────────────────────────────────────

  function TimeLine(ns: nat): Bytes {
    "TIME " + Digits(ns) + "\n"
  }

  function ReportLine(r: Report): Bytes {
    "TIME " + Digits(r.ns) + " BYTES " + Digits(r.bytes) + "\n"
  }

  function ReportLines(rs: seq<Report>): (s: seq<Bytes>)
    ensures |s| == |rs|
  {
    seq(|rs|, i requires 0 <= i < |rs| => ReportLine(rs[i]))
  }

  /** Two texts that start with digits, end them with another byte and agree, agree in the digits. */
  lemma DigitsThen(a: Bytes, b: Bytes, s: Bytes, t: Bytes)
    requires AllDigits(a) && AllDigits(b)
    requires s != [] && t != [] && !IsDigit(s[0]) && !IsDigit(t[0])
    requires a + s == b + t
    ensures a == b && s == t
  {
    assert |a| == |b| by {
      assert (a + s)[|a|] == s[0] && (b + t)[|b|] == t[0];
    }
    assert a == (a + s)[..|a|] && b == (b + t)[..|a|];
    assert s == (a + s)[|a|..] && t == (b + t)[|a|..];
  }

  /** What follows the time in a report line. */
  function BytesField(bytes: nat): Bytes {
    " BYTES " + (Digits(bytes) + "\n")
  }

  lemma BytesFieldInjective(m: nat, n: nat)
    requires BytesField(m) == BytesField(n)
    ensures m == n
  {
    assert BytesField(m)[7..] == Digits(m) + "\n" && BytesField(n)[7..] == Digits(n) + "\n";
    DigitsThen(Digits(m), Digits(n), "\n", "\n");
    DigitsInjective(m, n);
  }

  lemma ReportLineTail(r: Report)
    ensures ReportLine(r)[5..] == Digits(r.ns) + BytesField(r.bytes)
  {
  }

  /** A report line tells its report. */
  lemma ReportLineInjective(q: Report, r: Report)
    requires ReportLine(q) == ReportLine(r)
    ensures q == r
  {
    ReportLineTail(q);
    ReportLineTail(r);
    DigitsThen(Digits(q.ns), Digits(r.ns), BytesField(q.bytes), BytesField(r.bytes));
    BytesFieldInjective(q.bytes, r.bytes);
    DigitsInjective(q.ns, r.ns);
  }

  /** The final line is no report, and no two numbers share a line. */
  lemma LinesUnambiguous(m: nat, n: nat, r: Report)
    ensures TimeLine(m) != ReportLine(r)
    ensures TimeLine(m) == TimeLine(n) ==> m == n
  {
    var (a, b) := (TimeLine(m), ReportLine(r));
    var k := 5 + |Digits(r.ns)|;
    assert b[k] == ' ';
    if k < |a| {
      assert a[k] != ' ';
    }
    if TimeLine(m) == TimeLine(n) {
      assert Digits(m) == a[5..|a| - 1] == Digits(n);
      DigitsInjective(m, n);
    }
  }
}
