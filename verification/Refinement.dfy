/** Uploads over WebSocket and over the raw transport: exactly when they are received alike. */
module Refinement {
  import opened Text
  import opened Streams
  import opened Transfer
  import StreamTheorems

  /** The bytes that arrive before the close frame, if there is one. */
  function Delivered(frames: seq<Frame>): Bytes {
    if frames == [] || frames[0].Close? then [] else PayloadOf(frames[0]) + Delivered(frames[1..])
  }

  // ── One block ──────────────────────────────────────────────────────────────────

  /** No data frame among those that make up the next `n` bytes reaches beyond them. */
  predicate AlignedBlock(frames: seq<Frame>, n: nat) {
    n == 0 || frames == [] || frames[0].Close? ||
    (|PayloadOf(frames[0])| <= n && AlignedBlock(frames[1..], n - |PayloadOf(frames[0])|))
  }

  /** `rest` holds what is left of `bytes` behind the first `n`, or less: what the last frame had more is dropped. */
  predicate Leaves(bytes: Bytes, n: nat, rest: Bytes, aligned: bool)
    requires n <= |bytes|
  {
    && |rest| <= |bytes| - n
    && (aligned <==> rest == bytes[n..])
    && (aligned <==> |rest| == |bytes| - n)
  }

  /**
   A block is read as on raw bytes, and it leaves what the raw block leaves if and only if the frames
   are aligned with it.
   */
  lemma {:induction false} GatherAligned(frames: seq<Frame>, n: nat)
    ensures Gather(frames, n).Got? <==> n <= |Delivered(frames)|
    ensures var (r, bytes) := (Gather(frames, n), Delivered(frames));
            r.Got? ==>
              && r.rest.Ws? && r.data == bytes[..n]
              && Leaves(bytes, n, Delivered(r.rest.frames), AlignedBlock(frames, n))
  {
    if n > 0 && frames != [] && !frames[0].Close? {
      var (p, rest) := (PayloadOf(frames[0]), frames[1..]);
      var (bytes, later) := (Delivered(frames), Delivered(rest));
      if |p| < n {
        GatherAligned(rest, n - |p|);
        if n <= |bytes| {
          LeavesBehind(p, later, n, Delivered(Gather(rest, n - |p|).rest.frames), AlignedBlock(rest, n - |p|));
        }
      } else {
        LeavesWhole(p, later, n);
      }
    }
  }

  /** A frame in front of what is left of the block. */
  lemma LeavesBehind(p: Bytes, later: Bytes, n: nat, rest: Bytes, aligned: bool)
    requires |p| <= n <= |p| + |later| && Leaves(later, n - |p|, rest, aligned)
    ensures (p + later)[..n] == p + later[..n - |p|] && Leaves(p + later, n, rest, aligned)
  {
    assert (p + later)[n..] == later[n - |p|..];
  }

  /** The frame that completes the block: only what is behind it is left. */
  lemma LeavesWhole(p: Bytes, later: Bytes, n: nat)
    requires n <= |p|
    ensures (p + later)[..n] == p[..n] && Leaves(p + later, n, later, |p| == n)
  {
    assert |p| == n ==> (p + later)[n..] == later;
  }

  /** In terms of the shortest run of frames that carries the block: it carries exactly the block. */
  lemma {:induction false} AlignedIsExactRun(frames: seq<Frame>, n: nat, k: nat)
    requires n > 0 && ShortestRun(frames, n, k)
    ensures AlignedBlock(frames, n) <==> |Payload(frames[..k])| == n
  {
    assert frames[..0] == [];
    var p := |PayloadOf(frames[0])|;
    assert frames[0] in frames[..k];
    StreamTheorems.PayloadCons(frames, k);
    if p < n {
      StreamTheorems.ShortestRunTail(frames, n, k);
      AlignedIsExactRun(frames[1..], n - p, k - 1);
    } else {
      StreamTheorems.PayloadCons(frames, 1);
      assert frames[1..][..0] == [];
    }
  }

  // ── A whole upload ─────────────────────────────────────────────────────────────

  /** Each chunk of the upload is aligned, up to the terminal one; what follows is not looked at. */
  predicate AlignedUpload(frames: seq<Frame>, size: nat)
    requires size > 0
    decreases |frames|
  {
    GatherShrinks(frames, size);
    && AlignedBlock(frames, size)
    && match Gather(frames, size)
       case Failure(_) => true
       case Got(chunk, rest) => IsTerminal(chunk) || AlignedUpload(rest.frames, size)
  }

  /** An aligned upload is received over WebSocket as over the raw transport: the same chunks, the same end position. */
  lemma {:induction false} WebSocketRefinesRaw(frames: seq<Frame>, size: nat, cut: bool)
    requires size > 0 && AlignedUpload(frames, size)
    ensures var (raw, ws) := (Receive(Raw(Delivered(frames), cut), size), Receive(Ws(frames), size));
            && ws.chunks == raw.chunks
            && (ws.Complete? <==> raw.Complete?)
            && (ws.Complete? ==> ws.rest.Ws? && raw.rest == Raw(Delivered(ws.rest.frames), cut))
    decreases |frames|
  {
    GatherAligned(frames, size);
    var r := TakeExact(Ws(frames), size);
    if r.Got? && !IsTerminal(r.data) {
      WebSocketRefinesRaw(r.rest.frames, size, cut);
    }
  }

  /** A received upload accounts for all bytes up to its end position if and only if it is aligned. */
  lemma {:induction false} AlignedLosesNothing(frames: seq<Frame>, size: nat)
    requires size > 0 && Receive(Ws(frames), size).Complete?
    ensures var ws := Receive(Ws(frames), size);
            && ws.rest.Ws?
            && size * |ws.chunks| + |Delivered(ws.rest.frames)| <= |Delivered(frames)|
            && (AlignedUpload(frames, size) <==>
                size * |ws.chunks| + |Delivered(ws.rest.frames)| == |Delivered(frames)|)
    decreases |frames|
  {
    GatherAligned(frames, size);
    var r := TakeExact(Ws(frames), size);
    ReceiveGot(Ws(frames), size, r.data, r.rest);
    if !IsTerminal(r.data) {
      AlignedLosesNothing(r.rest.frames, size);
      OneMoreChunk(size, |Receive(r.rest, size).chunks|);
    }
  }

  lemma OneMoreChunk(size: nat, n: nat)
    ensures size * (n + 1) == size * n + size
  {
  }

  /**
   The exact condition: a received upload is what the raw transport would have received if and only if
   it is aligned.
   */
  lemma RefinesRawIffAligned(frames: seq<Frame>, size: nat, cut: bool)
    requires size > 0 && Receive(Ws(frames), size).Complete?
    ensures var ws := Receive(Ws(frames), size);
            AlignedUpload(frames, size) <==>
            ws.rest.Ws?
              && Receive(Raw(Delivered(frames), cut), size) == Complete(ws.chunks, Raw(Delivered(ws.rest.frames), cut))
  {
    var (raw, ws) := (Receive(Raw(Delivered(frames), cut), size), Receive(Ws(frames), size));
    AlignedLosesNothing(frames, size);
    if AlignedUpload(frames, size) {
      WebSocketRefinesRaw(frames, size, cut);
    }
    if raw == Complete(ws.chunks, Raw(Delivered(ws.rest.frames), cut)) {
      ReceivedIsChunkStream(Raw(Delivered(frames), cut), size);
      FlattenLength(ws.chunks, size);
    }
  }

  /**
   Such uploads exist: a byte behind the last chunk, in its frame, is lost, while the raw transport
   leaves it to be read.
   */
  lemma UnalignedUpload(chunk: Bytes, size: nat, extra: Bytes, cut: bool)
    requires size > 0 && |chunk| == size && IsTerminal(chunk) && extra != []
    ensures var frames := [Binary(chunk + extra)];
            && !AlignedUpload(frames, size)
            && Receive(Ws(frames), size) == Complete([chunk], Ws([]))
            && Receive(Raw(Delivered(frames), cut), size) == Complete([chunk], Raw(extra, cut))
  {
    var frames := [Binary(chunk + extra)];
    assert (chunk + extra)[..size] == chunk && (chunk + extra)[size..] == extra;
    assert Delivered(frames) == chunk + extra + Delivered(frames[1..]);
    assert chunk + extra + [] == chunk + extra;
  }

  // ── What follows the upload ────────────────────────────────────────────────────

  lemma {:induction false} GatherExtends(frames: seq<Frame>, later: seq<Frame>, n: nat)
    requires Gather(frames, n).Got?
    ensures Gather(frames, n).rest.Ws?
    ensures Gather(frames + later, n) == Got(Gather(frames, n).data, Ws(Gather(frames, n).rest.frames + later))
    ensures AlignedBlock(frames + later, n) <==> AlignedBlock(frames, n)
  {
    if n > 0 {
      assert (frames + later)[0] == frames[0] && (frames + later)[1..] == frames[1..] + later;
      if |PayloadOf(frames[0])| < n {
        GatherExtends(frames[1..], later, n - |PayloadOf(frames[0])|);
      }
    }
  }

  /** The frames of later commands, whatever their sizes, change neither the upload nor its alignment. */
  lemma {:induction false} LaterFramesAreFree(frames: seq<Frame>, later: seq<Frame>, size: nat)
    requires size > 0 && Receive(Ws(frames), size).Complete?
    ensures Receive(Ws(frames), size).rest.Ws?
    ensures Receive(Ws(frames + later), size)
         == Complete(Receive(Ws(frames), size).chunks, Ws(Receive(Ws(frames), size).rest.frames + later))
    ensures AlignedUpload(frames + later, size) <==> AlignedUpload(frames, size)
    decreases |frames|
  {
    GatherExtends(frames, later, size);
    GatherShrinks(frames, size);
    var r := Gather(frames, size);
    if !IsTerminal(r.data) {
      LaterFramesAreFree(r.rest.frames, later, size);
    }
  }
}
