/** Reading the HTTP request header that opens a connection. */
module Handshake {
  import opened Text
  import opened Streams
  import StreamTheorems

  const HEADER_END: Bytes := "\r\n\r\n"

  const MAX_HEADER: nat := 8192

  /** The header terminator ends just before position `n`. */
  predicate EndsAt(b: Bytes, n: int) {
    4 <= n <= |b| && b[n - 4..n] == HEADER_END
  }

  /** `n` is the length of the shortest prefix that ends in the terminator. */
  ghost predicate HeaderLength(b: Bytes, n: nat) {
    EndsAt(b, n) && forall m :: m < n ==> !EndsAt(b, m)
  }

  class Transport {
    var unread: Bytes

    constructor (bytes: Bytes)
      ensures unread == bytes
    {
      unread := bytes;
    }

    method ReadByte() returns (r: Option<Byte>)
      modifies this
      ensures old(unread) == [] ==> r.None? && unread == []
      ensures old(unread) != [] ==> r == Some(old(unread)[0]) && unread == old(unread)[1..]
    {
      if unread == [] {
        return None;
      }
      r := Some(unread[0]);
      unread := unread[1..];
    }
  }

  /**
   The header loop of `detect_and_upgrade`: byte by byte, so that not one byte behind the terminator
   is consumed. A header of up to 8193 bytes is accepted, because the terminator is tested first.
   */
  method ReadHeader(transport: Transport) returns (r: Status, head: Bytes)
    modifies transport
    ensures old(transport.unread) == head + transport.unread
    ensures r.Done? <==> exists n: nat :: HeaderLength(old(transport.unread), n) && n <= MAX_HEADER + 1
    ensures r.Done? ==> HeaderLength(old(transport.unread), |head|)
    ensures r.Failed? ==> |head| <= MAX_HEADER + 1 && forall n :: n <= |head| ==> !EndsAt(old(transport.unread), n)
    ensures r.Failed? ==> (r.error == RequestTooLarge <==> |head| == MAX_HEADER + 1)
  {
    head := [];
    ghost var all := transport.unread;
    while true
      invariant all == head + transport.unread
      invariant |head| <= MAX_HEADER
      invariant forall n :: n <= |head| ==> !EndsAt(all, n)
      decreases |transport.unread|
    {
      var b := transport.ReadByte();
      if b.None? {
        return Failed(ConnectionClosed), head;
      }
      head := head + [b.value];
      assert all == head + transport.unread;
      var done := |head| >= 4 && head[|head| - 4..] == HEADER_END;
      assert |head| >= 4 ==> all[|head| - 4..|head|] == head[|head| - 4..];
      if done {
        assert HeaderLength(all, |head|);
        return Done, head;
      }
      if |head| > MAX_HEADER {
        return Failed(RequestTooLarge), head;
      }
    }
  }

  /** No byte is lost between handshake and protocol: the lines behind the header are read back. */
  method HeaderThenLines(transport: Transport, head: Bytes, lines: seq<Bytes>, rest: Bytes) returns (input: Input)
    requires transport.unread == head + StreamTheorems.Lines(lines) + rest
    requires HeaderLength(transport.unread, |head|) && |head| <= MAX_HEADER + 1
    requires forall l :: l in lines ==> StreamTheorems.Sendable(l)
    modifies transport
    ensures StreamTheorems.TakeLines(input, |lines|) == Some((lines, Raw(rest, false)))
  {
    var r, read := ReadHeader(transport);
    assert |read| == |head|;
    assert read == head;
    assert transport.unread == StreamTheorems.Lines(lines) + rest;
    StreamTheorems.LinesReadBack(lines, rest, false);
    input := Raw(transport.unread, false);
  }
}
