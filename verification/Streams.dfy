/** Full writes and full reads over a byte stream that transfers any number of bytes per call. */
module Streams {
  import opened LittleEndian
  import opened Frames

  /** What one `Write` call reports: a byte count and whether it also returned an error. */
  datatype Reply = Reply(count: int, failed: bool)

  class Writer {
    var accepted: Bytes
    var replies: seq<Reply>

    /** A possible count is what the stream accepted; an impossible one says nothing about the bytes. */
    method Write(b: Bytes) returns (count: int, failed: bool)
      modifies this
      ensures count == (if old(replies) == [] then 0 else old(replies)[0].count)
      ensures failed == (old(replies) == [] || old(replies)[0].failed)
      ensures replies == (if old(replies) == [] then [] else old(replies)[1..])
      ensures accepted == old(accepted) + (if 0 <= count <= |b| then b[..count] else [])
    {
      if replies == [] {
        return 0, true;
      }
      count, failed := replies[0].count, replies[0].failed;
      replies := replies[1..];
      if 0 <= count <= |b| {
        accepted := accepted + b[..count];
      }
    }
  }

  datatype WriteResult = Complete | InvalidCount | WriterError | NoProgress

  /** The replies carry `n` bytes to completion: possible, positive, without an error until all are accepted. */
  predicate Carry(replies: seq<Reply>, n: nat)
    decreases |replies|
  {
    n == 0 || (replies != [] && 0 < replies[0].count <= n && !replies[0].failed
        && Carry(replies[1..], n - replies[0].count))
  }

  /**
   * `writeFull`: succeeds exactly when the stream carries every byte, and then exactly the frame was appended;
   * after a failure only a prefix of the frame was.
   */
  method WriteFull(w: Writer, frame: Bytes) returns (r: WriteResult)
    modifies w
    ensures r == Complete <==> Carry(old(w.replies), |frame|)
    ensures r == Complete ==> w.accepted == old(w.accepted) + frame
    ensures old(w.accepted) <= w.accepted <= old(w.accepted) + frame
  {
    var b := frame;
    ghost var start := w.accepted;
    while b != []
      invariant |b| <= |frame| && b == frame[|frame| - |b|..]
      invariant w.accepted == start + frame[..|frame| - |b|]
      invariant Carry(w.replies, |b|) <==> Carry(old(w.replies), |frame|)
      decreases |b|
    {
      ghost var sent := frame[..|frame| - |b|];
      assert frame == sent + b;
      var n, failed := w.Write(b);
      if n < 0 || n > |b| {
        return InvalidCount;
      }
      assert w.accepted == start + (sent + b[..n]);
      assert sent + b[..n] == frame[..|sent| + n];
      if failed {
        return WriterError;
      }
      if n == 0 {
        return NoProgress;
      }
      b := b[n..];
    }
    return Complete;
  }

  class Reader {
    var arriving: Bytes
    var sizes: seq<nat>

    /** One `Read`: at least one byte unless the stream has ended, at most `max`. */
    method Read(max: nat) returns (bs: Bytes)
      requires max > 0
      modifies this
      ensures |bs| <= max && (bs == [] <==> old(arriving) == [])
      ensures old(arriving) == bs + arriving
    {
      var limit := if max < |arriving| then max else |arriving|;
      var n := limit;
      if sizes != [] {
        if 0 < sizes[0] < limit {
          n := sizes[0];
        }
        sizes := sizes[1..];
      }
      bs := arriving[..n];
      arriving := arriving[n..];
    }
  }

  /** `io.ReadFull`: exactly `n` bytes, or failure once the stream ends early. */
  method ReadFull(r: Reader, n: nat) returns (buf: Bytes, ok: bool)
    modifies r
    ensures ok <==> n <= |old(r.arriving)|
    ensures ok ==> buf == old(r.arriving)[..n] && r.arriving == old(r.arriving)[n..]
  {
    buf := [];
    while |buf| < n
      invariant |buf| <= n
      invariant old(r.arriving) == buf + r.arriving
    {
      var bs := r.Read(n - |buf|);
      if bs == [] {
        assert r.arriving == [];
        return buf, false;
      }
      assert buf + (bs + r.arriving) == (buf + bs) + r.arriving;
      buf := buf + bs;
    }
    ok := true;
  }

  datatype FrameResult = Received(frame: Frame) | TransportFailure | ProtocolError

  /**
   * `readFrame`: for every pattern of short reads the result is what the arriving bytes denote, the reader ends
   * exactly at the next frame, and the payload of an over-ceiling frame is not consumed.
   */
  method ReadFrameFrom(r: Reader) returns (res: FrameResult)
    modifies r
    ensures match ReadFrame(old(r.arriving))
            case Got(f, n) => res == Received(f) && r.arriving == old(r.arriving)[n..]
            case TooLong => res == ProtocolError && r.arriving == old(r.arriving)[HEADER_SIZE..]
            case Short => res == TransportFailure
  {
    var header, ok := ReadFull(r, HEADER_SIZE);
    if !ok {
      return TransportFailure;
    }
    match ParseHeader(header) {
      case BadSize => return TransportFailure;
      case OverCeiling => return ProtocolError;
      case Parsed(h) =>
        var payload, complete := ReadFull(r, h.length);
        if !complete {
          return TransportFailure;
        }
        return Received(Frame(h.kind, h.id, h.key, payload));
    }
  }
}
