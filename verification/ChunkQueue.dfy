/** Reception of frames from arbitrary chunks in the TypeScript runtime. */
module ChunkQueues {
  import opened LittleEndian
  import opened Leaves
  import opened Lists
  import opened Frames

  function Flatten(chunks: seq<Bytes>): Bytes {
    if chunks == [] then [] else chunks[0] + Flatten(chunks[1..])
  }

  lemma {:induction false} FlattenSnoc(chunks: seq<Bytes>, c: Bytes)
    ensures Flatten(chunks + [c]) == Flatten(chunks) + c
  {
    if chunks == [] {
      assert chunks + [c] == [c];
      assert Flatten([c]) == c + Flatten([]);
    } else {
      FlattenSnoc(chunks[1..], c);
      assert (chunks + [c])[1..] == chunks[1..] + [c];
    }
  }

  lemma {:induction false} HeadSplit(chunks: seq<Bytes>)
    requires chunks != []
    ensures Flatten(chunks) == chunks[0] + Flatten(chunks[1..])
  {
  }

  class ChunkQueue {
    var chunks: seq<Bytes>
    var headOffset: nat
    var unread: nat

    /** No stored chunk is empty, and the offset lies inside the first one. */
    ghost predicate Valid()
      reads this
    {
      && (forall i :: 0 <= i < |chunks| ==> chunks[i] != [])
      && (if chunks == [] then headOffset == 0 else headOffset < |chunks[0]|)
      && headOffset <= |Flatten(chunks)|
      && unread == |Contents()|
    }

    ghost function Contents(): Bytes
      reads this
    {
      if headOffset <= |Flatten(chunks)| then Flatten(chunks)[headOffset..] else []
    }

    constructor ()
      ensures Valid() && Contents() == []
    {
      chunks, headOffset, unread := [], 0, 0;
    }

    method Append(chunk: Bytes)
      requires Valid()
      modifies this
      ensures Valid() && Contents() == old(Contents()) + chunk
    {
      if chunk == [] {
        assert Contents() + chunk == Contents();
        return;
      }
      FlattenSnoc(chunks, chunk);
      chunks := chunks + [chunk];
      unread := unread + |chunk|;
    }

    /** The body of the read loop: copies from the first chunk and drops it once exhausted. */
    method TakeHead(max: nat) returns (part: Bytes)
      requires Valid() && unread > 0 && max > 0
      modifies this
      ensures Valid() && 0 < |part| <= max && old(Contents()) == part + Contents()
    {
      assert chunks != [];
      var chunk := chunks[0];
      HeadSplit(chunks);
      hide Flatten;
      var available := |chunk| - headOffset;
      var copied := if available < max then available else max;
      part := chunk[headOffset..headOffset + copied];
      ghost var rest := Flatten(chunks[1..]);
      assert Contents() == chunk[headOffset..] + rest;
      headOffset := headOffset + copied;
      unread := unread - copied;
      if headOffset == |chunk| {
        chunks := chunks[1..];
        headOffset := 0;
        assert Contents() == rest;
      } else {
        assert Contents() == chunk[headOffset..] + rest;
      }
    }

    /** `read`: copies bytes out of as many chunks as needed, or touches nothing when too few are there. */
    method Read(length: nat) returns (result: Option<Bytes>)
      requires Valid()
      modifies this
      ensures Valid() && (result.Some? <==> length <= |old(Contents())|)
      ensures result.None? ==> Contents() == old(Contents())
      ensures result.Some? ==> result.value == old(Contents())[..length] && Contents() == old(Contents())[length..]
    {
      hide *;
      UnreadCounts();
      if length > unread {
        return None;
      }
      var written: Bytes := [];
      while |written| < length
        invariant Valid() && |written| <= length
        invariant old(Contents()) == written + Contents()
        decreases length - |written|
      {
        UnreadCounts();
        var part := TakeHead(length - |written|);
        Regroup(written, part, Contents());
        written := written + part;
      }
      return Some(written);
    }

    lemma {:induction false} UnreadCounts()
      requires Valid()
      ensures unread == |Contents()|
    {
    }

    method Clear()
      modifies this
      ensures Valid() && Contents() == []
    {
      chunks, headOffset, unread := [], 0, 0;
    }
  }

  datatype Pending = NoHeader | Waiting(header: Header)

  class FrameReceiver {
    const queue: ChunkQueue
    var header: Pending

    /** The bytes of a header that was read ahead of its payload. */
    ghost function HeaderPart(): Bytes
      reads this
    {
      match header
      case NoHeader => []
      case Waiting(h) => HeaderBytes(h.kind, h.id, h.key, h.length)
    }

    /** The unread suffix of everything received: a pending header, then the queue. */
    ghost function Unread(): Bytes
      reads this, queue
    {
      HeaderPart() + queue.Contents()
    }

    ghost predicate Valid()
      reads this, queue
    {
      && queue.Valid()
      && (header.Waiting? ==> ParseHeader(HeaderPart()) == Parsed(header.header))
    }

    constructor ()
      ensures Valid() && Unread() == [] && fresh(queue)
    {
      queue := new ChunkQueue();
      header := NoHeader;
    }

    method Push(chunk: Bytes)
      requires Valid()
      modifies this, queue
      ensures Valid() && Unread() == old(Unread()) + chunk
    {
      hide Flatten, HeaderBytes, ParseHeader, queue.Valid, queue.Contents;
      queue.Append(chunk);
      assert HeaderPart() + (old(queue.Contents()) + chunk) == old(Unread()) + chunk;
    }

    /** `next`: the first complete frame, nothing yet, or the over-ceiling protocol error. */
    method Next() returns (r: ReadResult)
      requires Valid()
      modifies this, queue
      ensures r == ReadFrame(old(Unread()))
      ensures !r.TooLong? ==> Valid()
      ensures r.Short? ==> Unread() == old(Unread())
      ensures r.TooLong? ==> queue.Contents() == old(Unread())[HEADER_SIZE..]
      ensures r.Got? ==> Unread() == old(Unread())[r.size..]
    {
      hide Flatten, HeaderBytes, queue.Valid, queue.Contents;
      ghost var all := Unread();
      if header.NoHeader? {
        if queue.unread < HEADER_SIZE {
          QueueSize();
          return Short;
        }
        QueueSize();
        assert all == queue.Contents();
        var read := queue.Read(HEADER_SIZE);
        var bytes := read.value;
        assert all[..HEADER_SIZE] == bytes;
        if ParseHeader(bytes) == OverCeiling {
          return TooLong;
        }
        HeaderIsCanonical(bytes);
        header := Waiting(ParseHeader(bytes).header);
      }
      r := Finish(all);
    }

    lemma {:induction false} QueueSize()
      requires queue.Valid()
      ensures queue.unread == |queue.Contents()|
    {
    }

    /** With a parsed header at hand, completes the frame if its payload has arrived. */
    method Finish(ghost all: Bytes) returns (r: ReadResult)
      requires Valid() && header.Waiting? && all == Unread()
      modifies this, queue
      ensures r == ReadFrame(all) && !r.TooLong? && Valid()
      ensures r.Short? ==> Unread() == all
      ensures r.Got? ==> Unread() == all[r.size..]
    {
      hide Flatten, HeaderBytes, ParseHeader, queue.Valid, queue.Contents;
      QueueSize();
      var h := header.header;
      assert all[..HEADER_SIZE] == HeaderPart();
      assert queue.Contents() == all[HEADER_SIZE..];
      if queue.unread < h.length {
        return Short;
      }
      var read := queue.Read(h.length);
      var payload := read.value;
      header := NoHeader;
      return Got(Frame(h.kind, h.id, h.key, payload), HEADER_SIZE + h.length);
    }

    method Clear()
      modifies this, queue
      ensures Valid() && Unread() == []
    {
      queue.Clear();
      header := NoHeader;
    }
  }

  /** What parsing yields by what the first frame reads as. */
  lemma {:induction false} ParseStep(bs: Bytes)
    ensures ParseAll(bs) ==
            match ReadFrame(bs)
            case Short => Parse([], bs, false)
            case TooLong => Parse([], bs, true)
            case Got(f, n) => var p := ParseAll(bs[n..]); Parse([f] + p.frames, p.rest, p.overCeiling)
  {
    hide ReadFrame;
  }

  lemma {:induction false} NoneYet(bs: Bytes)
    ensures var p := ParseAll(bs); p == Parse([] + p.frames, p.rest, p.overCeiling)
  {
    hide ParseAll;
  }

  /**
   * `receiveChunk`: drains after one chunk. The frames delivered are those of the unread bytes and the chunk parsed
   * as a whole, and what stays unread is exactly the suffix after them.
   */
  method ReceiveChunk(r: FrameReceiver, chunk: Bytes) returns (frames: seq<Frame>, overCeiling: bool)
    requires r.Valid()
    modifies r, r.queue
    ensures var p := ParseAll(old(r.Unread()) + chunk);
            && frames == p.frames && overCeiling == p.overCeiling
            && (!overCeiling ==> r.Valid() && r.Unread() == p.rest)
  {
    hide *;
    r.Push(chunk);
    ghost var all := r.Unread();
    frames, overCeiling := [], false;
    NoneYet(all);
    while true
      invariant r.Valid() && !overCeiling
      invariant ParseAll(all) == (var p := ParseAll(r.Unread()); Parse(frames + p.frames, p.rest, p.overCeiling))
      decreases |r.Unread()|
    {
      ghost var rest := r.Unread();
      var next := r.Next();
      ParseStep(rest);
      match next {
        case Short => return;
        case TooLong => return frames, true;
        case Got(f, _) =>
          frames := frames + [f];
      }
    }
  }

  /**
   * Reception does not depend on chunking: for every split of a byte stream, draining after each chunk delivers
   * the frames of the whole stream and stops exactly before an over-ceiling header.
   */
  method ReceiveAll(chunks: seq<Bytes>) returns (frames: seq<Frame>, overCeiling: bool)
    ensures var p := ParseAll(Flatten(chunks)); frames == p.frames && overCeiling == p.overCeiling
  {
    hide ReadFrame, ParseAll, Flatten, FrameReceiver.Valid, FrameReceiver.Unread;
    var r := new FrameReceiver();
    frames, overCeiling := [], false;
    NothingReceived();
    assert chunks[..0] == [];
    for i := 0 to |chunks|
      invariant r.Valid() && fresh(r) && fresh(r.queue) && !overCeiling
      invariant ParseAll(Flatten(chunks[..i])) == Parse(frames, r.Unread(), false)
    {
      ghost var seen := Flatten(chunks[..i]);
      assert chunks[..i + 1] == chunks[..i] + [chunks[i]];
      FlattenSnoc(chunks[..i], chunks[i]);
      ParseSplit(seen, chunks[i]);
      var more: seq<Frame>;
      more, overCeiling := ReceiveChunk(r, chunks[i]);
      frames := frames + more;
      if overCeiling {
        StoppedStays(chunks, i + 1);
        return;
      }
    }
    assert chunks[..|chunks|] == chunks;
  }

  lemma {:induction false} NothingReceived()
    ensures ParseAll(Flatten([])) == Parse([], [], false)
  {
  }

  lemma {:induction false} StoppedStays(chunks: seq<Bytes>, n: nat)
    requires n <= |chunks| && ParseAll(Flatten(chunks[..n])).overCeiling
    ensures ParseAll(Flatten(chunks)).overCeiling
    ensures ParseAll(Flatten(chunks)).frames == ParseAll(Flatten(chunks[..n])).frames
    decreases |chunks| - n
  {
    hide ParseAll, Flatten;
    if n < |chunks| {
      assert chunks[..n + 1] == chunks[..n] + [chunks[n]];
      FlattenSnoc(chunks[..n], chunks[n]);
      ParseSplit(Flatten(chunks[..n]), chunks[n]);
      StoppedStays(chunks, n + 1);
    } else {
      assert chunks[..n] == chunks;
    }
  }
}
