/** The 24-byte frame header and complete frames, as both runtimes build and parse them. */
module Frames {
  import opened LittleEndian
  import opened Lists

  const HEADER_SIZE: nat := 24
  const MAX_PAYLOAD: nat := 64 * 1024 * 1024
  const RESPONSE_BIT: nat := 0x8000_0000_0000_0000
  const KEY_LIMIT: nat := 0x1_0000_0000_0000_0000

  datatype Kind = Request | Response

  /** `id` carries the 63 request-ID bits; `kind` is the most significant bit of the wire field. */
  datatype Frame = Frame(kind: Kind, id: nat, key: nat, payload: Bytes)

  datatype Header = Header(kind: Kind, id: nat, key: nat, length: nat)

  datatype HeaderResult = BadSize | OverCeiling | Parsed(header: Header)

  datatype ReadResult = Short | TooLong | Got(frame: Frame, size: nat)

  /** The frames that can be written: native slice lengths and 64-bit keys. */
  predicate Valid(f: Frame) {
    f.id < RESPONSE_BIT && f.key < KEY_LIMIT && |f.payload| < RESPONSE_BIT
  }

  predicate UnderCeiling(f: Frame) {
    |f.payload| <= MAX_PAYLOAD
  }

  function RawId(kind: Kind, id: nat): (raw: nat)
    ensures raw < KEY_LIMIT
  {
    id % RESPONSE_BIT + (if kind == Response then RESPONSE_BIT else 0)
  }

  function HeaderBytes(kind: Kind, id: nat, key: nat, length: nat): (bs: Bytes)
    ensures |bs| == HEADER_SIZE
  {
    Put(RawId(kind, id), 8) + Put(key, 8) + Put(length, 8)
  }

  function Encode(f: Frame): (bs: Bytes)
    ensures |bs| == HEADER_SIZE + |f.payload|
  {
    HeaderBytes(f.kind, f.id, f.key, |f.payload|) + f.payload
  }

  function ParseHeader(bs: Bytes): HeaderResult {
    if |bs| != HEADER_SIZE then BadSize
    else
      var raw := Get(bs[0..8]);
      var length := Get(bs[16..24]);
      if length > MAX_PAYLOAD then OverCeiling
      else Parsed(Header(if raw / RESPONSE_BIT % 2 == 1 then Response else Request, raw % RESPONSE_BIT,
                         Get(bs[8..16]), length))
  }

  /** What a full read of one frame finds at the front of the bytes received so far. */
  function ReadFrame(bs: Bytes): (r: ReadResult)
    ensures r.Got? ==> HEADER_SIZE <= r.size <= |bs|
  {
    if |bs| < HEADER_SIZE then Short
    else match ParseHeader(bs[..HEADER_SIZE])
      case BadSize => Short
      case OverCeiling => TooLong
      case Parsed(h) =>
        if |bs| < HEADER_SIZE + h.length then Short
        else Got(Frame(h.kind, h.id, h.key, bs[HEADER_SIZE..HEADER_SIZE + h.length]), HEADER_SIZE + h.length)
  }

  lemma {:induction false} HeaderFields(a: Bytes, b: Bytes, c: Bytes)
    requires |a| == |b| == |c| == 8
    ensures var bs := a + b + c; bs[0..8] == a && bs[8..16] == b && bs[16..24] == c
  {
  }

  lemma {:induction false} RawIdParts(kind: Kind, id: nat)
    requires id < RESPONSE_BIT
    ensures var raw := RawId(kind, id);
            raw % RESPONSE_BIT == id && (raw / RESPONSE_BIT % 2 == 1 <==> kind == Response)
  {
  }

  lemma {:induction false} ParseHeaderBytes(kind: Kind, id: nat, key: nat, length: nat)
    requires id < RESPONSE_BIT && key < KEY_LIMIT && length < KEY_LIMIT
    ensures ParseHeader(HeaderBytes(kind, id, key, length)) ==
            if length > MAX_PAYLOAD then OverCeiling else Parsed(Header(kind, id, key, length))
  {
    var raw := RawId(kind, id);
    HeaderFields(Put(raw, 8), Put(key, 8), Put(length, 8));
    Capacity8();
    GetPut(raw, 8);
    GetPut(key, 8);
    GetPut(length, 8);
    RawIdParts(kind, id);
    hide Put, Get, RawId;
  }

  /** Reading back a written frame returns it and stops exactly at its last byte. */
  lemma {:induction false} ReadEncoded(f: Frame, rest: Bytes)
    requires Valid(f)
    ensures ReadFrame(Encode(f) + rest) == if UnderCeiling(f) then Got(f, |Encode(f)|) else TooLong
  {
    var bs := Encode(f) + rest;
    assert bs[..HEADER_SIZE] == HeaderBytes(f.kind, f.id, f.key, |f.payload|);
    ParseHeaderBytes(f.kind, f.id, f.key, |f.payload|);
    if UnderCeiling(f) {
      assert bs[HEADER_SIZE..HEADER_SIZE + |f.payload|] == f.payload;
    }
  }

  /** A frame that is still being written is never mistaken for a complete one. */
  lemma {:induction false} ReadPartial(f: Frame, n: nat)
    requires Valid(f) && n < |Encode(f)|
    ensures var r := ReadFrame(Encode(f)[..n]);
            r == (if n < HEADER_SIZE || UnderCeiling(f) then Short else TooLong)
  {
    if n >= HEADER_SIZE {
      assert Encode(f)[..n][..HEADER_SIZE] == HeaderBytes(f.kind, f.id, f.key, |f.payload|);
      ParseHeaderBytes(f.kind, f.id, f.key, |f.payload|);
    }
  }

  lemma {:induction false} RawIdSplit(raw: nat)
    requires raw < KEY_LIMIT
    ensures RawId(if raw / RESPONSE_BIT % 2 == 1 then Response else Request, raw % RESPONSE_BIT) == raw
  {
  }

  lemma {:induction false} HeaderIsCanonical(h: Bytes)
    requires ParseHeader(h).Parsed?
    ensures var p := ParseHeader(h).header;
            && p.id < RESPONSE_BIT && p.key < KEY_LIMIT && p.length <= MAX_PAYLOAD
            && HeaderBytes(p.kind, p.id, p.key, p.length) == h
  {
    hide RawId, Put, Get;
    Capacity8();
    PutGet(h[0..8]);
    PutGet(h[8..16]);
    PutGet(h[16..24]);
    RawIdSplit(Get(h[0..8]));
    assert h == h[0..8] + h[8..16] + h[16..24];
  }

  /** Every accepted byte string is the encoding of the frame read from it. */
  lemma {:induction false} ReadIsCanonical(bs: Bytes)
    requires ReadFrame(bs).Got?
    ensures var r := ReadFrame(bs);
            Valid(r.frame) && UnderCeiling(r.frame) && Encode(r.frame) == bs[..r.size]
  {
    hide ParseHeader, HeaderBytes;
    var r := ReadFrame(bs);
    var h := bs[..HEADER_SIZE];
    HeaderIsCanonical(h);
    assert bs[..r.size] == h + bs[HEADER_SIZE..r.size];
  }

  /** What a complete reception can know once `bs` has arrived is not revised by later bytes. */
  lemma {:induction false} ReadFrameStable(bs: Bytes, more: Bytes)
    requires ReadFrame(bs) != Short
    ensures ReadFrame(bs + more) == ReadFrame(bs)
  {
    assert (bs + more)[..HEADER_SIZE] == bs[..HEADER_SIZE];
    match ReadFrame(bs)
    case Got(f, n) => assert (bs + more)[HEADER_SIZE..n] == bs[HEADER_SIZE..n];
    case TooLong =>
  }

  // ---------------------------------------------------------------------------
  // Streams of frames

  function Concat(fs: seq<Frame>): Bytes {
    if fs == [] then [] else Encode(fs[0]) + Concat(fs[1..])
  }

  lemma {:induction false} ConcatAppend(fs: seq<Frame>, gs: seq<Frame>)
    ensures Concat(fs + gs) == Concat(fs) + Concat(gs)
  {
    if fs == [] {
      assert fs + gs == gs;
      assert Concat(fs) == [];
    } else {
      ConcatFirst(fs);
      ConcatFirst(fs + gs);
      hide Encode, Concat;
      ConcatAppend(fs[1..], gs);
      assert (fs + gs)[1..] == fs[1..] + gs;
      Regroup(Encode(fs[0]), Concat(fs[1..]), Concat(gs));
    }
  }

  lemma {:induction false} ConcatFirst(fs: seq<Frame>)
    requires fs != []
    ensures Concat(fs) == Encode(fs[0]) + Concat(fs[1..])
  {
  }

  lemma {:induction false} ConcatSnoc(fs: seq<Frame>, f: Frame)
    ensures Concat(fs + [f]) == Concat(fs) + Encode(f)
  {
    ConcatAppend(fs, [f]);
    assert Concat([f]) == Encode(f) + Concat([]);
  }

  /** Frames read from the front of a byte string, and the bytes left when no further frame is complete. */
  datatype Parse = Parse(frames: seq<Frame>, rest: Bytes, overCeiling: bool)

  function ParseAll(bs: Bytes): Parse
    decreases |bs|
  {
    match ReadFrame(bs)
    case Short => Parse([], bs, false)
    case TooLong => Parse([], bs, true)
    case Got(f, n) =>
      var p := ParseAll(bs[n..]);
      Parse([f] + p.frames, p.rest, p.overCeiling)
  }

  lemma {:induction false} ParseOne(f: Frame, rest: Bytes)
    requires Valid(f) && UnderCeiling(f)
    ensures ParseAll(Encode(f) + rest) == var p := ParseAll(rest); Parse([f] + p.frames, p.rest, p.overCeiling)
  {
    hide ReadFrame, Encode;
    ReadEncoded(f, rest);
    assert (Encode(f) + rest)[|Encode(f)|..] == rest;
  }

  /** A stream of complete accepted frames parses back to those frames, whatever follows them. */
  lemma {:induction false} ParseConcat(fs: seq<Frame>, tail: Bytes)
    requires forall f :: f in fs ==> Valid(f) && UnderCeiling(f)
    ensures ParseAll(Concat(fs) + tail) ==
            var p := ParseAll(tail); Parse(fs + p.frames, p.rest, p.overCeiling)
  {
    hide ReadFrame, Encode, ParseAll;
    if fs == [] {
      assert Concat(fs) + tail == tail;
    } else {
      var rest := Concat(fs[1..]) + tail;
      assert Concat(fs) + tail == Encode(fs[0]) + rest;
      ParseOne(fs[0], rest);
      ParseConcat(fs[1..], tail);
      assert fs == [fs[0]] + fs[1..];
    }
  }

  /** Splitting: parsing a prefix first and the leftover with the next bytes changes nothing. */
  lemma {:induction false} ParseSplit(bs: Bytes, more: Bytes)
    ensures var p := ParseAll(bs);
            ParseAll(bs + more) ==
            if p.overCeiling then Parse(p.frames, p.rest + more, true)
            else var q := ParseAll(p.rest + more); Parse(p.frames + q.frames, q.rest, q.overCeiling)
    decreases |bs|
  {
    hide ReadFrame;
    match ReadFrame(bs)
    case Short =>
    case TooLong => ReadFrameStable(bs, more);
    case Got(f, n) =>
      ReadFrameStable(bs, more);
      assert (bs + more)[n..] == bs[n..] + more;
      ParseSplit(bs[n..], more);
  }

  /** The unread rest is exactly the received bytes after the frames delivered so far. */
  lemma {:induction false} ParseConsumes(bs: Bytes)
    ensures var p := ParseAll(bs);
            && bs == Concat(p.frames) + p.rest
            && (ReadFrame(p.rest) == if p.overCeiling then TooLong else Short)
            && forall f :: f in p.frames ==> Valid(f) && UnderCeiling(f)
    decreases |bs|
  {
    hide ReadFrame, Encode;
    match ReadFrame(bs)
    case Short => assert Concat([]) + bs == bs;
    case TooLong => assert Concat([]) + bs == bs;
    case Got(f, n) =>
      ReadIsCanonical(bs);
      ParseConsumes(bs[n..]);
      var p := ParseAll(bs[n..]);
      assert ([f] + p.frames)[1..] == p.frames;
      assert bs == bs[..n] + bs[n..];
      assert Concat([f] + p.frames) + p.rest == Encode(f) + (Concat(p.frames) + p.rest);
  }

  /** `buildFrame`: one owned contiguous buffer, header fields written in place and the payload copied. */
  method BuildFrame(kind: Kind, id: nat, key: nat, payload: Bytes) returns (frame: array<Byte>)
    requires key < KEY_LIMIT && |payload| < RESPONSE_BIT
    ensures fresh(frame)
    ensures frame[..] == Encode(Frame(kind, id, key, payload))
  {
    hide Put, RawId, Encode, HeaderBytes;
    var raw, ks, ls := Put(RawId(kind, id), 8), Put(key, 8), Put(|payload|, 8);
    PutLength(RawId(kind, id));
    PutLength(key);
    PutLength(|payload|);
    frame := new Byte[HEADER_SIZE + |payload|](_ => 0);
    ghost var s := frame[..];
    Overwrite(frame, 0, raw);
    WrittenNext(s, [], raw, frame[..]);
    s := frame[..];
    Overwrite(frame, 8, ks);
    WrittenNext(s, [] + raw, ks, frame[..]);
    s := frame[..];
    Overwrite(frame, 16, ls);
    WrittenNext(s, [] + raw + ks, ls, frame[..]);
    s := frame[..];
    Overwrite(frame, HEADER_SIZE, payload);
    WrittenNext(s, [] + raw + ks + ls, payload, frame[..]);
    EncodeParts(Frame(kind, id, key, payload));
    assert frame[..] == frame[..][..HEADER_SIZE + |payload|];
    assert [] + raw == raw;
  }

  lemma {:induction false} PutLength(n: nat)
    ensures |Put(n, 8)| == 8
  {
  }

  lemma {:induction false} EncodeParts(f: Frame)
    ensures Encode(f) == Put(RawId(f.kind, f.id), 8) + Put(f.key, 8) + Put(|f.payload|, 8) + f.payload
  {
    hide Put, RawId;
  }

  /** Writing behind what is written extends it. */
  lemma {:induction false} WrittenNext(before: Bytes, done: Bytes, bytes: Bytes, after: Bytes)
    requires |done| + |bytes| <= |before| && before[..|done|] == done
    requires after == before[..|done|] + bytes + before[|done| + |bytes|..]
    ensures after[..|done| + |bytes|] == done + bytes
  {
  }

  lemma {:induction false} FrameTail(f: Frame)
    ensures Encode(f) == Put(RawId(f.kind, f.id), 8) + (Put(f.key, 8) + Put(|f.payload|, 8) + f.payload)
  {
    hide Put, RawId;
  }

  /** Request admission patches the allocated ID over the placeholder of an already built frame. */
  method PatchRequestId(frame: array<Byte>, id: nat, ghost key: nat, ghost payload: Bytes)
    requires id < RESPONSE_BIT
    requires frame[..] == Encode(Frame(Request, 0, key, payload))
    modifies frame
    ensures frame[..] == Encode(Frame(Request, id, key, payload))
  {
    hide Encode;
    FrameTail(Frame(Request, 0, key, payload));
    FrameTail(Frame(Request, id, key, payload));
    ghost var tail := Put(key, 8) + Put(|payload|, 8) + payload;
    assert frame[8..] == frame[..][8..] == tail;
    Overwrite(frame, 0, Put(id, 8));
  }
}
