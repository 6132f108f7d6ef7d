/** Primitive wire values: exact-width integers, canonical floating-point bit patterns, UTF-8 strings and bytes. */
module Leaves {
  import opened LittleEndian

  datatype Option<+T> = None | Some(value: T)

  datatype Prim =
    | Int(width: nat, signed: bool)
    | Float(width: nat)
    | String
    | Blob

  /** The twelve primitives of the interface language. */
  predicate IsPrim(p: Prim) {
    match p
    case Int(w, _) => w == 1 || w == 2 || w == 4 || w == 8
    case Float(w) => w == 4 || w == 8
    case _ => true
  }

  /**
   * A value of any wire type. A float is its bit pattern with one NaN, a string its UTF-8 bytes, and a record an
   * object from field names to values. `Undefined` is an array or object slot that has not been assigned.
   */
  datatype Value =
    | VInt(n: int)
    | VFloat(bits: nat)
    | VString(utf8: Bytes)
    | VBlob(bytes: Bytes)
    | VList(elems: seq<Value>)
    | VRecord(fields: map<string, Value>)
    | Undefined

  const LENGTH_LIMIT: nat := 0x8000_0000_0000_0000

  // ---------------------------------------------------------------------------
  // UTF-8 (section 4 of RFC 3629)

  predicate Tail(b: Byte) {
    0x80 <= b <= 0xBF
  }

  /** The number of bytes of the well-formed sequence at the front, or 0 if there is none. */
  function SequenceLength(bs: Bytes): (n: nat)
    ensures n <= |bs|
  {
    if bs == [] then 0
    else if bs[0] <= 0x7F then 1
    else if |bs| >= 2 && 0xC2 <= bs[0] <= 0xDF && Tail(bs[1]) then 2
    else if |bs| >= 3 && Tail(bs[2]) &&
            ((bs[0] == 0xE0 && 0xA0 <= bs[1] <= 0xBF)
             || ((0xE1 <= bs[0] <= 0xEC || 0xEE <= bs[0] <= 0xEF) && Tail(bs[1]))
             || (bs[0] == 0xED && 0x80 <= bs[1] <= 0x9F)) then 3
    else if |bs| >= 4 && Tail(bs[2]) && Tail(bs[3]) &&
            ((bs[0] == 0xF0 && 0x90 <= bs[1] <= 0xBF)
             || (0xF1 <= bs[0] <= 0xF3 && Tail(bs[1]))
             || (bs[0] == 0xF4 && 0x80 <= bs[1] <= 0x8F)) then 4
    else 0
  }

  predicate ValidUtf8(bs: Bytes)
    decreases |bs|
  {
    bs == [] || (SequenceLength(bs) > 0 && ValidUtf8(bs[SequenceLength(bs)..]))
  }

  // ---------------------------------------------------------------------------
  // Numbers

  /** The bit patterns of infinity; a larger magnitude is a NaN. */
  function Infinity(width: nat): nat {
    if width == 4 then 0x7f80_0000 else 0x7ff0_0000_0000_0000
  }

  function SignBit(width: nat): (s: nat)
    ensures s > 0
  {
    if width == 4 then 0x8000_0000 else 0x8000_0000_0000_0000
  }

  function CanonicalNaN(width: nat): nat {
    if width == 4 then 0x7fc0_0000 else 0x7ff8_0000_0000_0000
  }

  predicate IsNaN(width: nat, bits: nat) {
    bits % SignBit(width) > Infinity(width)
  }

  function Minimum(w: nat, signed: bool): int {
    if signed then -(Capacity(w) / 2) else 0
  }

  function Maximum(w: nat, signed: bool): int {
    if signed then Capacity(w) / 2 - 1 else Capacity(w) - 1
  }

  function TwosComplement(w: nat, n: int): (u: nat)
    requires 0 - Capacity(w) <= n < Capacity(w)
  {
    if n < 0 then n + Capacity(w) else n
  }

  function FromTwosComplement(w: nat, signed: bool, u: nat): int {
    if signed && u > Maximum(w, true) then u - Capacity(w) else u
  }

  // ---------------------------------------------------------------------------
  // Leaf codecs

  predicate LeafTyped(p: Prim, v: Value) {
    match p
    case Int(w, signed) => v.VInt? && Minimum(w, signed) <= v.n <= Maximum(w, signed)
    case Float(w) => v.VFloat? && v.bits < Capacity(w) && (IsNaN(w, v.bits) ==> v.bits == CanonicalNaN(w))
    case String => v.VString? && |v.utf8| < LENGTH_LIMIT && ValidUtf8(v.utf8)
    case Blob => v.VBlob? && |v.bytes| < LENGTH_LIMIT
  }

  /** Encoders canonicalise NaN and reject out-of-range numbers, invalid UTF-8 and values of another kind. */
  function EncodeLeaf(p: Prim, v: Value): Option<Bytes> {
    match p
    case Int(w, signed) =>
      if v.VInt? && Minimum(w, signed) <= v.n <= Maximum(w, signed) then Some(Put(TwosComplement(w, v.n), w)) else None
    case Float(w) =>
      if v.VFloat? && v.bits < Capacity(w)
      then Some(Put(if IsNaN(w, v.bits) then CanonicalNaN(w) else v.bits, w)) else None
    case String =>
      if v.VString? && |v.utf8| < LENGTH_LIMIT && ValidUtf8(v.utf8) then Some(Put(|v.utf8|, 8) + v.utf8) else None
    case Blob =>
      if v.VBlob? && |v.bytes| < LENGTH_LIMIT then Some(Put(|v.bytes|, 8) + v.bytes) else None
  }

  datatype Decoded = Decoded(value: Value, rest: Bytes)

  function DecodeNumber(w: nat, bs: Bytes): Option<nat> {
    if |bs| < w then None else Some(Get(bs[..w]))
  }

  /** A length-prefixed run of bytes, bounded by what remains. */
  function DecodeRun(bs: Bytes): Option<(Bytes, Bytes)> {
    var n := DecodeNumber(8, bs);
    if n.None? || n.value > |bs| - 8 then None else Some((bs[8..8 + n.value], bs[8 + n.value..]))
  }

  function DecodeLeaf(p: Prim, bs: Bytes): Option<Decoded> {
    match p
    case Int(w, signed) =>
      var n := DecodeNumber(w, bs);
      if n.None? then None else Some(Decoded(VInt(FromTwosComplement(w, signed, n.value)), bs[w..]))
    case Float(w) =>
      var n := DecodeNumber(w, bs);
      if n.None? || (IsNaN(w, n.value) && n.value != CanonicalNaN(w)) then None
      else Some(Decoded(VFloat(n.value), bs[w..]))
    case String =>
      var r := DecodeRun(bs);
      if r.None? || !ValidUtf8(r.value.0) || |r.value.0| >= LENGTH_LIMIT then None
      else Some(Decoded(VString(r.value.0), r.value.1))
    case Blob =>
      var r := DecodeRun(bs);
      if r.None? || |r.value.0| >= LENGTH_LIMIT then None else Some(Decoded(VBlob(r.value.0), r.value.1))
  }

  lemma {:induction false} NumberRoundTrip(n: nat, w: nat, rest: Bytes)
    requires n < Capacity(w)
    ensures DecodeNumber(w, Put(n, w) + rest) == Some(n) && (Put(n, w) + rest)[w..] == rest
  {
    assert (Put(n, w) + rest)[..w] == Put(n, w);
    GetPut(n, w);
  }

  lemma {:induction false} NumberCanonical(w: nat, bs: Bytes)
    requires DecodeNumber(w, bs).Some?
    ensures var n := DecodeNumber(w, bs).value; n < Capacity(w) && bs == Put(n, w) + bs[w..]
  {
    hide Put, Get, Capacity;
    PutGet(bs[..w]);
    assert bs == bs[..w] + bs[w..];
  }

  lemma {:induction false} RunRoundTrip(run: Bytes, rest: Bytes)
    requires |run| < LENGTH_LIMIT
    ensures DecodeRun(Put(|run|, 8) + run + rest) == Some((run, rest))
  {
    Capacity8();
    hide Put, Get, Capacity;
    var bs := Put(|run|, 8) + run + rest;
    assert bs == Put(|run|, 8) + (run + rest);
    NumberRoundTrip(|run|, 8, run + rest);
    assert bs[8..] == run + rest;
    assert bs[8..8 + |run|] == run;
    assert bs[8 + |run|..] == rest;
  }

  lemma {:induction false} RunCanonical(bs: Bytes)
    requires DecodeRun(bs).Some?
    ensures var (run, rest) := DecodeRun(bs).value; bs == Put(|run|, 8) + run + rest
  {
    hide Put, Get, Capacity;
    var (run, rest) := DecodeRun(bs).value;
    NumberCanonical(8, bs);
    assert bs[8..] == run + rest;
  }

  lemma {:induction false} IntRange(w: nat, signed: bool, n: int)
    requires w > 0 && Minimum(w, signed) <= n <= Maximum(w, signed)
    ensures TwosComplement(w, n) < Capacity(w) && FromTwosComplement(w, signed, TwosComplement(w, n)) == n
  {
    assert Capacity(w) == 256 * Capacity(w - 1);
    assert Capacity(w) / 2 == 128 * Capacity(w - 1);
  }

  lemma {:induction false} IntRangeBack(w: nat, signed: bool, u: nat)
    requires w > 0 && u < Capacity(w)
    ensures var n := FromTwosComplement(w, signed, u);
            Minimum(w, signed) <= n <= Maximum(w, signed) && TwosComplement(w, n) == u
  {
    assert Capacity(w) == 256 * Capacity(w - 1);
    assert Capacity(w) / 2 == 128 * Capacity(w - 1);
  }

  /** A typed leaf encodes to at least one byte and decodes back, leaving exactly the suffix. */
  lemma {:induction false} LeafRoundTrip(p: Prim, v: Value, rest: Bytes)
    requires IsPrim(p) && LeafTyped(p, v)
    ensures EncodeLeaf(p, v).Some? && |EncodeLeaf(p, v).value| >= 1
    ensures DecodeLeaf(p, EncodeLeaf(p, v).value + rest) == Some(Decoded(v, rest))
  {
    match p
    case Int(w, signed) =>
      IntRange(w, signed, v.n);
      hide Put, Get, Capacity;
      NumberRoundTrip(TwosComplement(w, v.n), w, rest);
    case Float(w) =>
      hide Put, Get, Capacity;
      NumberRoundTrip(v.bits, w, rest);
    case String =>
      hide Put, Get, ValidUtf8;
      RunRoundTrip(v.utf8, rest);
    case Blob =>
      hide Put, Get;
      RunRoundTrip(v.bytes, rest);
  }

  /** Every accepted leaf encoding is the encoding of the decoded value. */
  lemma {:induction false} LeafCanonical(p: Prim, bs: Bytes)
    requires IsPrim(p) && DecodeLeaf(p, bs).Some?
    ensures var d := DecodeLeaf(p, bs).value;
            && LeafTyped(p, d.value)
            && EncodeLeaf(p, d.value).Some?
            && bs == EncodeLeaf(p, d.value).value + d.rest
  {
    hide Put, Get, ValidUtf8;
    match p
    case Int(w, signed) =>
      NumberCanonical(w, bs);
      IntRangeBack(w, signed, DecodeNumber(w, bs).value);
    case Float(w) =>
      NumberCanonical(w, bs);
    case String =>
      RunCanonical(bs);
    case Blob =>
      RunCanonical(bs);
  }

  /** Encoding succeeds exactly on leaves of the type, except that any NaN pattern is accepted and made canonical. */
  lemma {:induction false} LeafEncodes(p: Prim, v: Value)
    requires IsPrim(p)
    ensures EncodeLeaf(p, v).Some? <==>
            LeafTyped(p, v) || (p.Float? && v.VFloat? && v.bits < Capacity(p.width) && IsNaN(p.width, v.bits))
    ensures p.Float? && v.VFloat? && v.bits < Capacity(p.width) && IsNaN(p.width, v.bits) ==>
            EncodeLeaf(p, v) == EncodeLeaf(p, VFloat(CanonicalNaN(p.width)))
  {
    Capacity8();
  }
}
