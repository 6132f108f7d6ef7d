/**
 * The recursive codec that the Go emitter defines, over resolved types: fields in declaration order, zero-width
 * fields and elements skipped, and every decode bounded by what remains.
 */
module Codec {
  import opened LittleEndian
  import opened Leaves

  datatype Type = TPrim(p: Prim) | TList(elem: Type) | TRecord(fields: seq<Field>)

  datatype Field = Field(name: string, typ: Type)

  const MAX_INT: nat := 0x7fff_ffff_ffff_ffff

  function Names(fs: seq<Field>): set<string> {
    set i | 0 <= i < |fs| :: fs[i].name
  }

  /** What validation guarantees: known primitives and, per record, distinct field names. */
  predicate WellFormed(t: Type) {
    match t
    case TPrim(p) => IsPrim(p)
    case TList(e) => WellFormed(e)
    case TRecord(fs) => FieldsWellFormed(fs)
  }

  predicate FieldsWellFormed(fs: seq<Field>) {
    fs == [] || (WellFormed(fs[0].typ) && fs[0].name !in Names(fs[1..]) && FieldsWellFormed(fs[1..]))
  }

  /** `zeroWidthOf`. */
  predicate ZeroWidth(t: Type) {
    match t
    case TPrim(_) => false
    case TList(_) => false
    case TRecord(fs) => AllZeroWidth(fs)
  }

  predicate AllZeroWidth(fs: seq<Field>) {
    fs == [] || (ZeroWidth(fs[0].typ) && AllZeroWidth(fs[1..]))
  }

  /** The zero value of a zero-width type. */
  function ZeroOf(t: Type): Value {
    if t.TRecord? then VRecord(ZeroFields(t.fields)) else Undefined
  }

  function ZeroFields(fs: seq<Field>): map<string, Value> {
    if fs == [] then map[] else ZeroFields(fs[1..])[fs[0].name := ZeroOf(fs[0].typ)]
  }

  // ---------------------------------------------------------------------------
  // Values of a type

  predicate Typed(t: Type, v: Value)
    decreases t, 0
  {
    match t
    case TPrim(p) => LeafTyped(p, v)
    case TList(e) => v.VList? && |v.elems| < LENGTH_LIMIT && ElemsTyped(e, v.elems)
    case TRecord(fs) => v.VRecord? && v.fields.Keys == Names(fs) && FieldsTyped(fs, v.fields)
  }

  predicate ElemsTyped(e: Type, vs: seq<Value>)
    decreases e, 1, |vs|
  {
    vs == [] || (Typed(e, vs[0]) && ElemsTyped(e, vs[1..]))
  }

  predicate FieldsTyped(fs: seq<Field>, m: map<string, Value>)
    decreases fs, 0
  {
    fs == [] || (fs[0].name in m && Typed(fs[0].typ, m[fs[0].name]) && FieldsTyped(fs[1..], m))
  }

  // ---------------------------------------------------------------------------
  // Encoding

  function LeafBytes(p: Prim, v: Value): Bytes {
    if EncodeLeaf(p, v).Some? then EncodeLeaf(p, v).value else []
  }

  function Enc(t: Type, v: Value): Bytes
    requires Typed(t, v)
    decreases t, 0
  {
    match t
    case TPrim(p) => LeafBytes(p, v)
    case TList(e) => Put(|v.elems|, 8) + (if ZeroWidth(e) then [] else EncElems(e, v.elems))
    case TRecord(fs) => EncFields(fs, v.fields)
  }

  function EncElems(e: Type, vs: seq<Value>): Bytes
    requires ElemsTyped(e, vs)
    decreases e, 1, |vs|
  {
    if vs == [] then [] else Enc(e, vs[0]) + EncElems(e, vs[1..])
  }

  function EncFields(fs: seq<Field>, m: map<string, Value>): Bytes
    requires FieldsTyped(fs, m)
    decreases fs, 0
  {
    if fs == [] then []
    else (if ZeroWidth(fs[0].typ) then [] else Enc(fs[0].typ, m[fs[0].name])) + EncFields(fs[1..], m)
  }

  // ---------------------------------------------------------------------------
  // Decoding

  datatype Elems = Elems(values: seq<Value>, rest: Bytes)
  datatype Members = Members(fields: map<string, Value>, rest: Bytes)

  function Zeros(e: Type, n: nat): seq<Value> {
    seq(n, _ => ZeroOf(e))
  }

  function Dec(t: Type, bs: Bytes): Option<Decoded>
    decreases t, 0
  {
    match t
    case TPrim(p) => DecodeLeaf(p, bs)
    case TList(e) =>
      var n := DecodeNumber(8, bs);
      if n.None? then None
      else if ZeroWidth(e) then
        if n.value > MAX_INT then None else Some(Decoded(VList(Zeros(e, n.value)), bs[8..]))
      else if n.value > |bs| - 8 then None
      else
        var r := DecElems(e, n.value, bs[8..]);
        if r.None? || n.value >= LENGTH_LIMIT then None else Some(Decoded(VList(r.value.values), r.value.rest))
    case TRecord(fs) =>
      var r := DecFields(fs, bs);
      if r.None? then None else Some(Decoded(VRecord(r.value.fields), r.value.rest))
  }

  function DecElems(e: Type, n: nat, bs: Bytes): Option<Elems>
    decreases e, 1, n
  {
    if n == 0 then Some(Elems([], bs))
    else
      var d := Dec(e, bs);
      if d.None? then None
      else
        var r := DecElems(e, n - 1, d.value.rest);
        if r.None? then None else Some(Elems([d.value.value] + r.value.values, r.value.rest))
  }

  function DecFields(fs: seq<Field>, bs: Bytes): Option<Members>
    decreases fs, 0
  {
    if fs == [] then Some(Members(map[], bs))
    else
      var d := if ZeroWidth(fs[0].typ) then Some(Decoded(ZeroOf(fs[0].typ), bs)) else Dec(fs[0].typ, bs);
      if d.None? then None
      else
        var r := DecFields(fs[1..], d.value.rest);
        if r.None? then None else Some(Members(r.value.fields[fs[0].name := d.value.value], r.value.rest))
  }

  // ---------------------------------------------------------------------------
  // Zero width means no bytes, and nothing else does

  lemma {:induction false} ZeroValue(t: Type)
    requires WellFormed(t) && ZeroWidth(t)
    ensures Typed(t, ZeroOf(t))
    decreases t, 0
  {
    ZeroFieldsTyped(t.fields);
  }

  lemma {:induction false} ZeroFieldsTyped(fs: seq<Field>)
    requires FieldsWellFormed(fs) && AllZeroWidth(fs)
    ensures ZeroFields(fs).Keys == Names(fs) && FieldsTyped(fs, ZeroFields(fs))
    decreases fs, 0
  {
    if fs != [] {
      ZeroValue(fs[0].typ);
      ZeroFieldsTyped(fs[1..]);
      FieldsTypedExtend(fs[1..], ZeroFields(fs[1..]), fs[0].name, ZeroOf(fs[0].typ));
      NamesCons(fs);
    }
  }

  lemma {:induction false} NamesCons(fs: seq<Field>)
    requires fs != []
    ensures Names(fs) == {fs[0].name} + Names(fs[1..])
  {
    forall n | n in Names(fs)
      ensures n in {fs[0].name} + Names(fs[1..])
    {
      var i :| 0 <= i < |fs| && fs[i].name == n;
      if i > 0 {
        assert fs[1..][i - 1].name == n;
      }
    }
    forall n | n in Names(fs[1..])
      ensures n in Names(fs)
    {
      var i :| 0 <= i < |fs[1..]| && fs[1..][i].name == n;
      assert fs[i + 1].name == n;
    }
  }

  lemma {:induction false} FieldsTypedExtend(fs: seq<Field>, m: map<string, Value>, name: string, v: Value)
    requires FieldsTyped(fs, m) && name !in Names(fs)
    ensures FieldsTyped(fs, m[name := v])
    decreases |fs|
  {
    if fs != [] {
      NamesCons(fs);
      FieldsTypedExtend(fs[1..], m, name, v);
    }
  }

  /** A zero-width type has exactly one value. */
  lemma {:induction false} ZeroIsUnique(t: Type, v: Value)
    requires WellFormed(t) && ZeroWidth(t) && Typed(t, v)
    ensures v == ZeroOf(t)
    decreases t, 0
  {
    ZeroFieldsUnique(t.fields, v.fields);
    ZeroFieldsTyped(t.fields);
    assert v.fields == ZeroFields(t.fields);
  }

  lemma {:induction false} ZeroFieldsUnique(fs: seq<Field>, m: map<string, Value>)
    requires FieldsWellFormed(fs) && AllZeroWidth(fs) && FieldsTyped(fs, m)
    ensures forall n :: n in Names(fs) ==> n in m && n in ZeroFields(fs) && m[n] == ZeroFields(fs)[n]
    decreases fs, 0
  {
    if fs != [] {
      ZeroIsUnique(fs[0].typ, m[fs[0].name]);
      ZeroFieldsUnique(fs[1..], m);
      NamesCons(fs);
    }
  }

  /** Flagged zero-width: every value takes no bytes. Otherwise every value takes at least one. */
  lemma {:induction false} WidthOfValue(t: Type, v: Value)
    requires WellFormed(t) && Typed(t, v)
    ensures ZeroWidth(t) ==> Enc(t, v) == []
    ensures !ZeroWidth(t) ==> |Enc(t, v)| >= 1
    decreases t, 0
  {
    match t
    case TPrim(p) => LeafRoundTrip(p, v, []);
    case TList(e) =>
    case TRecord(fs) => WidthOfFields(fs, v.fields);
  }

  lemma {:induction false} WidthOfFields(fs: seq<Field>, m: map<string, Value>)
    requires FieldsWellFormed(fs) && FieldsTyped(fs, m)
    ensures AllZeroWidth(fs) ==> EncFields(fs, m) == []
    ensures !AllZeroWidth(fs) ==> |EncFields(fs, m)| >= 1
    decreases fs, 0
  {
    if fs != [] {
      WidthOfValue(fs[0].typ, m[fs[0].name]);
      WidthOfFields(fs[1..], m);
    }
  }

  lemma {:induction false} ElemsWidth(e: Type, vs: seq<Value>)
    requires WellFormed(e) && !ZeroWidth(e) && ElemsTyped(e, vs)
    ensures |EncElems(e, vs)| >= |vs|
    decreases |vs|
  {
    if vs != [] {
      WidthOfValue(e, vs[0]);
      ElemsWidth(e, vs[1..]);
    }
  }

  // ---------------------------------------------------------------------------
  // Decoding an encoding

  /** Decoding an encoded value followed by any suffix returns the value and exactly that suffix. */
  lemma {:induction false} RoundTrip(t: Type, v: Value, rest: Bytes)
    requires WellFormed(t) && Typed(t, v)
    ensures Dec(t, Enc(t, v) + rest) == Some(Decoded(v, rest))
    decreases t, 0
  {
    match t
    case TPrim(p) => LeafRoundTrip(p, v, rest);
    case TList(e) => ListRoundTrip(e, v, rest);
    case TRecord(fs) =>
      RoundTripFields(fs, v.fields, rest);
      var d := DecFields(fs, EncFields(fs, v.fields) + rest).value.fields;
      assert d == v.fields;
  }

  lemma {:induction false} ListRoundTrip(e: Type, v: Value, rest: Bytes)
    requires WellFormed(e) && Typed(TList(e), v)
    ensures Dec(TList(e), Enc(TList(e), v) + rest) == Some(Decoded(v, rest))
    decreases e, 2
  {
    Capacity8();
    hide Put, Get, Capacity, DecodeNumber;
    var n := |v.elems|;
    var body := if ZeroWidth(e) then [] else EncElems(e, v.elems);
    assert Enc(TList(e), v) + rest == Put(n, 8) + (body + rest);
    NumberRoundTrip(n, 8, body + rest);
    if ZeroWidth(e) {
      ZeroElems(e, v.elems);
      assert body + rest == rest;
    } else {
      RoundTripElems(e, v.elems, rest);
      ElemsWidth(e, v.elems);
    }
  }

  lemma {:induction false} ZeroElems(e: Type, vs: seq<Value>)
    requires WellFormed(e) && ZeroWidth(e) && ElemsTyped(e, vs)
    ensures vs == Zeros(e, |vs|)
    decreases |vs|
  {
    if vs != [] {
      ZeroIsUnique(e, vs[0]);
      ZeroElems(e, vs[1..]);
      assert vs == [vs[0]] + vs[1..];
    }
  }

  lemma {:induction false} RoundTripElems(e: Type, vs: seq<Value>, rest: Bytes)
    requires WellFormed(e) && ElemsTyped(e, vs)
    ensures DecElems(e, |vs|, EncElems(e, vs) + rest) == Some(Elems(vs, rest))
    decreases e, 1, |vs|
  {
    if vs == [] {
      assert EncElems(e, vs) + rest == rest;
    } else {
      var tail := EncElems(e, vs[1..]) + rest;
      assert EncElems(e, vs) + rest == Enc(e, vs[0]) + tail;
      RoundTrip(e, vs[0], tail);
      RoundTripElems(e, vs[1..], rest);
      assert vs == [vs[0]] + vs[1..];
    }
  }

  lemma {:induction false} RoundTripFields(fs: seq<Field>, m: map<string, Value>, rest: Bytes)
    requires FieldsWellFormed(fs) && FieldsTyped(fs, m)
    ensures DecFields(fs, EncFields(fs, m) + rest).Some?
    ensures var r := DecFields(fs, EncFields(fs, m) + rest).value;
            && r.rest == rest && r.fields.Keys == Names(fs)
            && (forall n :: n in Names(fs) ==> n in m && r.fields[n] == m[n])
    decreases fs, 0
  {
    if fs == [] {
      assert EncFields(fs, m) + rest == rest;
    } else {
      var t := fs[0].typ;
      var x := m[fs[0].name];
      var tail := EncFields(fs[1..], m) + rest;
      var head := if ZeroWidth(t) then [] else Enc(t, x);
      assert EncFields(fs, m) + rest == head + tail;
      if ZeroWidth(t) {
        ZeroIsUnique(t, x);
        assert head + tail == tail;
      } else {
        RoundTrip(t, x, tail);
      }
      RoundTripFields(fs[1..], m, rest);
      NamesCons(fs);
    }
  }

  // ---------------------------------------------------------------------------
  // Every accepted byte string is an encoding

  /** Decoding succeeds only on encodings of a value of the type, so no two byte strings decode to one value. */
  lemma {:induction false} Canonical(t: Type, bs: Bytes)
    requires WellFormed(t) && Dec(t, bs).Some?
    ensures var d := Dec(t, bs).value; Typed(t, d.value) && bs == Enc(t, d.value) + d.rest
    decreases t, 0
  {
    match t
    case TPrim(p) => LeafCanonical(p, bs);
    case TList(e) => ListCanonical(e, bs);
    case TRecord(fs) =>
      FieldsCanonical(fs, bs);
  }

  lemma {:induction false} ListCanonical(e: Type, bs: Bytes)
    requires WellFormed(e) && Dec(TList(e), bs).Some?
    ensures var d := Dec(TList(e), bs).value; Typed(TList(e), d.value) && bs == Enc(TList(e), d.value) + d.rest
    decreases e, 2
  {
    hide Put, Get, Capacity, DecodeNumber;
    var n := DecodeNumber(8, bs).value;
    NumberCanonical(8, bs);
    if ZeroWidth(e) {
      ZerosTyped(e, n);
      assert Put(n, 8) + [] == Put(n, 8);
    } else {
      ElemsCanonical(e, n, bs[8..]);
      var r := DecElems(e, n, bs[8..]).value;
      assert Put(n, 8) + (EncElems(e, r.values) + r.rest) == (Put(n, 8) + EncElems(e, r.values)) + r.rest;
    }
  }

  lemma {:induction false} ZerosTyped(e: Type, n: nat)
    requires WellFormed(e) && ZeroWidth(e)
    ensures ElemsTyped(e, Zeros(e, n))
    decreases n
  {
    if n > 0 {
      ZeroValue(e);
      ZerosTyped(e, n - 1);
      assert Zeros(e, n)[1..] == Zeros(e, n - 1);
    }
  }

  lemma {:induction false} ElemsCanonical(e: Type, n: nat, bs: Bytes)
    requires WellFormed(e) && DecElems(e, n, bs).Some?
    ensures var r := DecElems(e, n, bs).value;
            |r.values| == n && ElemsTyped(e, r.values) && bs == EncElems(e, r.values) + r.rest
    decreases e, 1, n
  {
    hide Enc, Dec, Typed, WellFormed;
    if n > 0 {
      Canonical(e, bs);
      var d := Dec(e, bs).value;
      ElemsCanonical(e, n - 1, d.rest);
      var r := DecElems(e, n - 1, d.rest).value;
      assert ([d.value] + r.values)[1..] == r.values;
      assert Enc(e, d.value) + (EncElems(e, r.values) + r.rest) == Enc(e, d.value) + EncElems(e, r.values) + r.rest;
    }
  }

  lemma {:induction false} FieldsCanonical(fs: seq<Field>, bs: Bytes)
    requires FieldsWellFormed(fs) && DecFields(fs, bs).Some?
    ensures var r := DecFields(fs, bs).value;
            r.fields.Keys == Names(fs) && FieldsTyped(fs, r.fields) && bs == EncFields(fs, r.fields) + r.rest
    decreases fs, 0
  {
    if fs != [] {
      var t := fs[0].typ;
      var d := if ZeroWidth(t) then Decoded(ZeroOf(t), bs) else Dec(t, bs).value;
      if ZeroWidth(t) {
        ZeroValue(t);
      } else {
        Canonical(t, bs);
      }
      FieldsCanonical(fs[1..], d.rest);
      var r := DecFields(fs[1..], d.rest).value;
      NamesCons(fs);
      FieldsTypedExtend(fs[1..], r.fields, fs[0].name, d.value);
      EncFieldsExtend(fs[1..], r.fields, fs[0].name, d.value);
      var head := if ZeroWidth(t) then [] else Enc(t, d.value);
      assert bs == head + (EncFields(fs[1..], r.fields) + r.rest);
    }
  }

  lemma {:induction false} EncFieldsExtend(fs: seq<Field>, m: map<string, Value>, name: string, v: Value)
    requires FieldsTyped(fs, m) && FieldsTyped(fs, m[name := v]) && name !in Names(fs)
    ensures EncFields(fs, m[name := v]) == EncFields(fs, m)
    decreases |fs|
  {
    if fs != [] {
      NamesCons(fs);
      EncFieldsExtend(fs[1..], m, name, v);
    }
  }

  /** Two encodings of a type that decode to one value are the same bytes. */
  lemma {:induction false} DecodingIsInjective(t: Type, a: Bytes, b: Bytes)
    requires WellFormed(t) && Dec(t, a).Some? && Dec(t, b) == Dec(t, a)
    ensures a == b
  {
    Canonical(t, a);
    Canonical(t, b);
  }

  /** The decoder's count-versus-remaining check never rejects the encoding of a list. */
  lemma {:induction false} CountCheckIsSafe(e: Type, v: Value, rest: Bytes)
    requires WellFormed(e) && !ZeroWidth(e) && Typed(TList(e), v)
    ensures |v.elems| <= |Enc(TList(e), v) + rest| - 8
  {
    ElemsWidth(e, v.elems);
  }
}
