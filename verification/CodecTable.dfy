/**
 * Compiled codec tables: what an instruction means, and what encoding and decoding one instruction produces and
 * charges. The recursive definitions here are the meaning that the stack machine is proved against.
 */
module CodecTable {
  import opened LittleEndian
  import opened Leaves
  import opened Codec

  datatype FieldRef = FieldRef(name: string, value: nat)

  datatype Instr =
    | IPrim(p: Prim)
    | IList(element: nat)
    | IRecord(fields: seq<FieldRef>)
    | INamed(target: nat)
    | IZero

  type Table = seq<Instr>

  const MAX_LIST: nat := 1_048_576

  function RefNames(fs: seq<FieldRef>): set<string> {
    set i | 0 <= i < |fs| :: fs[i].name
  }

  /** References below `bound`, distinct names. */
  predicate RefsOk(fs: seq<FieldRef>, bound: nat) {
    fs == [] || (fs[0].value < bound && fs[0].name !in RefNames(fs[1..]) && RefsOk(fs[1..], bound))
  }

  predicate InstrOk(x: Instr, bound: nat) {
    match x
    case IPrim(p) => IsPrim(p)
    case IList(e) => e < bound
    case IRecord(fs) => RefsOk(fs, bound)
    case INamed(target) => target < bound
    case IZero => true
  }

  /** Every instruction refers only to earlier instructions. */
  predicate Ordered(t: Table) {
    forall i :: 0 <= i < |t| ==> InstrOk(t[i], i)
  }

  // ---------------------------------------------------------------------------
  // Meaning

  function Resolve(t: Table, i: nat): Type
    requires Ordered(t) && i < |t|
    decreases i, 1, 0
  {
    match t[i]
    case IPrim(p) => TPrim(p)
    case IList(e) => TList(Resolve(t, e))
    case IRecord(fs) => TRecord(ResolveFields(t, fs, i))
    case INamed(target) => Resolve(t, target)
    case IZero => TRecord([])
  }

  function ResolveFields(t: Table, fs: seq<FieldRef>, i: nat): seq<Field>
    requires Ordered(t) && i <= |t| && RefsOk(fs, i)
    decreases i, 0, |fs|
  {
    if fs == [] then [] else [Field(fs[0].name, Resolve(t, fs[0].value))] + ResolveFields(t, fs[1..], i)
  }

  /** The zero-width flag of an instruction. */
  predicate ZeroAt(t: Table, i: nat)
    requires Ordered(t) && i < |t|
    decreases i, 1, 0
  {
    match t[i]
    case IPrim(_) => false
    case IList(_) => false
    case IRecord(fs) => ZeroFieldsAt(t, fs, i)
    case INamed(target) => ZeroAt(t, target)
    case IZero => true
  }

  predicate ZeroFieldsAt(t: Table, fs: seq<FieldRef>, i: nat)
    requires Ordered(t) && i <= |t| && RefsOk(fs, i)
    decreases i, 0, |fs|
  {
    fs == [] || (ZeroAt(t, fs[0].value) && ZeroFieldsAt(t, fs[1..], i))
  }

  /** The nodes that a zero-width instruction charges. */
  function CostAt(t: Table, i: nat): nat
    requires Ordered(t) && i < |t|
    decreases i, 1, 0
  {
    match t[i]
    case IRecord(fs) => 1 + CostFieldsAt(t, fs, i)
    case INamed(target) => CostAt(t, target)
    case _ => 0
  }

  function CostFieldsAt(t: Table, fs: seq<FieldRef>, i: nat): nat
    requires Ordered(t) && i <= |t| && RefsOk(fs, i)
    decreases i, 0, |fs|
  {
    if fs == [] then 0 else CostAt(t, fs[0].value) + CostFieldsAt(t, fs[1..], i)
  }

  lemma {:induction false} ResolveNames(t: Table, fs: seq<FieldRef>, i: nat)
    requires Ordered(t) && i <= |t| && RefsOk(fs, i)
    ensures Names(ResolveFields(t, fs, i)) == RefNames(fs)
    decreases |fs|
  {
    if fs != [] {
      ResolveNames(t, fs[1..], i);
      NamesCons(ResolveFields(t, fs, i));
      assert ResolveFields(t, fs, i)[1..] == ResolveFields(t, fs[1..], i);
      RefNamesCons(fs);
    }
  }

  lemma {:induction false} RefNamesCons(fs: seq<FieldRef>)
    requires fs != []
    ensures RefNames(fs) == {fs[0].name} + RefNames(fs[1..])
  {
    forall n | n in RefNames(fs)
      ensures n in {fs[0].name} + RefNames(fs[1..])
    {
      var i :| 0 <= i < |fs| && fs[i].name == n;
      if i > 0 {
        assert fs[1..][i - 1].name == n;
      }
    }
    forall n | n in RefNames(fs[1..])
      ensures n in RefNames(fs)
    {
      var i :| 0 <= i < |fs[1..]| && fs[1..][i].name == n;
      assert fs[i + 1].name == n;
    }
  }

  lemma {:induction false} ResolvedWellFormed(t: Table, i: nat)
    requires Ordered(t) && i < |t|
    ensures WellFormed(Resolve(t, i))
    decreases i, 1, 0
  {
    match t[i]
    case IPrim(_) =>
    case IList(e) => ResolvedWellFormed(t, e);
    case IRecord(fs) => ResolvedFieldsWellFormed(t, fs, i);
    case INamed(target) => ResolvedWellFormed(t, target);
    case IZero =>
  }

  lemma {:induction false} ResolvedFieldsWellFormed(t: Table, fs: seq<FieldRef>, i: nat)
    requires Ordered(t) && i <= |t| && RefsOk(fs, i)
    ensures FieldsWellFormed(ResolveFields(t, fs, i))
    decreases i, 0, |fs|
  {
    if fs != [] {
      ResolvedWellFormed(t, fs[0].value);
      ResolvedFieldsWellFormed(t, fs[1..], i);
      ResolveNames(t, fs[1..], i);
      assert ResolveFields(t, fs, i)[1..] == ResolveFields(t, fs[1..], i);
    }
  }

  /** The flag says exactly that the resolved type is zero-width. */
  lemma {:induction false} ZeroAtMeaning(t: Table, i: nat)
    requires Ordered(t) && i < |t|
    ensures ZeroAt(t, i) <==> ZeroWidth(Resolve(t, i))
    decreases i, 1, 0
  {
    match t[i]
    case IRecord(fs) => ZeroFieldsMeaning(t, fs, i);
    case INamed(target) => ZeroAtMeaning(t, target);
    case _ =>
  }

  lemma {:induction false} ZeroFieldsMeaning(t: Table, fs: seq<FieldRef>, i: nat)
    requires Ordered(t) && i <= |t| && RefsOk(fs, i)
    ensures ZeroFieldsAt(t, fs, i) <==> AllZeroWidth(ResolveFields(t, fs, i))
    decreases i, 0, |fs|
  {
    if fs != [] {
      ZeroAtMeaning(t, fs[0].value);
      ZeroFieldsMeaning(t, fs[1..], i);
      assert ResolveFields(t, fs, i)[1..] == ResolveFields(t, fs[1..], i);
    }
  }

  // ---------------------------------------------------------------------------
  // What a value charges

  function Cost(t: Table, i: nat, v: Value): nat
    requires Ordered(t) && i < |t|
    decreases i, 1, 0
  {
    match t[i]
    case IPrim(_) => 0
    case IZero => 0
    case INamed(target) => Cost(t, target, v)
    case IList(e) =>
      if !v.VList? then 0
      else 1 + |v.elems| + (if ZeroAt(t, e) then |v.elems| * CostAt(t, e) else CostElems(t, e, v.elems))
    case IRecord(fs) => if !v.VRecord? then 0 else 1 + CostFields(t, fs, i, v.fields)
  }

  function CostElems(t: Table, e: nat, vs: seq<Value>): nat
    requires Ordered(t) && e < |t|
    decreases e, 2, |vs|
  {
    if vs == [] then 0 else Cost(t, e, vs[0]) + CostElems(t, e, vs[1..])
  }

  function CostFields(t: Table, fs: seq<FieldRef>, i: nat, m: map<string, Value>): nat
    requires Ordered(t) && i <= |t| && RefsOk(fs, i)
    decreases i, 0, |fs|
  {
    if fs == [] then 0
    else (if fs[0].name in m then Cost(t, fs[0].value, m[fs[0].name]) else 0) + CostFields(t, fs[1..], i, m)
  }

  /** The precomputed charge of a zero-width instruction is what visiting its one value would charge. */
  lemma {:induction false} ZeroCost(t: Table, i: nat)
    requires Ordered(t) && i < |t| && ZeroAt(t, i)
    ensures Cost(t, i, ZeroOf(Resolve(t, i))) == CostAt(t, i)
    decreases i, 1, 0
  {
    match t[i]
    case IRecord(fs) =>
      ZeroFieldsHave(t, fs, i);
      ZeroFieldsCost(t, fs, i, ZeroFields(ResolveFields(t, fs, i)));
    case INamed(target) => ZeroCost(t, target);
    case IZero =>
  }

  lemma {:induction false} ZeroFieldsCost(t: Table, fs: seq<FieldRef>, i: nat, m: map<string, Value>)
    requires Ordered(t) && i <= |t| && RefsOk(fs, i) && ZeroFieldsAt(t, fs, i)
    requires var z := ZeroFields(ResolveFields(t, fs, i)); forall n :: n in RefNames(fs) ==>
             n in m && n in z && m[n] == z[n]
    ensures CostFields(t, fs, i, m) == CostFieldsAt(t, fs, i)
    decreases i, 0, |fs|
  {
    if fs != [] {
      var all := ResolveFields(t, fs, i);
      assert all[1..] == ResolveFields(t, fs[1..], i);
      RefNamesCons(fs);
      ZeroCost(t, fs[0].value);
      ZeroFieldsHave(t, fs[1..], i);
      ZeroFieldsCost(t, fs[1..], i, m);
    }
  }

  lemma {:induction false} ZeroFieldsHave(t: Table, fs: seq<FieldRef>, i: nat)
    requires Ordered(t) && i <= |t| && RefsOk(fs, i)
    ensures ZeroFields(ResolveFields(t, fs, i)).Keys == RefNames(fs)
    decreases |fs|
  {
    if fs != [] {
      ZeroFieldsHave(t, fs[1..], i);
      assert ResolveFields(t, fs, i)[1..] == ResolveFields(t, fs[1..], i);
      RefNamesCons(fs);
    }
  }

  // ---------------------------------------------------------------------------
  // Encoding one instruction

  datatype Emit = Emit(bytes: Bytes, cost: nat)

  function Then(a: Option<Emit>, b: Option<Emit>): Option<Emit> {
    if a.None? || b.None? then None else Some(Emit(a.value.bytes + b.value.bytes, a.value.cost + b.value.cost))
  }

  /** `assertClosedRecord`: an object with exactly the named members. */
  predicate ClosedRecord(v: Value, names: set<string>) {
    v.VRecord? && v.fields.Keys == names
  }

  /** What the table encoder emits and charges. The elements of a zero-width list are counted, not visited. */
  function EncI(t: Table, i: nat, v: Value): Option<Emit>
    requires Ordered(t) && i < |t|
    decreases i, 1, 0
  {
    match t[i]
    case IPrim(p) => if EncodeLeaf(p, v).None? then None else Some(Emit(EncodeLeaf(p, v).value, 0))
    case IZero => if ClosedRecord(v, {}) then Some(Emit([], 0)) else None
    case INamed(target) => EncI(t, target, v)
    case IList(e) =>
      if !v.VList? || |v.elems| > MAX_LIST then None
      else if ZeroAt(t, e) then Some(Emit(Put(|v.elems|, 8), 1 + |v.elems| + |v.elems| * CostAt(t, e)))
      else Then(Some(Emit(Put(|v.elems|, 8), 1 + |v.elems|)), EncIElems(t, e, v.elems))
    case IRecord(fs) =>
      if !ClosedRecord(v, RefNames(fs)) then None else Then(Some(Emit([], 1)), EncIFields(t, fs, i, v.fields))
  }

  function EncIElems(t: Table, e: nat, vs: seq<Value>): Option<Emit>
    requires Ordered(t) && e < |t|
    decreases e, 2, |vs|
  {
    if vs == [] then Some(Emit([], 0)) else Then(EncI(t, e, vs[0]), EncIElems(t, e, vs[1..]))
  }

  function EncIFields(t: Table, fs: seq<FieldRef>, i: nat, m: map<string, Value>): Option<Emit>
    requires Ordered(t) && i <= |t| && RefsOk(fs, i)
    decreases i, 0, |fs|
  {
    if fs == [] then Some(Emit([], 0))
    else if fs[0].name !in m then None
    else Then(EncI(t, fs[0].value, m[fs[0].name]), EncIFields(t, fs[1..], i, m))
  }

  /** The lists of a value respect the element limit of the TypeScript runtime. */
  predicate Fits(t: Type, v: Value)
    decreases t, 0
  {
    match t
    case TPrim(_) => true
    case TList(e) => v.VList? && |v.elems| <= MAX_LIST && (ZeroWidth(e) || ElemsFit(e, v.elems))
    case TRecord(fs) => v.VRecord? && FieldsFit(fs, v.fields)
  }

  predicate ElemsFit(e: Type, vs: seq<Value>)
    decreases e, 1, |vs|
  {
    vs == [] || (Fits(e, vs[0]) && ElemsFit(e, vs[1..]))
  }

  predicate FieldsFit(fs: seq<Field>, m: map<string, Value>)
    decreases fs, 0
  {
    fs == [] || (fs[0].name in m && Fits(fs[0].typ, m[fs[0].name]) && FieldsFit(fs[1..], m))
  }

  lemma {:induction false} ZeroFits(t: Type, v: Value)
    requires WellFormed(t) && ZeroWidth(t) && Typed(t, v)
    ensures Fits(t, v)
    decreases t, 0
  {
    ZeroFieldsFit(t.fields, v.fields);
  }

  lemma {:induction false} ZeroFieldsFit(fs: seq<Field>, m: map<string, Value>)
    requires FieldsWellFormed(fs) && AllZeroWidth(fs) && FieldsTyped(fs, m)
    ensures FieldsFit(fs, m)
    decreases fs, 0
  {
    if fs != [] {
      ZeroFits(fs[0].typ, m[fs[0].name]);
      ZeroFieldsFit(fs[1..], m);
    }
  }

  /** On every value of the type whose lists fit, the table emits the reference encoding. */
  lemma {:induction false} EncAgrees(t: Table, i: nat, v: Value)
    requires Ordered(t) && i < |t| && Typed(Resolve(t, i), v) && Fits(Resolve(t, i), v)
    ensures EncI(t, i, v) == Some(Emit(Enc(Resolve(t, i), v), Cost(t, i, v)))
    decreases i, 1, 0
  {
    hide Put, RefNames, EncIElems, EncIFields, EncElems, CostElems;
    match t[i]
    case IPrim(p) => LeafRoundTrip(p, v, []);
    case IZero =>
    case INamed(target) => EncAgrees(t, target, v);
    case IList(e) =>
      ZeroAtMeaning(t, e);
      if !ZeroAt(t, e) {
        ElemsAgree(t, e, v.elems);
      } else {
        assert Put(|v.elems|, 8) + [] == Put(|v.elems|, 8);
      }
    case IRecord(fs) =>
      ResolveNames(t, fs, i);
      FieldsAgree(t, fs, i, v.fields);
      assert [] + EncFields(ResolveFields(t, fs, i), v.fields) == EncFields(ResolveFields(t, fs, i), v.fields);
  }

  lemma {:induction false} ElemsAgree(t: Table, e: nat, vs: seq<Value>)
    requires Ordered(t) && e < |t| && ElemsTyped(Resolve(t, e), vs) && ElemsFit(Resolve(t, e), vs)
    ensures EncIElems(t, e, vs) == Some(Emit(EncElems(Resolve(t, e), vs), CostElems(t, e, vs)))
    decreases e, 2, |vs|
  {
    if vs != [] {
      EncAgrees(t, e, vs[0]);
      ElemsAgree(t, e, vs[1..]);
    }
  }

  lemma {:induction false} FieldsAgree(t: Table, fs: seq<FieldRef>, i: nat, m: map<string, Value>)
    requires Ordered(t) && i <= |t| && RefsOk(fs, i)
    requires FieldsTyped(ResolveFields(t, fs, i), m) && FieldsFit(ResolveFields(t, fs, i), m)
    ensures EncIFields(t, fs, i, m) == Some(Emit(EncFields(ResolveFields(t, fs, i), m), CostFields(t, fs, i, m)))
    decreases i, 0, |fs|
  {
    hide EncI, Enc, Cost, Typed, Fits, Resolve, ZeroWidth;
    if fs != [] {
      var all := ResolveFields(t, fs, i);
      assert all[1..] == ResolveFields(t, fs[1..], i);
      EncAgrees(t, fs[0].value, m[fs[0].name]);
      FieldsAgree(t, fs[1..], i, m);
      if ZeroWidth(all[0].typ) {
        ResolvedWellFormed(t, fs[0].value);
        WidthOfValue(all[0].typ, m[fs[0].name]);
      }
    }
  }

  // ---------------------------------------------------------------------------
  // Decoding one instruction

  datatype Took = Took(value: Value, rest: Bytes, cost: nat)
  datatype TookElems = TookElems(values: seq<Value>, rest: Bytes, cost: nat)
  datatype TookFields = TookFields(fields: map<string, Value>, rest: Bytes, cost: nat)

  /** What the table decoder takes and charges; a zero-width instruction takes its prebuilt value. */
  function DecI(t: Table, i: nat, bs: Bytes): Option<Took>
    requires Ordered(t) && i < |t|
    decreases i, 1, 0
  {
    if ZeroAt(t, i) then Some(Took(ZeroOf(Resolve(t, i)), bs, CostAt(t, i)))
    else match t[i]
      case IPrim(p) =>
        var d := DecodeLeaf(p, bs);
        if d.None? then None else Some(Took(d.value.value, d.value.rest, 0))
      case IZero => None
      case INamed(target) => DecI(t, target, bs)
      case IList(e) =>
        var n := DecodeNumber(8, bs);
        if n.None? || n.value > MAX_LIST then None
        else if ZeroAt(t, e) then
          Some(Took(VList(Zeros(Resolve(t, e), n.value)), bs[8..], 1 + n.value + n.value * CostAt(t, e)))
        else
          var r := DecIElems(t, e, n.value, bs[8..]);
          if r.None? then None else Some(Took(VList(r.value.values), r.value.rest, 1 + n.value + r.value.cost))
      case IRecord(fs) =>
        var r := DecIFields(t, fs, i, bs);
        if r.None? then None else Some(Took(VRecord(r.value.fields), r.value.rest, 1 + r.value.cost))
  }

  function DecIElems(t: Table, e: nat, n: nat, bs: Bytes): Option<TookElems>
    requires Ordered(t) && e < |t|
    decreases e, 2, n
  {
    if n == 0 then Some(TookElems([], bs, 0))
    else
      var d := DecI(t, e, bs);
      if d.None? then None
      else
        var r := DecIElems(t, e, n - 1, d.value.rest);
        if r.None? then None
        else Some(TookElems([d.value.value] + r.value.values, r.value.rest, d.value.cost + r.value.cost))
  }

  function DecIFields(t: Table, fs: seq<FieldRef>, i: nat, bs: Bytes): Option<TookFields>
    requires Ordered(t) && i <= |t| && RefsOk(fs, i)
    decreases i, 0, |fs|
  {
    if fs == [] then Some(TookFields(map[], bs, 0))
    else
      var d := DecI(t, fs[0].value, bs);
      if d.None? then None
      else
        var r := DecIFields(t, fs[1..], i, d.value.rest);
        if r.None? then None
        else Some(TookFields(r.value.fields[fs[0].name := d.value.value], r.value.rest, d.value.cost + r.value.cost))
  }

  /** The table decoder in terms of the reference: same value and rest, provided the lists fit. */
  function Limited(t: Table, i: nat, d: Option<Decoded>): Option<Took>
    requires Ordered(t) && i < |t|
  {
    if d.Some? && Fits(Resolve(t, i), d.value.value)
    then Some(Took(d.value.value, d.value.rest, Cost(t, i, d.value.value))) else None
  }

  lemma {:induction false} ZeroDecodes(t: Type, bs: Bytes)
    requires ZeroWidth(t)
    ensures Dec(t, bs) == Some(Decoded(ZeroOf(t), bs))
  {
    ZeroFieldsDecode(t.fields, bs);
  }

  lemma {:induction false} ZeroFieldsDecode(fs: seq<Field>, bs: Bytes)
    requires AllZeroWidth(fs)
    ensures DecFields(fs, bs) == Some(Members(ZeroFields(fs), bs))
    decreases |fs|
  {
    if fs != [] {
      ZeroFieldsDecode(fs[1..], bs);
    }
  }

  /** Elements of a type with width consume at least one byte each. */
  lemma {:induction false} ElemsConsume(e: Type, n: nat, bs: Bytes)
    requires WellFormed(e) && !ZeroWidth(e) && DecElems(e, n, bs).Some?
    ensures n <= |bs|
  {
    ElemsCanonical(e, n, bs);
    ElemsWidth(e, DecElems(e, n, bs).value.values);
  }

  /** The table decoder accepts exactly what the reference decoder accepts, within the list limit. */
  lemma {:induction false} DecAgrees(t: Table, i: nat, bs: Bytes)
    requires Ordered(t) && i < |t|
    ensures DecI(t, i, bs) == Limited(t, i, Dec(Resolve(t, i), bs))
    decreases i, 1, 0
  {
    ZeroAtMeaning(t, i);
    ResolvedWellFormed(t, i);
    if ZeroAt(t, i) {
      ZeroDecodes(Resolve(t, i), bs);
      ZeroValue(Resolve(t, i));
      ZeroFits(Resolve(t, i), ZeroOf(Resolve(t, i)));
      ZeroCost(t, i);
    } else {
      match t[i]
      case IPrim(_) =>
      case INamed(target) => DecAgrees(t, target, bs);
      case IList(e) => ListDecAgrees(t, i, bs);
      case IRecord(fs) => RecordDecAgrees(t, i, bs);
    }
  }

  lemma {:induction false} ListDecAgrees(t: Table, i: nat, bs: Bytes)
    requires Ordered(t) && i < |t| && t[i].IList?
    ensures DecI(t, i, bs) == Limited(t, i, Dec(Resolve(t, i), bs))
    decreases i, 0, 0
  {
    hide WellFormed, CostElems, DecElems, DecIElems, Get;
    var e := t[i].element;
    var n := DecodeNumber(8, bs);
    ZeroAtMeaning(t, e);
    ResolvedWellFormed(t, e);
    if n.Some? && !ZeroAt(t, e) {
      ElemsDecAgree(t, e, n.value, bs[8..]);
      var r := DecElems(Resolve(t, e), n.value, bs[8..]);
      if r.Some? {
        ElemsConsume(Resolve(t, e), n.value, bs[8..]);
        ElemsCanonical(Resolve(t, e), n.value, bs[8..]);
      }
    }
  }

  lemma {:induction false} ElemsDecAgree(t: Table, e: nat, n: nat, bs: Bytes)
    requires Ordered(t) && e < |t|
    ensures var r := DecElems(Resolve(t, e), n, bs);
            DecIElems(t, e, n, bs) ==
            if r.Some? && ElemsFit(Resolve(t, e), r.value.values)
            then Some(TookElems(r.value.values, r.value.rest, CostElems(t, e, r.value.values))) else None
    decreases e, 2, n
  {
    hide DecI, Dec, Resolve, Fits, Cost;
    if n > 0 {
      DecAgrees(t, e, bs);
      var d := Dec(Resolve(t, e), bs);
      if d.Some? {
        ElemsDecAgree(t, e, n - 1, d.value.rest);
        var r := DecElems(Resolve(t, e), n - 1, d.value.rest);
        if r.Some? {
          assert ([d.value.value] + r.value.values)[1..] == r.value.values;
        }
      }
    }
  }

  lemma {:induction false} RecordDecAgrees(t: Table, i: nat, bs: Bytes)
    requires Ordered(t) && i < |t| && t[i].IRecord? && !ZeroAt(t, i)
    ensures DecI(t, i, bs) == Limited(t, i, Dec(Resolve(t, i), bs))
    decreases i, 0, |t[i].fields| + 1
  {
    FieldsDecAgree(t, t[i].fields, i, bs);
  }

  lemma {:induction false} FieldsDecAgree(t: Table, fs: seq<FieldRef>, i: nat, bs: Bytes)
    requires Ordered(t) && i <= |t| && RefsOk(fs, i)
    ensures var r := DecFields(ResolveFields(t, fs, i), bs);
            DecIFields(t, fs, i, bs) ==
            if r.Some? && FieldsFit(ResolveFields(t, fs, i), r.value.fields)
            then Some(TookFields(r.value.fields, r.value.rest, CostFields(t, fs, i, r.value.fields))) else None
    decreases i, 0, |fs|
  {
    hide Dec, DecI, Cost, Fits, ZeroOf, Ordered, ZeroWidth;
    if fs != [] {
      var all := ResolveFields(t, fs, i);
      assert all[1..] == ResolveFields(t, fs[1..], i);
      FieldStepAgrees(t, fs, i, bs);
      var d := if ZeroWidth(all[0].typ) then Some(Decoded(ZeroOf(all[0].typ), bs)) else Dec(all[0].typ, bs);
      if d.Some? {
        FieldsDecAgree(t, fs[1..], i, d.value.rest);
        var r := DecFields(all[1..], d.value.rest);
        if r.Some? {
          ResolveNames(t, fs[1..], i);
          FieldsFitExtend(all[1..], r.value.fields, fs[0].name, d.value.value);
          CostFieldsExtend(t, fs[1..], i, r.value.fields, fs[0].name, d.value.value);
        }
      }
    }
  }

  lemma {:induction false} FieldStepAgrees(t: Table, fs: seq<FieldRef>, i: nat, bs: Bytes)
    requires Ordered(t) && i <= |t| && RefsOk(fs, i) && fs != []
    ensures var typ := Resolve(t, fs[0].value);
            var d := if ZeroWidth(typ) then Some(Decoded(ZeroOf(typ), bs)) else Dec(typ, bs);
            DecI(t, fs[0].value, bs) == Limited(t, fs[0].value, d)
    decreases i, 0, 0
  {
    DecAgrees(t, fs[0].value, bs);
    var typ := Resolve(t, fs[0].value);
    if ZeroWidth(typ) {
      ZeroDecodes(typ, bs);
    }
  }

  lemma {:induction false} FieldsFitExtend(fs: seq<Field>, m: map<string, Value>, name: string, v: Value)
    requires name !in Names(fs)
    ensures FieldsFit(fs, m[name := v]) == FieldsFit(fs, m)
    decreases |fs|
  {
    if fs != [] {
      NamesCons(fs);
      FieldsFitExtend(fs[1..], m, name, v);
    }
  }

  lemma {:induction false} CostFieldsExtend(t: Table, fs: seq<FieldRef>, i: nat, m: map<string, Value>, name: string,
      v: Value)
    requires Ordered(t) && i <= |t| && RefsOk(fs, i) && name !in RefNames(fs)
    ensures CostFields(t, fs, i, m[name := v]) == CostFields(t, fs, i, m)
    decreases |fs|
  {
    if fs != [] {
      RefNamesCons(fs);
      CostFieldsExtend(t, fs[1..], i, m, name, v);
    }
  }

  // ---------------------------------------------------------------------------
  // Both directions charge the same

  /**
   * For every value of the type whose lists fit: the table encodes it, and decoding those bytes before any suffix
   * returns the value and the suffix and charges exactly what encoding charged.
   */
  lemma {:induction false} TableRoundTrip(t: Table, i: nat, v: Value, rest: Bytes)
    requires Ordered(t) && i < |t| && Typed(Resolve(t, i), v) && Fits(Resolve(t, i), v)
    ensures EncI(t, i, v).Some?
    ensures var e := EncI(t, i, v).value; DecI(t, i, e.bytes + rest) == Some(Took(v, rest, e.cost))
  {
    ResolvedWellFormed(t, i);
    EncAgrees(t, i, v);
    RoundTrip(Resolve(t, i), v, rest);
    DecAgrees(t, i, Enc(Resolve(t, i), v) + rest);
  }

  /** Every byte string the table accepts is what encoding the decoded value emits, at the same charge. */
  lemma {:induction false} TableCanonical(t: Table, i: nat, bs: Bytes)
    requires Ordered(t) && i < |t| && DecI(t, i, bs).Some?
    ensures var d := DecI(t, i, bs).value;
            && Typed(Resolve(t, i), d.value) && Fits(Resolve(t, i), d.value)
            && EncI(t, i, d.value).Some? && EncI(t, i, d.value).value.cost == d.cost
            && bs == EncI(t, i, d.value).value.bytes + d.rest
  {
    ResolvedWellFormed(t, i);
    DecAgrees(t, i, bs);
    Canonical(Resolve(t, i), bs);
    EncAgrees(t, i, DecI(t, i, bs).value.value);
  }

  // ---------------------------------------------------------------------------
  // Exactly which values the table encodes

  /** The value that the bytes will denote: every NaN canonical, every element of a zero-width list its zero value. */
  function Norm(t: Table, i: nat, v: Value): Value
    requires Ordered(t) && i < |t|
    decreases i, 1, 0
  {
    match t[i]
    case IPrim(p) =>
      if p.Float? && v.VFloat? && v.bits < Capacity(p.width)
          && IsNaN(p.width, v.bits) then VFloat(CanonicalNaN(p.width)) else v
    case IZero => v
    case INamed(target) => Norm(t, target, v)
    case IList(e) =>
      if !v.VList? then v
      else VList(if ZeroAt(t, e) then Zeros(Resolve(t, e), |v.elems|) else NormElems(t, e, v.elems))
    case IRecord(fs) => if !v.VRecord? then v else VRecord(NormFields(t, fs, i, v.fields))
  }

  function NormElems(t: Table, e: nat, vs: seq<Value>): (r: seq<Value>)
    requires Ordered(t) && e < |t|
    ensures |r| == |vs|
    decreases e, 2, |vs|
  {
    if vs == [] then [] else [Norm(t, e, vs[0])] + NormElems(t, e, vs[1..])
  }

  function NormFields(t: Table, fs: seq<FieldRef>, i: nat, m: map<string, Value>): (r: map<string, Value>)
    requires Ordered(t) && i <= |t| && RefsOk(fs, i)
    ensures r.Keys == m.Keys
    decreases i, 0, |fs|
  {
    if fs == [] then m
    else
      var r := NormFields(t, fs[1..], i, m);
      if fs[0].name in m then r[fs[0].name := Norm(t, fs[0].value, m[fs[0].name])] else r
  }

  lemma {:induction false} LeafNorm(p: Prim, v: Value)
    requires IsPrim(p)
    ensures var n := if p.Float? && v.VFloat? && v.bits < Capacity(p.width) && IsNaN(p.width, v.bits)
                     then VFloat(CanonicalNaN(p.width)) else v;
            EncodeLeaf(p, v) == EncodeLeaf(p, n) && (EncodeLeaf(p, v).Some? <==> LeafTyped(p, n))
  {
    Capacity8();
    hide Put, ValidUtf8;
  }

  /**
   * The table encodes a value exactly when its normal form is a value of the type whose lists fit, and then emits
   * the reference encoding of that normal form.
   */
  lemma {:induction false} EncodesExactly(t: Table, i: nat, v: Value)
    requires Ordered(t) && i < |t|
    ensures var n := Norm(t, i, v); var typ := Resolve(t, i);
            && (EncI(t, i, v).Some? <==> Typed(typ, n) && Fits(typ, n))
            && EncI(t, i, v) == EncI(t, i, n)
    decreases i, 1, 0
  {
    match t[i]
    case IPrim(p) => LeafNorm(p, v);
    case IZero =>
    case INamed(target) => EncodesExactly(t, target, v);
    case IList(e) => ListEncodesExactly(t, i, v);
    case IRecord(fs) =>
      if v.VRecord? {
        ResolveNames(t, fs, i);
        FieldsEncodeExactly(t, fs, i, v.fields);
      }
  }

  lemma {:induction false} ListEncodesExactly(t: Table, i: nat, v: Value)
    requires Ordered(t) && i < |t| && t[i].IList?
    ensures var n := Norm(t, i, v); var typ := Resolve(t, i);
            && (EncI(t, i, v).Some? <==> Typed(typ, n) && Fits(typ, n))
            && EncI(t, i, v) == EncI(t, i, n)
    decreases i, 0, 0
  {
    hide Put;
    var e := t[i].element;
    ZeroAtMeaning(t, e);
    if v.VList? {
      if ZeroAt(t, e) {
        ResolvedWellFormed(t, e);
        ZerosTyped(Resolve(t, e), |v.elems|);
      } else {
        ElemsEncodeExactly(t, e, v.elems);
      }
    }
  }

  lemma {:induction false} ElemsEncodeExactly(t: Table, e: nat, vs: seq<Value>)
    requires Ordered(t) && e < |t|
    ensures var ns := NormElems(t, e, vs); var typ := Resolve(t, e);
            && (EncIElems(t, e, vs).Some? <==> ElemsTyped(typ, ns) && ElemsFit(typ, ns))
            && EncIElems(t, e, vs) == EncIElems(t, e, ns)
    decreases e, 2, |vs|
  {
    if vs != [] {
      EncodesExactly(t, e, vs[0]);
      ElemsEncodeExactly(t, e, vs[1..]);
      var ns := NormElems(t, e, vs);
      assert ns[1..] == NormElems(t, e, vs[1..]);
    }
  }

  lemma {:induction false} FieldsEncodeExactly(t: Table, fs: seq<FieldRef>, i: nat, m: map<string, Value>)
    requires Ordered(t) && i <= |t| && RefsOk(fs, i)
    ensures var n := NormFields(t, fs, i, m); var all := ResolveFields(t, fs, i);
            && (EncIFields(t, fs, i, m).Some? <==> FieldsTyped(all, n) && FieldsFit(all, n))
            && EncIFields(t, fs, i, m) == EncIFields(t, fs, i, n)
    decreases i, 0, |fs|
  {
    if fs != [] && fs[0].name in m {
      var all := ResolveFields(t, fs, i);
      assert all[1..] == ResolveFields(t, fs[1..], i);
      EncodesExactly(t, fs[0].value, m[fs[0].name]);
      FieldsEncodeExactly(t, fs[1..], i, m);
      var tail := NormFields(t, fs[1..], i, m);
      var x := Norm(t, fs[0].value, m[fs[0].name]);
      ResolveNames(t, fs[1..], i);
      TypedIgnores(all[1..], tail, fs[0].name, x);
      FieldsFitExtend(all[1..], tail, fs[0].name, x);
      EncIFieldsIgnore(t, fs[1..], i, tail, fs[0].name, x);
    }
  }

  lemma {:induction false} TypedIgnores(fs: seq<Field>, m: map<string, Value>, name: string, v: Value)
    requires name !in Names(fs)
    ensures FieldsTyped(fs, m[name := v]) == FieldsTyped(fs, m)
    decreases |fs|
  {
    if fs != [] {
      NamesCons(fs);
      TypedIgnores(fs[1..], m, name, v);
    }
  }

  lemma {:induction false} EncIFieldsIgnore(t: Table, fs: seq<FieldRef>, i: nat, m: map<string, Value>, name: string,
      v: Value)
    requires Ordered(t) && i <= |t| && RefsOk(fs, i) && name !in RefNames(fs)
    ensures EncIFields(t, fs, i, m[name := v]) == EncIFields(t, fs, i, m)
    decreases |fs|
  {
    if fs != [] {
      RefNamesCons(fs);
      EncIFieldsIgnore(t, fs[1..], i, m, name, v);
    }
  }

  /** The encoder does not look at the elements of a zero-width list: a list of numbers passes as `list record {}`. */
  lemma {:induction false} UncheckedElements()
    ensures var t := [IRecord([]), IList(0)]; var v := VList([VInt(7)]);
            Ordered(t) && EncI(t, 1, v).Some? && !Typed(Resolve(t, 1), v)
  {
    var t := [IRecord([]), IList(0)];
    assert Ordered(t);
    assert ZeroAt(t, 0);
    assert Resolve(t, 0) == TRecord([]);
    assert !Typed(TRecord([]), VInt(7));
    assert [VInt(7)][0] == VInt(7);
  }
}
