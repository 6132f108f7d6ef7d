/**
 * Codec programs: a table with its precomputed zero-width facts, and the theorems that join the compiler, the machine
 * and the reference codec.
 */
module CodecPrograms {
  import opened LittleEndian
  import opened Leaves
  import opened Codec
  import opened CodecTable
  import opened CodecBuffers
  import opened CodecVm
  import opened CodecDecodeVm
  import opened CodecCompiler
  import opened CodecFacts

  /** The precomputed facts of a program: what each flag, cost and value follows from. */
  predicate FactsRight(p: Program) {
    Flagged(p.table, p.zeroWidths) && Costed(p.table, p.zeroWidths, p.costs)
        && Valued(p.table, p.zeroWidths, p.zeroValues)
  }

  /** On a table that refers only to earlier instructions the facts are those of the types it denotes. */
  lemma {:induction false} FactsWellBuilt(p: Program)
    requires Ordered(p.table) && p.root < |p.table| && FactsRight(p)
    ensures WellBuilt(p)
  {
    hide ZeroAt, ZeroOf, CostAt, Resolve, Ordered, FlagRule, CostRule, ValueRule;
    forall i | 0 <= i < |p.table|
      ensures p.zeroWidths[i] == ZeroAt(p.table, i)
      ensures p.zeroWidths[i] ==> p.zeroValues[i] == ZeroOf(Resolve(p.table, i)) && p.costs[i] == CostAt(p.table, i)
    {
      OrderedFlag(p.table, p.zeroWidths, i);
      if p.zeroWidths[i] {
        OrderedCost(p.table, p.zeroWidths, p.costs, i);
        OrderedValue(p.table, p.zeroWidths, p.zeroValues, i);
      }
    }
  }

  /** The rules determine the facts: a table that is accepted has only these. */
  lemma {:induction false} FactsAreUnique(p: Program, q: Program)
    requires p.table == q.table && p.root == q.root && Acyclic(p.table) && FactsRight(p) && FactsRight(q)
    ensures p == q
  {
    var t := p.table;
    var rank :| Ranks(Needs(t), rank) && forall i: nat :: i < |t| ==> i in rank;
    hide Ranks, FlagRule, CostRule, ValueRule;
    forall i | 0 <= i < |t|
      ensures p.zeroWidths[i] == q.zeroWidths[i]
    {
      OneFlagging(t, rank, p.zeroWidths, q.zeroWidths, i);
    }
    assert p.zeroWidths == q.zeroWidths;
    forall i | 0 <= i < |t|
      ensures p.costs[i] == q.costs[i] && p.zeroValues[i] == q.zeroValues[i]
    {
      OneCosting(t, rank, p.zeroWidths, p.costs, q.costs, i);
      OneValuing(t, rank, p.zeroWidths, p.zeroValues, q.zeroValues, i);
    }
    assert p.costs == q.costs && p.zeroValues == q.zeroValues;
  }

  /** The checks of `makeCodecProgram` on the references of one instruction. */
  method ValidateTargets(x: Instr, bound: nat) returns (ok: bool)
    ensures ok <==> Targets(x, bound)
  {
    match x
    case IList(e) => ok := e < bound;
    case INamed(target) => ok := target < bound;
    case IRecord(fs) =>
      var k := 0;
      while k < |fs|
        invariant 0 <= k <= |fs| && forall j :: 0 <= j < k ==> fs[j].value < bound
      {
        if fs[k].value >= bound {
          return false;
        }
        k := k + 1;
      }
      ok := true;
    case _ => ok := true;
  }

  /** No zero-width record of the table defines one property with two objects, whichever instructions are zero-width. */
  ghost predicate Sound(t: Table) {
    forall flags :: Flagged(t, flags) ==> Consistent(t, flags)
  }

  lemma {:induction false} ConsistentIsSound(t: Table, flags: seq<bool>)
    requires Acyclic(t) && Flagged(t, flags) && Consistent(t, flags)
    ensures Sound(t)
  {
    var rank :| Ranks(Needs(t), rank) && forall i: nat :: i < |t| ==> i in rank;
    hide Ranks, FlagRule, Consistent;
    forall other | Flagged(t, other)
      ensures Consistent(t, other)
    {
      forall i | 0 <= i < |t|
        ensures flags[i] == other[i]
      {
        OneFlagging(t, rank, flags, other, i);
      }
      assert flags == other;
    }
  }

  /**
   * `makeCodecProgram`: refuses exactly a root or a reference outside the table, records or names that contain each
   * other in a circle, and a zero-width record that defines one property with two objects. Otherwise all precomputed
   * facts are right.
   */
  method MakeProgram(t: Table, root: nat) returns (r: Option<Program>)
    ensures r.Some? <==> root < |t| && TargetsOk(t) && Acyclic(t) && Sound(t)
    ensures r.Some? ==> r.value.table == t && r.value.root == root && FactsRight(r.value)
    ensures r.Some? && Ordered(t) ==> WellBuilt(r.value)
  {
    hide ZeroAt, ZeroOf, CostAt, Resolve, Ordered, Acyclic, Consistent, Targets, Flagged, Costed, Valued, WellBuilt;
    if root >= |t| {
      return None;
    }
    var i := 0;
    while i < |t|
      invariant 0 <= i <= |t| && forall j :: 0 <= j < i ==> Targets(t[j], |t|)
    {
      var ok := ValidateTargets(t[i], |t|);
      if !ok {
        return None;
      }
      i := i + 1;
    }
    var flags := ZeroWidths(t);
    if flags.None? {
      return None;
    }
    var costs := NodeCosts(t, flags.value);
    var values := ZeroValues(t, flags.value);
    if values.None? {
      return None;
    }
    ConsistentIsSound(t, flags.value);
    r := Some(Program(t, root, flags.value, values.value, costs));
    if Ordered(t) {
      FactsWellBuilt(r.value);
    }
  }

  // ---------------------------------------------------------------------------
  // From occurrence to bytes

  /** The type a root stands for; no root at all stands for the empty record. */
  ghost function RootMeaning(g: Graph, rank: map<nat, nat>, root: Option<nat>): Type
    requires Ranks(g, rank) && (root.Some? ==> root.value in rank)
  {
    if root.Some? then Meaning(g, rank, root.value) else TRecord([])
  }

  /** Compiling and building: every root that resolves gives a program for the type it stands for, and no other does. */
  method CompileProgram(g: Graph, root: Option<nat>) returns (r: Option<Program>)
    requires Shaped(g) && (root.Some? ==> root.value < |g.nodes|)
    ensures r.Some? <==> (root.None? || Resolves(g, root.value))
    ensures r.Some? ==> WellBuilt(r.value)
    ensures r.Some? ==> forall rank :: Ranks(g, rank) && (root.Some? ==> root.value in rank) ==>
              Resolve(r.value.table, r.value.root) == RootMeaning(g, rank, root)
  {
    hide Resolve, Ranks, Meaning, Shaped, WellBuilt, Ordered, Acyclic, TargetsOk, Consistent, FactsRight;
    var c := Compile(g, root);
    if c.None? {
      return None;
    }
    OrderedIsSound(c.value.0);
    r := MakeProgram(c.value.0, c.value.1);
  }

  /**
   * Encoding and decoding charge the same: whatever the encoder accepts, the decoder accepts under a node budget
   * exactly when the encoder did, stops at the end of it, and returns the value the bytes stand for, which is the
   * encoded value itself if that was a value of the type.
   */
  lemma {:induction false} BudgetAgrees(t: Table, i: nat, v: Value, rest: Bytes, nodes: nat)
    requires Ordered(t) && i < |t| && EncI(t, i, v).Some?
    ensures var e := EncI(t, i, v).value;
            && (e.cost <= nodes <==> Allowed(DecI(t, i, e.bytes + rest), nodes).Some?)
            && DecI(t, i, e.bytes + rest) == Some(Took(Norm(t, i, v), rest, e.cost))
            && (Typed(Resolve(t, i), v) && Fits(Resolve(t, i), v) ==> Norm(t, i, v) == v)
  {
    hide EncI, DecI, Norm, Resolve;
    EncodesExactly(t, i, v);
    TableRoundTrip(t, i, Norm(t, i, v), rest);
    if Typed(Resolve(t, i), v) && Fits(Resolve(t, i), v) {
      TableRoundTrip(t, i, v, rest);
    }
  }

  /** Meaning is preserved from the occurrence to the bytes of the machine, and back. */
  lemma {:induction false} MachineMatchesReference(typ: Type, p: Program, v: Value, rest: Bytes)
    requires WellBuilt(p) && Resolve(p.table, p.root) == typ && Typed(typ, v) && Fits(typ, v)
    ensures EncI(p.table, p.root, v).Some? && EncI(p.table, p.root, v).value.bytes == Enc(typ, v)
    ensures var d := DecI(p.table, p.root, Enc(typ, v) + rest);
            d.Some? && d.value.value == v && d.value.rest == rest && d.value.cost == EncI(p.table, p.root, v).value.cost
  {
    hide EncI, DecI, Resolve, Enc, Typed, Fits;
    EncAgrees(p.table, p.root, v);
    TableRoundTrip(p.table, p.root, v, rest);
  }

  /** The two machines, one after the other, each with its own budget of the same size. */
  method EncodeThenDecode(p: Program, v: Value, maximum: nat, capacity: nat, nodes: nat)
    returns (ok: bool, bytes: Bytes, back: Option<Value>)
    requires WellBuilt(p)
    ensures ok <==> FitsIn(EncI(p.table, p.root, v), maximum, nodes)
    ensures ok ==> bytes == EncI(p.table, p.root, v).value.bytes && back == Some(Norm(p.table, p.root, v))
  {
    hide EncI, DecI, Norm, Resolve, WellBuilt;
    bytes, back := [], None;
    var buffer := new EncoderBuffer(maximum, capacity);
    var budget := new CodecBudget(nodes);
    ok := EncodeInto(p, v, buffer, budget);
    if ok {
      bytes := buffer.Finish();
      Built(p);
      BudgetAgrees(p.table, p.root, v, [], nodes);
      assert bytes + [] == bytes;
      var another := new CodecBudget(nodes);
      back := DecodeProgram(p, bytes, another);
    }
  }
}
