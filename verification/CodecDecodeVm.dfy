/**
 * The decoding half of the LIFO codec machine. A destination is a place in the result that an assignment fills;
 * lists and records are assigned to their destination before their parts are decoded.
 */
module CodecDecodeVm {
  import opened LittleEndian
  import opened Leaves
  import opened Codec
  import opened CodecTable
  import opened CodecBuffers
  import opened CodecVm

  // ---------------------------------------------------------------------------
  // Destinations

  datatype Place = Index(k: nat) | Member(name: string)

  /** An array as JavaScript sees it when element `k` is assigned: extended with unassigned slots if needed. */
  function AsArray(v: Value, k: nat): (vs: seq<Value>)
    ensures |vs| > k
  {
    var vs := if v.VList? then v.elems else [];
    if |vs| > k then vs else vs + seq(k + 1 - |vs|, _ => Undefined)
  }

  function AsObject(v: Value): map<string, Value> {
    if v.VRecord? then v.fields else map[]
  }

  function SetAt(v: Value, path: seq<Place>, x: Value): Value
    decreases |path|
  {
    if path == [] then x
    else match path[0]
      case Index(k) => var vs := AsArray(v, k); VList(vs[k := SetAt(vs[k], path[1..], x)])
      case Member(n) =>
        var m := AsObject(v);
        VRecord(m[n := SetAt(if n in m then m[n] else Undefined, path[1..], x)])
  }

  lemma {:induction false} SetIndex(v: Value, k: nat, path: seq<Place>, x: Value)
    ensures var vs := AsArray(v, k); SetAt(v, [Index(k)] + path, x) == VList(vs[k := SetAt(vs[k], path, x)])
  {
    hide AsArray;
    assert ([Index(k)] + path)[1..] == path;
  }

  lemma {:induction false} SetName(v: Value, n: string, path: seq<Place>, x: Value)
    ensures var m := AsObject(v);
            SetAt(v, [Member(n)] + path, x) == VRecord(m[n := SetAt(if n in m then m[n] else Undefined, path, x)])
  {
    hide AsObject;
    assert ([Member(n)] + path)[1..] == path;
  }

  lemma {:induction false} SetInsideIndex(v: Value, k: nat, tail: seq<Place>, x: Value, q: seq<Place>, y: Value)
    requires var a := AsArray(v, k)[k]; SetAt(SetAt(a, tail, x), tail + q, y) == SetAt(a, tail, SetAt(x, q, y))
    ensures SetAt(SetAt(v, [Index(k)] + tail, x), [Index(k)] + (tail + q), y) ==
            SetAt(v, [Index(k)] + tail, SetAt(x, q, y))
  {
    hide SetAt;
    var vs := AsArray(v, k);
    SetIndex(v, k, tail, x);
    var w := VList(vs[k := SetAt(vs[k], tail, x)]);
    assert AsArray(w, k) == w.elems;
    SetIndex(w, k, tail + q, y);
    SetIndex(v, k, tail, SetAt(x, q, y));
  }

  lemma {:induction false} SetInsideName(v: Value, n: string, tail: seq<Place>, x: Value, q: seq<Place>, y: Value)
    requires var m := AsObject(v); var a := if n in m then m[n] else Undefined;
             SetAt(SetAt(a, tail, x), tail + q, y) == SetAt(a, tail, SetAt(x, q, y))
    ensures SetAt(SetAt(v, [Member(n)] + tail, x), [Member(n)] + (tail + q), y) ==
            SetAt(v, [Member(n)] + tail, SetAt(x, q, y))
  {
    hide SetAt;
    var m := AsObject(v);
    SetName(v, n, tail, x);
    var w := VRecord(m[n := SetAt(if n in m then m[n] else Undefined, tail, x)]);
    assert AsObject(w) == w.fields;
    SetName(w, n, tail + q, y);
    SetName(v, n, tail, SetAt(x, q, y));
  }

  lemma {:induction false} SetNothing(v: Value, x: Value)
    ensures SetAt(v, [], x) == x
  {
  }

  /** Assigning inside what was just assigned is assigning the changed part. */
  lemma {:induction false} SetInside(v: Value, p: seq<Place>, x: Value, q: seq<Place>, y: Value)
    ensures SetAt(SetAt(v, p, x), p + q, y) == SetAt(v, p, SetAt(x, q, y))
    decreases |p|
  {
    hide SetAt, AsArray, AsObject;
    if p == [] {
      assert p + q == q;
      SetNothing(v, x);
      SetNothing(v, SetAt(x, q, y));
    } else {
      var tail := p[1..];
      assert p == [p[0]] + tail && p + q == [p[0]] + (tail + q);
      match p[0]
      case Index(k) =>
        SetInside(AsArray(v, k)[k], tail, x, q, y);
        SetInsideIndex(v, k, tail, x, q, y);
      case Member(n) =>
        var m := AsObject(v);
        SetInside(if n in m then m[n] else Undefined, tail, x, q, y);
        SetInsideName(v, n, tail, x, q, y);
    }
  }

  lemma {:induction false} SetElement(v: Value, p: seq<Place>, vs: seq<Value>, k: nat, y: Value)
    requires k < |vs|
    ensures SetAt(SetAt(v, p, VList(vs)), p + [Index(k)], y) == SetAt(v, p, VList(vs[k := y]))
  {
    SetInside(v, p, VList(vs), [Index(k)], y);
    assert [Index(k)][1..] == [];
    assert SetAt(VList(vs), [Index(k)], y) == VList(vs[k := y]);
  }

  lemma {:induction false} SetMember(v: Value, p: seq<Place>, m: map<string, Value>, n: string, y: Value)
    ensures SetAt(SetAt(v, p, VRecord(m)), p + [Member(n)], y) == SetAt(v, p, VRecord(m[n := y]))
  {
    SetInside(v, p, VRecord(m), [Member(n)], y);
    assert [Member(n)][1..] == [];
    assert SetAt(VRecord(m), [Member(n)], y) == VRecord(m[n := y]);
  }

  // ---------------------------------------------------------------------------
  // What the rest of the stack will do

  datatype Slot = Slot(index: nat, dest: seq<Place>)

  function SlotIndexes(stack: seq<Slot>): seq<nat> {
    seq(|stack|, k requires 0 <= k < |stack| => stack[k].index)
  }

  predicate SlotsInTable(t: Table, stack: seq<Slot>) {
    forall k :: 0 <= k < |stack| ==> stack[k].index < |t|
  }

  /** Decodes the stack from the top, assigning every value to its destination. */
  function Finish(t: Table, tree: Value, stack: seq<Slot>, bs: Bytes, used: nat): (r: Option<Took>)
    requires Ordered(t) && SlotsInTable(t, stack)
    ensures r.Some? ==> r.value.cost >= used
    decreases |stack|
  {
    if stack == [] then Some(Took(tree, bs, used))
    else
      var top := stack[|stack| - 1];
      var d := DecI(t, top.index, bs);
      if d.None? then None
      else Finish(t, SetAt(tree, top.dest, d.value.value), stack[..|stack| - 1], d.value.rest, used + d.value.cost)
  }

  lemma {:induction false} FinishPush(t: Table, tree: Value, base: seq<Slot>, s: Slot, bs: Bytes, used: nat)
    requires Ordered(t) && SlotsInTable(t, base) && s.index < |t|
    ensures var d := DecI(t, s.index, bs);
            Finish(t, tree, base + [s], bs, used) ==
            if d.None? then None
            else Finish(t, SetAt(tree, s.dest, d.value.value), base, d.value.rest, used + d.value.cost)
  {
    assert (base + [s])[..|base|] == base;
  }

  /** Element slots `from`, ..., `n - 1`, pushed in reverse. */
  function ElemSlots(e: nat, dest: seq<Place>, from: nat, n: nat): (r: seq<Slot>)
    requires from <= n
    ensures |r| == n - from && forall k :: 0 <= k < |r| ==> r[k].index == e
    decreases n - from
  {
    if from == n then [] else ElemSlots(e, dest, from + 1, n) + [Slot(e, dest + [Index(from)])]
  }

  function FieldSlots(fs: seq<FieldRef>, dest: seq<Place>): (r: seq<Slot>)
    ensures |r| == |fs|
  {
    if fs == [] then [] else FieldSlots(fs[1..], dest) + [Slot(fs[0].value, dest + [Member(fs[0].name)])]
  }

  function Unassigned(n: nat): seq<Value> {
    seq(n, _ => Undefined)
  }

  /** The pushed element slots decode the elements in order and fill the list in place. */
  lemma {:induction false} ElemSlotsFill(t: Table, tree: Value, base: seq<Slot>, e: nat, dest: seq<Place>,
      vs: seq<Value>, n: nat, bs: Bytes, used: nat)
    requires Ordered(t) && SlotsInTable(t, base) && e < |t| && |vs| <= n
    ensures SlotsInTable(t, base + ElemSlots(e, dest, |vs|, n))
    ensures var r := DecIElems(t, e, n - |vs|, bs);
            Finish(t, SetAt(tree, dest, VList(vs + Unassigned(n - |vs|))), base + ElemSlots(e, dest, |vs|, n), bs,
                used) ==
            if r.None? then None
            else Finish(t, SetAt(tree, dest, VList(vs + r.value.values)), base, r.value.rest, used + r.value.cost)
    decreases n - |vs|
  {
    hide DecI, Finish, SetAt;
    if |vs| == n {
      assert base + ElemSlots(e, dest, |vs|, n) == base;
      assert vs + Unassigned(0) == vs && vs + [] == vs;
      assert DecIElems(t, e, 0, bs) == Some(TookElems([], bs, 0));
    } else {
      var from := |vs|;
      var s := Slot(e, dest + [Index(from)]);
      var rest := base + ElemSlots(e, dest, from + 1, n);
      var cur := vs + Unassigned(n - from);
      var here := SetAt(tree, dest, VList(cur));
      assert base + ElemSlots(e, dest, from, n) == rest + [s];
      assert SlotsInTable(t, rest);
      FinishPush(t, here, rest, s, bs, used);
      var d := DecI(t, e, bs);
      if d.Some? {
        var x := d.value.value;
        SetElement(tree, dest, cur, from, x);
        assert cur[from := x] == (vs + [x]) + Unassigned(n - from - 1);
        ElemSlotsFill(t, tree, base, e, dest, vs + [x], n, d.value.rest, used + d.value.cost);
        var r := DecIElems(t, e, n - from - 1, d.value.rest);
        if r.Some? {
          assert (vs + [x]) + r.value.values == vs + ([x] + r.value.values);
        }
      }
    }
  }

  /** Fields already decoded, then those still to come. */
  function Merge(m: map<string, Value>, fs: map<string, Value>): map<string, Value> {
    m + fs
  }

  lemma {:induction false} MergeEnds(m: map<string, Value>, fs: map<string, Value>, name: string, x: Value)
    ensures Merge(m, map[]) == m
    ensures name !in fs ==> Merge(m[name := x], fs) == Merge(m, fs[name := x])
  {
  }

  lemma {:induction false} FieldSlotsFill(t: Table, tree: Value, base: seq<Slot>, fs: seq<FieldRef>, i: nat,
      dest: seq<Place>, m: map<string, Value>, bs: Bytes, used: nat)
    requires Ordered(t) && SlotsInTable(t, base) && i <= |t| && RefsOk(fs, i)
    ensures SlotsInTable(t, base + FieldSlots(fs, dest))
    ensures forall k :: 0 <= k < |fs| ==> FieldSlots(fs, dest)[k].index < i
    ensures var r := DecIFields(t, fs, i, bs);
            Finish(t, SetAt(tree, dest, VRecord(m)), base + FieldSlots(fs, dest), bs, used) ==
            if r.None? then None
            else Finish(t, SetAt(tree, dest, VRecord(Merge(m, r.value.fields))), base, r.value.rest,
                used + r.value.cost)
    decreases |fs|
  {
    hide DecI, Finish, SetAt, Merge, Ordered, RefNames;
    if fs == [] {
      assert base + FieldSlots(fs, dest) == base;
      MergeEnds(m, map[], "", Undefined);
    } else {
      var s := Slot(fs[0].value, dest + [Member(fs[0].name)]);
      var rest := base + FieldSlots(fs[1..], dest);
      FieldSlotsFill(t, tree, base, fs[1..], i, dest, m, bs, used);
      assert base + FieldSlots(fs, dest) == rest + [s];
      FinishPush(t, SetAt(tree, dest, VRecord(m)), rest, s, bs, used);
      var d := DecI(t, fs[0].value, bs);
      if d.Some? {
        var x := d.value.value;
        SetMember(tree, dest, m, fs[0].name, x);
        var m' := m[fs[0].name := x];
        FieldSlotsFill(t, tree, base, fs[1..], i, dest, m', d.value.rest, used + d.value.cost);
        var r := DecIFields(t, fs[1..], i, d.value.rest);
        if r.Some? {
          DecIFieldNames(t, fs[1..], i, d.value.rest);
          MergeEnds(m, r.value.fields, fs[0].name, x);
        }
      }
    }
  }

  lemma {:induction false} DecIFieldNames(t: Table, fs: seq<FieldRef>, i: nat, bs: Bytes)
    requires Ordered(t) && i <= |t| && RefsOk(fs, i) && DecIFields(t, fs, i, bs).Some?
    ensures DecIFields(t, fs, i, bs).value.fields.Keys == RefNames(fs)
    decreases |fs|
  {
    hide DecI;
    if fs != [] {
      DecIFieldNames(t, fs[1..], i, DecI(t, fs[0].value, bs).value.rest);
      RefNamesCons(fs);
    }
  }

  // ---------------------------------------------------------------------------
  // The machine

  datatype Cursor = Cursor(tree: Value, rest: Bytes)

  /** One turn: either the destination is filled, or it gets a container whose parts are pushed. */
  method DecodeFrame(p: Program, c: Cursor, s: Slot, base: seq<Slot>, budget: CodecBudget)
    returns (ok: bool, c': Cursor, stack: seq<Slot>)
    requires WellBuilt(p) && s.index < |p.table| && SlotsInTable(p.table, base) && budget.Valid()
    modifies budget
    ensures budget.Valid() && budget.used >= old(budget.used)
    ensures !ok ==> DecI(p.table, s.index, c.rest).None?
                    || DecI(p.table, s.index, c.rest).value.cost > old(Remaining(budget))
    ensures ok ==> SlotsInTable(p.table, stack)
                   && Finish(p.table, c.tree, base + [s], c.rest, old(budget.used)) ==
                      Finish(p.table, c'.tree, stack, c'.rest, budget.used)
    ensures ok ==> Load(Branching(p.table), SlotIndexes(stack)) <
                   Load(Branching(p.table), SlotIndexes(base) + [s.index])
  {
    hide Load, Finish, SetAt, Get;
    ghost var t := p.table;
    var i := s.index;
    FinishPush(t, c.tree, base, s, c.rest, budget.used);
    LoadFalls(Branching(t), SlotIndexes(base), i, []);
    assert SlotIndexes(base) + [] == SlotIndexes(base);
    ok, c', stack := true, c, base;
    if p.zeroWidths[i] {
      ok := budget.Charge(p.costs[i]);
      c' := Cursor(SetAt(c.tree, s.dest, p.zeroValues[i]), c.rest);
      return;
    }
    match p.table[i] {
      case IPrim(prim) =>
        var d := DecodeLeaf(prim, c.rest);
        if d.None? {
          return false, c, base;
        }
        c' := Cursor(SetAt(c.tree, s.dest, d.value.value), d.value.rest);
      case IZero =>
        assert false;
      case INamed(target) =>
        assert InstrOk(t[i], i);
        stack := base + [Slot(target, s.dest)];
        FinishPush(t, c.tree, base, Slot(target, s.dest), c.rest, budget.used);
        LoadFalls(Branching(t), SlotIndexes(base), i, [target]);
        assert SlotIndexes(stack) == SlotIndexes(base) + [target];
      case IList(_) =>
        ok, c', stack := DecodeListFrame(p, c, s, base, budget);
      case IRecord(_) =>
        ok, c', stack := DecodeRecordFrame(p, c, s, base, budget);
    }
  }

  lemma {:induction false} NumberLength(bs: Bytes)
    ensures DecodeNumber(8, bs).Some? ==> |bs| >= 8
  {
  }

  /** Push the slots of the elements of a list, the first on top. */
  method PushElemSlots(e: nat, dest: seq<Place>, n: nat, base: seq<Slot>) returns (stack: seq<Slot>)
    ensures stack == base + ElemSlots(e, dest, 0, n)
  {
    stack := base;
    var k := n;
    while k > 0
      invariant 0 <= k <= n && stack == base + ElemSlots(e, dest, k, n)
    {
      k := k - 1;
      stack := stack + [Slot(e, dest + [Index(k)])];
    }
  }

  /** `decodeListFrame`: the array is allocated and assigned first; zero-width elements are filled at once. */
  method DecodeListFrame(p: Program, c: Cursor, s: Slot, base: seq<Slot>, budget: CodecBudget)
    returns (ok: bool, c': Cursor, stack: seq<Slot>)
    requires WellBuilt(p) && s.index < |p.table| && p.table[s.index].IList? && SlotsInTable(p.table, base)
    requires budget.Valid()
    modifies budget
    ensures budget.Valid() && budget.used >= old(budget.used)
    ensures !ok ==> DecI(p.table, s.index, c.rest).None?
                    || DecI(p.table, s.index, c.rest).value.cost > old(Remaining(budget))
    ensures ok ==> SlotsInTable(p.table, stack)
                   && Finish(p.table, c.tree, base + [s], c.rest, old(budget.used)) ==
                      Finish(p.table, c'.tree, stack, c'.rest, budget.used)
    ensures ok ==> Load(Branching(p.table), SlotIndexes(stack)) <
                   Load(Branching(p.table), SlotIndexes(base) + [s.index])
  {
    hide *;
    c', stack := c, base;
    ghost var t := p.table;
    var i := s.index;
    var e := p.table[i].element;
    Built(p);
    ListFacts(p, i);
    RemainingIs(budget);
    var count := DecodeNumber(8, c.rest);
    NumberLength(c.rest);
    if count.None? || count.value > MAX_LIST {
      ListCountFails(t, i, c.rest);
      return false, c, base;
    }
    var n := count.value;
    if DecI(t, i, c.rest).Some? {
      ListCost(t, i, c.rest);
    }
    ok := budget.Charge(1 + n);
    if !ok {
      return;
    }
    if p.zeroWidths[e] {
      ok := budget.Charge(n * p.costs[e]);
      var filled := seq(n, _ => p.zeroValues[e]);
      c' := Cursor(SetAt(c.tree, s.dest, VList(filled)), c.rest[8..]);
      ZeroListFinish(p, c.tree, s, base, c.rest, old(budget.used));
      return;
    }
    c' := Cursor(SetAt(c.tree, s.dest, VList(Unassigned(n))), c.rest[8..]);
    stack := PushElemSlots(e, s.dest, n, base);
    ListFinish(t, c.tree, s, base, c.rest, old(budget.used));
  }

  lemma {:induction false} ListCountFails(t: Table, i: nat, bs: Bytes)
    requires Ordered(t) && i < |t| && t[i].IList?
    requires DecodeNumber(8, bs).None? || DecodeNumber(8, bs).value > MAX_LIST
    ensures DecI(t, i, bs).None?
  {
    hide DecodeNumber;
  }

  lemma {:induction false} ListCost(t: Table, i: nat, bs: Bytes)
    requires Ordered(t) && i < |t| && t[i].IList? && DecodeNumber(8, bs).Some? && DecI(t, i, bs).Some?
    ensures var e := t[i].element; var n := DecodeNumber(8, bs).value;
            DecI(t, i, bs).value.cost >= 1 + n + (if ZeroAt(t, e) then n * CostAt(t, e) else 0)
  {
    hide DecodeNumber;
  }

  lemma {:induction false} ZeroListFinish(p: Program, tree: Value, s: Slot, base: seq<Slot>, bs: Bytes, used: nat)
    requires WellBuilt(p) && s.index < |p.table| && p.table[s.index].IList? && SlotsInTable(p.table, base)
    requires DecodeNumber(8, bs).Some? && DecodeNumber(8, bs).value <= MAX_LIST
    requires p.table[s.index].element < |p.zeroWidths|
    requires p.zeroWidths[p.table[s.index].element]
    ensures var e := p.table[s.index].element; var n := DecodeNumber(8, bs).value; var t := p.table;
            && e < |p.zeroValues| && e < |p.costs|
            && Finish(t, tree, base + [s], bs, used) ==
               Finish(t, SetAt(tree, s.dest, VList(seq(n, _ => p.zeroValues[e]))), base, bs[8..],
                   used + (1 + n) + n * p.costs[e])
            && Load(Branching(t), SlotIndexes(base)) < Load(Branching(t), SlotIndexes(base) + [s.index])
  {
    hide Load, Finish, SetAt, Get, Branching;
    var t, i := p.table, s.index;
    var e, n := t[i].element, DecodeNumber(8, bs).value;
    ListFacts(p, i);
    FinishPush(t, tree, base, s, bs, used);
    assert seq(n, _ => p.zeroValues[e]) == Zeros(Resolve(t, e), n);
    LoadFalls(Branching(t), SlotIndexes(base), i, []);
    assert SlotIndexes(base) + [] == SlotIndexes(base);
  }

  lemma {:induction false} DecList(t: Table, i: nat, bs: Bytes)
    requires Ordered(t) && i < |t| && t[i].IList? && t[i].element < i && !ZeroAt(t, t[i].element)
    requires DecodeNumber(8, bs).Some? && DecodeNumber(8, bs).value <= MAX_LIST
    ensures |bs| >= 8
    ensures var n := DecodeNumber(8, bs).value; var r := DecIElems(t, t[i].element, n, bs[8..]);
            DecI(t, i, bs) ==
            if r.None? then None else Some(Took(VList(r.value.values), r.value.rest, 1 + n + r.value.cost))
  {
    hide Get, DecIElems;
  }

  /** Pushing the elements of a list in place of the list makes the stack lighter. */
  lemma {:induction false} ListLoad(t: Table, base: seq<nat>, i: nat, pushed: seq<nat>)
    requires |pushed| <= MAX_LIST && forall k :: 0 <= k < |pushed| ==> pushed[k] < i
    ensures Load(Branching(t), base + pushed) < Load(Branching(t), base + [i])
  {
    hide Load, FieldCount;
    LoadFalls(Branching(t), base, i, pushed);
  }

  lemma {:induction false} NoneBefore(vs: seq<Value>)
    ensures [] + vs == vs
  {
  }

  /** The list that was pushed, and its elements pushed in its place, come to the same. */
  lemma {:induction false} ListFills(t: Table, tree: Value, s: Slot, base: seq<Slot>, bs: Bytes, used: nat)
    requires Ordered(t) && s.index < |t| && t[s.index].IList? && SlotsInTable(t, base) && t[s.index].element < s.index
    requires DecodeNumber(8, bs).Some? && DecodeNumber(8, bs).value <= MAX_LIST && !ZeroAt(t, t[s.index].element)
    ensures |bs| >= 8
    ensures var e := t[s.index].element; var n := DecodeNumber(8, bs).value; var slots := ElemSlots(e, s.dest, 0, n);
            && SlotsInTable(t, base + slots)
            && Finish(t, tree, base + [s], bs, used) ==
               Finish(t, SetAt(tree, s.dest, VList(Unassigned(n))), base + slots, bs[8..], used + (1 + n))
  {
    hide *;
    var i := s.index;
    var e, n := t[i].element, DecodeNumber(8, bs).value;
    DecList(t, i, bs);
    FinishPush(t, tree, base, s, bs, used);
    ElemSlotsFill(t, tree, base, e, s.dest, [], n, bs[8..], used + (1 + n));
    NoneBefore(Unassigned(n));
    var r := DecIElems(t, e, n, bs[8..]);
    if r.Some? {
      NoneBefore(r.value.values);
    }
  }

  lemma {:induction false} ListFinish(t: Table, tree: Value, s: Slot, base: seq<Slot>, bs: Bytes, used: nat)
    requires Ordered(t) && s.index < |t| && t[s.index].IList? && SlotsInTable(t, base) && t[s.index].element < s.index
    requires DecodeNumber(8, bs).Some? && DecodeNumber(8, bs).value <= MAX_LIST && !ZeroAt(t, t[s.index].element)
    ensures var e := t[s.index].element; var n := DecodeNumber(8, bs).value;
            && SlotsInTable(t, base + ElemSlots(e, s.dest, 0, n))
            && Finish(t, tree, base + [s], bs, used) ==
               Finish(t, SetAt(tree, s.dest, VList(Unassigned(n))), base + ElemSlots(e, s.dest, 0, n), bs[8..],
                   used + (1 + n))
            && Load(Branching(t), SlotIndexes(base + ElemSlots(e, s.dest, 0, n))) <
               Load(Branching(t), SlotIndexes(base) + [s.index])
  {
    ListFills(t, tree, s, base, bs, used);
    hide Load, Branching, Finish, SetAt, ElemSlots, Ordered, ZeroAt, SlotsInTable, DecodeNumber;
    var slots := ElemSlots(t[s.index].element, s.dest, 0, DecodeNumber(8, bs).value);
    assert SlotIndexes(base + slots) == SlotIndexes(base) + SlotIndexes(slots);
    ListLoad(t, SlotIndexes(base), s.index, SlotIndexes(slots));
  }

  lemma {:induction false} RecordFacts(p: Program, i: nat)
    requires WellBuilt(p) && i < |p.table| && p.table[i].IRecord? && !p.zeroWidths[i]
    ensures Ordered(p.table) && !ZeroAt(p.table, i)
  {
    hide ZeroAt;
  }

  lemma {:induction false} RecordCost(t: Table, i: nat, bs: Bytes)
    requires Ordered(t) && i < |t| && t[i].IRecord? && !ZeroAt(t, i) && DecI(t, i, bs).Some?
    ensures DecI(t, i, bs).value.cost >= 1
  {
    hide ZeroAt;
  }

  lemma {:induction false} DecRecord(t: Table, i: nat, bs: Bytes)
    requires Ordered(t) && i < |t| && t[i].IRecord? && !ZeroAt(t, i)
    ensures RefsOk(t[i].fields, i)
    ensures var r := DecIFields(t, t[i].fields, i, bs);
            DecI(t, i, bs) ==
            if r.None? then None else Some(Took(VRecord(r.value.fields), r.value.rest, 1 + r.value.cost))
  {
    OrderedAt(t, i);
    hide ZeroAt;
  }

  lemma {:induction false} MergeNone(fs: map<string, Value>)
    ensures Merge(map[], fs) == fs
  {
  }

  /** The record that was pushed, and its fields pushed in its place, come to the same. */
  lemma {:induction false} RecordFills(t: Table, tree: Value, s: Slot, base: seq<Slot>, bs: Bytes, used: nat)
    requires Ordered(t) && s.index < |t| && t[s.index].IRecord? && SlotsInTable(t, base) && !ZeroAt(t, s.index)
    ensures var slots := FieldSlots(t[s.index].fields, s.dest);
            && SlotsInTable(t, base + slots) && (forall k :: 0 <= k < |slots| ==> slots[k].index < s.index)
            && Finish(t, tree, base + [s], bs, used) ==
               Finish(t, SetAt(tree, s.dest, VRecord(map[])), base + slots, bs, used + 1)
  {
    hide *;
    var i := s.index;
    var fs := t[i].fields;
    DecRecord(t, i, bs);
    FinishPush(t, tree, base, s, bs, used);
    FieldSlotsFill(t, tree, base, fs, i, s.dest, map[], bs, used + 1);
    var r := DecIFields(t, fs, i, bs);
    if r.Some? {
      MergeNone(r.value.fields);
    }
  }

  lemma {:induction false} RecordFinish(t: Table, tree: Value, s: Slot, base: seq<Slot>, bs: Bytes, used: nat)
    requires Ordered(t) && s.index < |t| && t[s.index].IRecord? && SlotsInTable(t, base) && !ZeroAt(t, s.index)
    ensures var stack := base + FieldSlots(t[s.index].fields, s.dest);
            && SlotsInTable(t, stack)
            && Finish(t, tree, base + [s], bs, used) ==
               Finish(t, SetAt(tree, s.dest, VRecord(map[])), stack, bs, used + 1)
            && Load(Branching(t), SlotIndexes(stack)) < Load(Branching(t), SlotIndexes(base) + [s.index])
  {
    RecordFills(t, tree, s, base, bs, used);
    hide Load, Branching, Finish, SetAt, Ordered, ZeroAt, FieldSlots, SlotsInTable;
    var slots := FieldSlots(t[s.index].fields, s.dest);
    assert SlotIndexes(base + slots) == SlotIndexes(base) + SlotIndexes(slots);
    RecordLoad(t, SlotIndexes(base), s.index, SlotIndexes(slots));
  }

  /** Push the slots of the fields of a record, the first on top. */
  method PushFieldSlots(fs: seq<FieldRef>, dest: seq<Place>, base: seq<Slot>) returns (stack: seq<Slot>)
    ensures stack == base + FieldSlots(fs, dest)
  {
    stack := base;
    var k := |fs|;
    while k > 0
      invariant 0 <= k <= |fs| && stack == base + FieldSlots(fs[k..], dest)
    {
      k := k - 1;
      assert fs[k..][1..] == fs[k + 1..];
      stack := stack + [Slot(fs[k].value, dest + [Member(fs[k].name)])];
    }
    assert fs[0..] == fs;
  }

  /** `decodeRecordFrame`: an empty object is assigned first, its members are filled in declaration order. */
  method DecodeRecordFrame(p: Program, c: Cursor, s: Slot, base: seq<Slot>, budget: CodecBudget)
    returns (ok: bool, c': Cursor, stack: seq<Slot>)
    requires WellBuilt(p) && s.index < |p.table| && p.table[s.index].IRecord? && !p.zeroWidths[s.index]
    requires SlotsInTable(p.table, base) && budget.Valid()
    modifies budget
    ensures budget.Valid() && budget.used >= old(budget.used)
    ensures !ok ==> DecI(p.table, s.index, c.rest).None?
                    || DecI(p.table, s.index, c.rest).value.cost > old(Remaining(budget))
    ensures ok ==> SlotsInTable(p.table, stack)
                   && Finish(p.table, c.tree, base + [s], c.rest, old(budget.used)) ==
                      Finish(p.table, c'.tree, stack, c'.rest, budget.used)
    ensures ok ==> Load(Branching(p.table), SlotIndexes(stack)) <
                   Load(Branching(p.table), SlotIndexes(base) + [s.index])
  {
    hide *;
    RecordFacts(p, s.index);
    RemainingIs(budget);
    c', stack := c, base;
    ghost var t := p.table;
    if DecI(t, s.index, c.rest).Some? {
      RecordCost(t, s.index, c.rest);
    }
    ok := budget.Charge(1);
    if !ok {
      return;
    }
    c' := Cursor(SetAt(c.tree, s.dest, VRecord(map[])), c.rest);
    stack := PushFieldSlots(p.table[s.index].fields, s.dest, base);
    RecordFinish(t, c.tree, s, base, c.rest, old(budget.used));
  }

  /** What decoding the root from these bytes should give within a node allowance. */
  function Allowed(d: Option<Took>, nodes: nat): Option<Took> {
    if d.Some? && d.value.cost <= nodes then d else None
  }

  lemma {:induction false} FinishFails(t: Table, tree: Value, base: seq<Slot>, s: Slot, bs: Bytes, used: nat,
      limit: nat)
    requires Ordered(t) && SlotsInTable(t, base) && s.index < |t| && used <= limit
    requires DecI(t, s.index, bs).None? || DecI(t, s.index, bs).value.cost > limit - used
    ensures Finish(t, tree, base + [s], bs, used).None? || Finish(t, tree, base + [s], bs, used).value.cost > limit
  {
    hide DecI, SetAt;
    FinishPush(t, tree, base, s, bs, used);
  }

  /**
   * `decodeProgramValue`: terminates on every byte string; succeeds exactly when the table decodes a prefix within
   * the budget; and then returns that value and consumes exactly that prefix.
   */
  method DecodeValue(p: Program, bytes: Bytes, budget: CodecBudget) returns (r: Option<Decoded>)
    requires WellBuilt(p) && budget.Valid()
    modifies budget
    ensures budget.Valid()
    ensures var d := Allowed(DecI(p.table, p.root, bytes), old(Remaining(budget)));
            if d.Some? then r == Some(Decoded(d.value.value, d.value.rest))
                && budget.used == old(budget.used) + d.value.cost
            else r.None?
  {
    hide Load, DecI, SetAt, WellBuilt;
    ghost var t := p.table;
    assert Ordered(t) && p.root < |t| by { Built(p); }
    hide Ordered;
    var stack := [Slot(p.root, [])];
    var c := Cursor(Undefined, bytes);
    ghost var goal := Finish(t, c.tree, stack, bytes, budget.used);
    FinishOne(t, p.root, bytes, budget.used);
    hide Finish;
    while stack != []
      invariant SlotsInTable(t, stack) && budget.Valid()
      invariant goal == Finish(t, c.tree, stack, c.rest, budget.used)
      decreases Load(Branching(t), SlotIndexes(stack))
    {
      var top := stack[|stack| - 1];
      var base := stack[..|stack| - 1];
      ghost var used := budget.used;
      assert base + [top] == stack;
      assert SlotIndexes(stack) == SlotIndexes(base) + [top.index];
      var ok, c', next := DecodeFrame(p, c, top, base, budget);
      if !ok {
        FinishFails(t, c.tree, base, top, c.rest, used, budget.limit);
        return None;
      }
      c, stack := c', next;
    }
    assert Finish(t, c.tree, [], c.rest, budget.used) == Some(Took(c.tree, c.rest, budget.used)) by {
      FinishNothing(t, c.tree, c.rest, budget.used);
    }
    return Some(Decoded(c.tree, c.rest));
  }

  lemma {:induction false} FinishNothing(t: Table, tree: Value, bs: Bytes, used: nat)
    requires Ordered(t)
    ensures Finish(t, tree, [], bs, used) == Some(Took(tree, bs, used))
  {
  }

  lemma {:induction false} FinishOne(t: Table, i: nat, bs: Bytes, used: nat)
    requires Ordered(t) && i < |t|
    ensures var d := DecI(t, i, bs);
            Finish(t, Undefined, [Slot(i, [])], bs, used) ==
            if d.None? then None else Some(Took(d.value.value, d.value.rest, used + d.value.cost))
  {
    FinishPush(t, Undefined, [], Slot(i, []), bs, used);
    assert [] + [Slot(i, [])] == [Slot(i, [])];
  }

  /** `decodeProgram`: the payload must be consumed exactly. */
  method DecodeProgram(p: Program, bytes: Bytes, budget: CodecBudget) returns (r: Option<Value>)
    requires WellBuilt(p) && budget.Valid()
    modifies budget
    ensures var d := Allowed(DecI(p.table, p.root, bytes), old(Remaining(budget)));
            r == if d.Some? && d.value.rest == [] then Some(d.value.value) else None
  {
    var d := DecodeValue(p, bytes, budget);
    if d.None? || d.value.rest != [] {
      return None;
    }
    return Some(d.value.value);
  }
}
