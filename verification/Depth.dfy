/**
 * The projection depth preflight. The memoised walk skips a declaration already walked at least as deep and shares
 * what it learned across roots; the plain walk follows every path. On a valid interface both reject exactly when some
 * resolved path is too long.
 */
module Depths {
  import opened Leaves
  import opened Syntax
  import Validators
  import opened InterfaceTypes

  /** An occurrence to visit, or the end of the walk of a declaration. */
  datatype Job = Frame(t: TypeExpr, depth: nat) | Exit(wire: string)

  predicate JobKnown(w: World, job: Job) {
    match job
    case Frame(t, depth) => Known(w, t) && depth >= 1
    case Exit(wire) => wire in w.env && wire in w.rank
  }

  predicate AllKnown(w: World, stack: seq<Job>) {
    forall k :: 0 <= k < |stack| ==> JobKnown(w, stack[k])
  }

  /** The length of the longest path that ends below this occurrence. */
  ghost function Reach(w: World, job: Job): nat
    requires Ranked(w) && JobKnown(w, job)
  {
    match job
    case Frame(t, depth) => depth - 1 + Height(w, t)
    case Exit(_) => 0
  }

  ghost predicate FitFrom(w: World, limit: nat, stack: seq<Job>, j: nat)
    requires Ranked(w) && AllKnown(w, stack)
  {
    forall k :: j <= k < |stack| ==> Reach(w, stack[k]) <= limit
  }

  /** Walking the declaration at this depth stays within the limit. */
  ghost predicate Within(w: World, limit: nat, wire: string, depth: nat)
    requires Ranked(w) && wire in w.env
  {
    depth - 1 + Height(w, w.env[wire]) <= limit
  }

  /** A declaration is within the limit once everything above its exit is. */
  ghost predicate ExitsOk(w: World, limit: nat, walked: map<string, nat>, stack: seq<Job>)
    requires Ranked(w) && AllKnown(w, stack)
  {
    forall j :: 0 <= j < |stack| && stack[j].Exit? ==>
      stack[j].wire in walked && (FitFrom(w, limit, stack, j + 1) ==>
          Within(w, limit, stack[j].wire, walked[stack[j].wire]))
  }

  /** Above the exit of a declaration there are only names that rank below it. */
  predicate Descends(w: World, stack: seq<Job>)
    requires AllKnown(w, stack)
  {
    forall j, k :: 0 <= j < k < |stack| && stack[j].Exit? ==> JobLevel(w, stack[k]) <= w.rank[stack[j].wire]
  }

  function JobLevel(w: World, job: Job): nat
    requires JobKnown(w, job)
  {
    match job
    case Frame(t, _) => Level(w, t)
    case Exit(wire) => w.rank[wire] + 1
  }

  function Exits(stack: seq<Job>): set<string> {
    set j | 0 <= j < |stack| && stack[j].Exit? :: stack[j].wire
  }

  /** Every declaration walked to the end is within the limit. */
  ghost predicate MemoOk(w: World, limit: nat, walked: map<string, nat>, gray: set<string>)
    requires Ranked(w)
  {
    forall n :: n in walked ==> n in w.env && (n in gray || Within(w, limit, n, walked[n]))
  }

  // ---------------------------------------------------------------------------
  // Replacing the top of the stack by the jobs it stands for

  /** The new jobs on their own. */
  ghost predicate PushOk(w: World, limit: nat, walked: map<string, nat>, top: Job, pushed: seq<Job>)
    requires Ranked(w) && JobKnown(w, top) && AllKnown(w, pushed)
  {
    && ExitsOk(w, limit, walked, pushed) && Descends(w, pushed)
    && (FitFrom(w, limit, pushed, 0) ==> Reach(w, top) <= limit)
    && (forall k :: 0 <= k < |pushed| ==>
       Reach(w, pushed[k]) <= Reach(w, top) && JobLevel(w, pushed[k]) <= JobLevel(w, top))
  }

  lemma {:induction false} KnownBoth(w: World, a: seq<Job>, b: seq<Job>)
    ensures AllKnown(w, a + b) <==> AllKnown(w, a) && AllKnown(w, b)
  {
    hide JobKnown;
    assert forall k :: 0 <= k < |a| ==> (a + b)[k] == a[k];
    assert forall k :: 0 <= k < |b| ==> (a + b)[|a| + k] == b[k];
  }

  lemma {:induction false} FitBoth(w: World, limit: nat, a: seq<Job>, b: seq<Job>, j: nat)
    requires Ranked(w) && AllKnown(w, a) && AllKnown(w, b) && j <= |a|
    ensures AllKnown(w, a + b)
    ensures FitFrom(w, limit, a + b, j) <==> FitFrom(w, limit, a, j) && FitFrom(w, limit, b, 0)
    ensures forall k :: 0 <= k <= |b| ==> (FitFrom(w, limit, a + b, |a| + k) <==> FitFrom(w, limit, b, k))
  {
    KnownBoth(w, a, b);
    hide JobKnown, Reach, Ranked;
    assert forall k :: 0 <= k < |a| ==> (a + b)[k] == a[k];
    assert forall k :: 0 <= k < |b| ==> (a + b)[|a| + k] == b[k];
    assert forall k :: |a| <= k < |a + b| ==> (a + b)[k] == b[k - |a|];
  }

  lemma {:induction false} FitOne(w: World, limit: nat, job: Job)
    requires Ranked(w) && JobKnown(w, job)
    ensures AllKnown(w, [job]) && (FitFrom(w, limit, [job], 0) <==> Reach(w, job) <= limit)
  {
    hide JobKnown, Reach, Ranked;
    assert [job][0] == job;
  }

  /** Exits below the top stay right: whatever replaces the top fits only if the top did. */
  lemma {:induction false} ReplaceTop(w: World, limit: nat, walked: map<string, nat>, base: seq<Job>, top: Job,
      pushed: seq<Job>)
    requires Ranked(w) && AllKnown(w, base + [top]) && AllKnown(w, pushed) && JobKnown(w, top) && AllKnown(w, base)
    requires ExitsOk(w, limit, walked, base + [top]) && PushOk(w, limit, walked, top, pushed)
    ensures AllKnown(w, base + pushed) && ExitsOk(w, limit, walked, base + pushed)
    ensures FitFrom(w, limit, base + pushed, 0) ==> FitFrom(w, limit, base + [top], 0)
  {
    KnownBoth(w, base, pushed);
    FitOne(w, limit, top);
    FitBoth(w, limit, base, [top], 0);
    FitBoth(w, limit, base, pushed, 0);
    hide JobKnown, Ranked, FitFrom, Reach, Within, AllKnown, Descends;
    forall j | 0 <= j < |base + pushed| && (base + pushed)[j].Exit?
      ensures var x := (base + pushed)[j].wire;
              x in walked && (FitFrom(w, limit, base + pushed, j + 1) ==> x in w.env && Within(w, limit, x, walked[x]))
    {
      if j < |base| {
        assert (base + pushed)[j] == (base + [top])[j];
        FitBoth(w, limit, base, [top], j + 1);
        FitBoth(w, limit, base, pushed, j + 1);
      } else {
        assert (base + pushed)[j] == pushed[j - |base|];
        FitBoth(w, limit, base, pushed, 0);
      }
    }
  }

  lemma {:induction false} ReplaceDescends(w: World, limit: nat, walked: map<string, nat>, base: seq<Job>, top: Job,
      pushed: seq<Job>)
    requires Ranked(w) && AllKnown(w, base + [top]) && AllKnown(w, pushed) && JobKnown(w, top)
    requires Descends(w, base + [top]) && PushOk(w, limit, walked, top, pushed)
    ensures AllKnown(w, base + pushed) && Descends(w, base + pushed)
  {
    KnownBoth(w, base, [top]);
    KnownBoth(w, base, pushed);
    hide JobKnown, Ranked, FitFrom, Reach, Within, ExitsOk, JobLevel;
    var s, r := base + [top], base + pushed;
    assert s[|base|] == top;
    assert forall k :: 0 <= k < |base| ==> s[k] == base[k] && r[k] == base[k];
    assert forall k :: |base| <= k < |r| ==> r[k] == pushed[k - |base|];
    forall j, k | 0 <= j < k < |r| && r[j].Exit?
      ensures JobKnown(w, r[k]) && JobKnown(w, r[j]) && r[j].wire in w.rank && JobLevel(w, r[k]) <= w.rank[r[j].wire]
    {
      ExitKnown(w, r[j]);
      if k < |base| {
        assert JobLevel(w, s[k]) <= w.rank[s[j].wire];
      } else if j < |base| {
        assert JobLevel(w, s[|base|]) <= w.rank[s[j].wire];
        assert JobLevel(w, pushed[k - |base|]) <= JobLevel(w, top);
      } else {
        assert r[j] == pushed[j - |base|] && r[k] == pushed[k - |base|];
      }
    }
  }

  lemma {:induction false} ExitKnown(w: World, job: Job)
    requires JobKnown(w, job) && job.Exit?
    ensures job.wire in w.env && job.wire in w.rank
  {
  }

  // ---------------------------------------------------------------------------
  // What each kind of occurrence pushes

  /** The fields in reverse, so that the first is visited next. */
  function FieldJobs(fs: seq<Member>, depth: nat): seq<Job> {
    if fs == [] then [] else FieldJobs(fs[1..], depth) + [Frame(fs[0].typ, depth)]
  }

  lemma {:induction false} FieldJobsFit(w: World, limit: nat, fs: seq<Member>, depth: nat)
    requires Ranked(w) && MembersKnown(w, fs) && depth >= 1
    ensures AllKnown(w, FieldJobs(fs, depth))
    ensures forall k :: 0 <= k < |FieldJobs(fs, depth)| ==>
              && FieldJobs(fs, depth)[k].Frame?
              && Reach(w, FieldJobs(fs, depth)[k]) <= depth - 1 + MembersHeight(w, fs)
              && JobLevel(w, FieldJobs(fs, depth)[k]) <= MembersLevel(w, fs)
    ensures FitFrom(w, limit, FieldJobs(fs, depth), 0) ==> fs == [] || depth - 1 + MembersHeight(w, fs) <= limit
    decreases |fs|
  {
    hide Ranked, Known, Height, Level;
    if fs != [] {
      var rest, one := FieldJobs(fs[1..], depth), Frame(fs[0].typ, depth);
      FieldJobsFit(w, limit, fs[1..], depth);
      FitOne(w, limit, one);
      FitBoth(w, limit, rest, [one], 0);
      assert forall k :: 0 <= k < |rest| ==> (rest + [one])[k] == rest[k];
    }
  }

  lemma {:induction false} PushNothing(w: World, limit: nat, walked: map<string, nat>, top: Job)
    requires Ranked(w) && JobKnown(w, top) && Reach(w, top) <= limit
    ensures AllKnown(w, []) && PushOk(w, limit, walked, top, [])
  {
    hide Ranked, JobKnown, Reach;
  }

  lemma {:induction false} FramesOnly(w: World, limit: nat, walked: map<string, nat>, jobs: seq<Job>)
    requires Ranked(w) && AllKnown(w, jobs) && forall k :: 0 <= k < |jobs| ==> jobs[k].Frame?
    ensures ExitsOk(w, limit, walked, jobs) && Descends(w, jobs)
  {
  }

  lemma {:induction false} PushElement(w: World, limit: nat, walked: map<string, nat>, t: TypeExpr, depth: nat)
    requires Ranked(w) && Known(w, t) && depth >= 1 && t.ListOf?
    ensures var pushed := [Frame(t.elem, depth + 1)];
            AllKnown(w, pushed) && PushOk(w, limit, walked, Frame(t, depth), pushed)
  {
    var one := Frame(t.elem, depth + 1);
    assert Reach(w, Frame(t, depth)) == Reach(w, one) && JobLevel(w, one) == JobLevel(w, Frame(t, depth));
    FitOne(w, limit, one);
    FramesOnly(w, limit, walked, [one]);
  }

  lemma {:induction false} PushFields(w: World, limit: nat, walked: map<string, nat>, t: TypeExpr, depth: nat)
    requires Ranked(w) && Known(w, t) && 1 <= depth <= limit && t.Record?
    ensures var pushed := FieldJobs(t.fields, depth + 1);
            AllKnown(w, pushed) && PushOk(w, limit, walked, Frame(t, depth), pushed)
  {
    FieldJobsFit(w, limit, t.fields, depth + 1);
    FramesOnly(w, limit, walked, FieldJobs(t.fields, depth + 1));
    assert t.fields == [] ==> MembersHeight(w, t.fields) == 0;
    assert Reach(w, Frame(t, depth)) == depth + MembersHeight(w, t.fields);
  }

  lemma {:induction false} PushDeclaration(w: World, limit: nat, walked: map<string, nat>, t: TypeExpr, depth: nat)
    requires Ranked(w) && Known(w, t) && 1 <= depth && t.Named? && t.name.lit in walked
    requires walked[t.name.lit] == depth + 1
    ensures var pushed := [Exit(t.name.lit), Frame(w.env[t.name.lit], depth + 1)];
            AllKnown(w, pushed) && PushOk(w, limit, walked, Frame(t, depth), pushed)
  {
    var n := t.name.lit;
    var one := Frame(w.env[n], depth + 1);
    var pushed := [Exit(n), one];
    assert pushed[0] == Exit(n) && pushed[1] == one;
    assert Reach(w, Frame(t, depth)) == Reach(w, one);
    assert AllKnown(w, pushed);
    assert FitFrom(w, limit, pushed, 1) ==> Reach(w, pushed[1]) <= limit;
  }

  // ---------------------------------------------------------------------------
  // Termination: every visit replaces an occurrence by smaller ones

  ghost function Size(w: World, t: TypeExpr): (n: nat)
    requires Ranked(w) && Known(w, t)
    ensures n >= 1
    decreases Level(w, t), t
  {
    match t
    case Primitive(_, _) => 1
    case Named(_, name) => 2 + Size(w, w.env[name.lit])
    case ListOf(_, _, elem) => 1 + Size(w, elem)
    case Record(_, _, _, fields, _) => 1 + MembersSize(w, fields)
  }

  ghost function MembersSize(w: World, fs: seq<Member>): nat
    requires Ranked(w) && MembersKnown(w, fs)
    decreases MembersLevel(w, fs), fs
  {
    if fs == [] then 0 else Size(w, fs[0].typ) + MembersSize(w, fs[1..])
  }

  ghost function JobSize(w: World, job: Job): nat
    requires Ranked(w) && JobKnown(w, job)
  {
    match job
    case Frame(t, _) => Size(w, t)
    case Exit(_) => 1
  }

  ghost function StackSize(w: World, stack: seq<Job>): nat
    requires Ranked(w) && AllKnown(w, stack)
  {
    if stack == [] then 0
    else
      assert AllKnown(w, stack[..|stack| - 1]);
      JobSize(w, stack[|stack| - 1]) + StackSize(w, stack[..|stack| - 1])
  }

  lemma {:induction false} SizeBoth(w: World, a: seq<Job>, b: seq<Job>)
    requires Ranked(w) && AllKnown(w, a) && AllKnown(w, b)
    ensures AllKnown(w, a + b) && StackSize(w, a + b) == StackSize(w, a) + StackSize(w, b)
    decreases |b|
  {
    KnownBoth(w, a, b);
    hide Ranked, JobKnown, JobSize;
    if b == [] {
      assert a + b == a;
    } else {
      var n := |b| - 1;
      assert AllKnown(w, b[..n]);
      SizeBoth(w, a, b[..n]);
      assert (a + b)[..|a + b| - 1] == a + b[..n];
    }
  }

  lemma {:induction false} SizeOne(w: World, job: Job)
    requires Ranked(w) && JobKnown(w, job)
    ensures AllKnown(w, [job]) && StackSize(w, [job]) == JobSize(w, job)
  {
    hide Ranked, JobKnown, JobSize;
    assert [job][..0] == [];
  }

  lemma {:induction false} FieldJobsSize(w: World, fs: seq<Member>, depth: nat)
    requires Ranked(w) && MembersKnown(w, fs) && depth >= 1
    ensures AllKnown(w, FieldJobs(fs, depth)) && StackSize(w, FieldJobs(fs, depth)) == MembersSize(w, fs)
    decreases |fs|
  {
    hide Ranked, Known, Size;
    if fs != [] {
      FieldJobsSize(w, fs[1..], depth);
      SizeOne(w, Frame(fs[0].typ, depth));
      SizeBoth(w, FieldJobs(fs[1..], depth), [Frame(fs[0].typ, depth)]);
    }
  }

  // ---------------------------------------------------------------------------
  // The memoised walk

  lemma {:induction false} WalkedGrows(w: World, limit: nat, walked: map<string, nat>, stack: seq<Job>, n: string,
      depth: nat)
    requires Ranked(w) && AllKnown(w, stack) && ExitsOk(w, limit, walked, stack) && n !in Exits(stack)
    ensures ExitsOk(w, limit, walked[n := depth], stack)
  {
    hide Ranked, JobKnown, FitFrom, Within;
  }

  lemma {:induction false} TopIsNew(w: World, base: seq<Job>, top: Job)
    requires AllKnown(w, base + [top]) && Descends(w, base + [top])
    ensures JobKnown(w, top) && AllKnown(w, base) && Descends(w, base)
    ensures forall n :: n in Exits(base) ==> n in w.rank && JobLevel(w, top) <= w.rank[n]
  {
    KnownBoth(w, base, [top]);
    var s := base + [top];
    assert s[|base|] == top && forall k :: 0 <= k < |base| ==> s[k] == base[k];
    assert [top][0] == top;
    hide JobLevel;
    forall n | n in Exits(base)
      ensures n in w.rank && JobLevel(w, top) <= w.rank[n]
    {
      var j :| 0 <= j < |base| && base[j].Exit? && base[j].wire == n;
      assert JobLevel(w, s[|base|]) <= w.rank[s[j].wire];
    }
  }

  lemma {:induction false} ExitsPush(a: seq<Job>, b: seq<Job>)
    ensures Exits(a + b) == Exits(a) + Exits(b)
  {
    var s := a + b;
    assert forall k :: 0 <= k < |a| ==> s[k] == a[k];
    assert forall k :: 0 <= k < |b| ==> s[|a| + k] == b[k];
    forall n | n in Exits(s)
      ensures n in Exits(a) + Exits(b)
    {
      var j :| 0 <= j < |s| && s[j].Exit? && s[j].wire == n;
      if j >= |a| {
        assert s[j] == b[j - |a|];
      }
    }
    forall n | n in Exits(b)
      ensures n in Exits(s)
    {
      var j :| 0 <= j < |b| && b[j].Exit? && b[j].wire == n;
      assert s[|a| + j].wire == n;
    }
  }

  lemma {:induction false} ExitsNone(jobs: seq<Job>)
    requires forall k :: 0 <= k < |jobs| ==> jobs[k].Frame?
    ensures Exits(jobs) == {}
  {
  }

  /** The state of a walk from a root of height `h`. */
  ghost predicate WalkOk(w: World, limit: nat, walked: map<string, nat>, stack: seq<Job>, h: nat)
    requires Ranked(w)
  {
    StackOk(w, limit, walked, stack, h) && MemoOk(w, limit, walked, Exits(stack))
  }

  ghost predicate StackOk(w: World, limit: nat, walked: map<string, nat>, stack: seq<Job>, h: nat)
    requires Ranked(w)
  {
    && AllKnown(w, stack) && ExitsOk(w, limit, walked, stack) && Descends(w, stack)
    && (FitFrom(w, limit, stack, 0) ==> h <= limit)
    && (forall k :: 0 <= k < |stack| ==> Reach(w, stack[k]) <= h)
  }

  lemma {:induction false} WalkStarts(w: World, limit: nat, walked: map<string, nat>, root: TypeExpr)
    requires Ranked(w) && Known(w, root) && MemoOk(w, limit, walked, {})
    ensures WalkOk(w, limit, walked, [Frame(root, 1)], Height(w, root))
  {
    FitOne(w, limit, Frame(root, 1));
    FramesOnly(w, limit, walked, [Frame(root, 1)]);
    ExitsNone([Frame(root, 1)]);
  }

  lemma {:induction false} WalkSteps(w: World, limit: nat, walked: map<string, nat>, base: seq<Job>, top: Job,
      pushed: seq<Job>, h: nat)
    requires Ranked(w) && StackOk(w, limit, walked, base + [top], h) && JobKnown(w, top) && AllKnown(w, pushed)
    requires PushOk(w, limit, walked, top, pushed)
    ensures StackOk(w, limit, walked, base + pushed, h)
  {
    TopIsNew(w, base, top);
    ReplaceTop(w, limit, walked, base, top, pushed);
    ReplaceDescends(w, limit, walked, base, top, pushed);
    hide Ranked, JobKnown, Reach, FitFrom, ExitsOk, Descends, MemoOk, AllKnown;
    var s, r := base + [top], base + pushed;
    assert s[|base|] == top;
    forall k | 0 <= k < |r|
      ensures JobKnown(w, r[k]) && Reach(w, r[k]) <= h
    {
      EachKnown(w, r, k);
      if k < |base| {
        assert r[k] == s[k];
      } else {
        assert r[k] == pushed[k - |base|];
      }
    }
  }

  lemma {:induction false} EachKnown(w: World, stack: seq<Job>, k: nat)
    requires AllKnown(w, stack) && k < |stack|
    ensures JobKnown(w, stack[k])
  {
  }

  /** The end of a declaration: everything above it fitted. */
  lemma {:induction false} ExitStep(w: World, limit: nat, walked: map<string, nat>, base: seq<Job>, n: string, h: nat)
    requires Ranked(w) && WalkOk(w, limit, walked, base + [Exit(n)], h)
    ensures WalkOk(w, limit, walked, base, h) && Exits(base) == Exits(base + [Exit(n)]) - {n}
  {
    var top, s := Exit(n), base + [Exit(n)];
    TopIsNew(w, base, top);
    ExitsPush(base, [top]);
    assert Exits([top]) == {n} by { assert [top][0] == top; }
    assert s[|base|] == top;
    assert FitFrom(w, limit, s, |base| + 1);
    assert Within(w, limit, n, walked[n]);
    assert n !in Exits(base);
    PushNothing(w, limit, walked, top);
    assert base + [] == base;
    hide Ranked, JobKnown, Reach, FitFrom, ExitsOk, Descends, Within, AllKnown, PushOk, Exits;
    WalkSteps(w, limit, walked, base, top, [], h);
  }

  /** An occurrence that pushes only occurrences. */
  lemma {:induction false} PlainStep(w: World, limit: nat, walked: map<string, nat>, base: seq<Job>, top: Job,
      pushed: seq<Job>, h: nat)
    requires Ranked(w) && WalkOk(w, limit, walked, base + [top], h) && JobKnown(w, top) && AllKnown(w, pushed)
    requires top.Frame?
    requires PushOk(w, limit, walked, top, pushed) && forall k :: 0 <= k < |pushed| ==> pushed[k].Frame?
    ensures WalkOk(w, limit, walked, base + pushed, h) && Exits(base + pushed) == Exits(base + [top])
  {
    ExitsNone([top]);
    ExitsNone(pushed);
    ExitsPush(base, [top]);
    ExitsPush(base, pushed);
    hide Ranked, JobKnown, Reach, FitFrom, ExitsOk, Descends, AllKnown, PushOk, Exits;
    WalkSteps(w, limit, walked, base, top, pushed, h);
  }

  lemma {:induction false} SkipStep(w: World, limit: nat, walked: map<string, nat>, base: seq<Job>, t: TypeExpr,
      depth: nat, h: nat)
    requires Ranked(w) && WalkOk(w, limit, walked, base + [Frame(t, depth)], h) && Known(w, t) && depth >= 1 && t.Named?
    requires t.name.lit !in Exits(base + [Frame(t, depth)])
    requires t.name.lit in walked && walked[t.name.lit] >= depth + 1
    ensures WalkOk(w, limit, walked, base, h) && Exits(base) == Exits(base + [Frame(t, depth)])
  {
    var top := Frame(t, depth);
    assert Within(w, limit, t.name.lit, walked[t.name.lit]);
    assert Reach(w, top) <= limit;
    PushNothing(w, limit, walked, top);
    assert base + [] == base;
    hide WalkOk, PushOk, Ranked, Known, Reach;
    PlainStep(w, limit, walked, base, top, [], h);
  }

  lemma {:induction false} NotOnPath(w: World, limit: nat, walked: map<string, nat>, base: seq<Job>, t: TypeExpr,
      depth: nat, h: nat)
    requires Ranked(w) && WalkOk(w, limit, walked, base + [Frame(t, depth)], h) && Known(w, t) && t.Named?
    ensures t.name.lit !in Exits(base + [Frame(t, depth)])
  {
    TopIsNew(w, base, Frame(t, depth));
    ExitsPush(base, [Frame(t, depth)]);
    ExitsNone([Frame(t, depth)]);
  }

  lemma {:induction false} DeclarationStep(w: World, limit: nat, walked: map<string, nat>, base: seq<Job>, t: TypeExpr,
      depth: nat, h: nat)
    requires Ranked(w) && WalkOk(w, limit, walked, base + [Frame(t, depth)], h) && Known(w, t) && depth >= 1 && t.Named?
    requires t.name.lit !in Exits(base + [Frame(t, depth)])
    ensures var n := t.name.lit; var pushed := [Exit(n), Frame(w.env[n], depth + 1)];
            && WalkOk(w, limit, walked[n := depth + 1], base + pushed, h)
            && Exits(base + pushed) == Exits(base + [Frame(t, depth)]) + {n}
  {
    var n, top := t.name.lit, Frame(t, depth);
    var pushed := [Exit(n), Frame(w.env[n], depth + 1)];
    var walked' := walked[n := depth + 1];
    WalkedGrows(w, limit, walked, base + [top], n, depth + 1);
    PushDeclaration(w, limit, walked', t, depth);
    ExitsPush(base, [top]);
    ExitsNone([top]);
    ExitsPush(base, pushed);
    assert Exits(pushed) == {n} by { assert pushed[0] == Exit(n) && pushed[1].Frame?; }
    assert MemoOk(w, limit, walked', Exits(base + pushed));
    assert StackOk(w, limit, walked', base + [top], h);
    hide Ranked, Known, Reach, FitFrom, ExitsOk, Descends, AllKnown, PushOk, Exits, StackOk, MemoOk;
    WalkSteps(w, limit, walked', base, top, pushed, h);
  }

  lemma {:induction false} TooDeep(w: World, limit: nat, walked: map<string, nat>, base: seq<Job>, t: TypeExpr,
      depth: nat, h: nat)
    requires Ranked(w) && WalkOk(w, limit, walked, base + [Frame(t, depth)], h) && depth > limit
    ensures h > limit
  {
    var s := base + [Frame(t, depth)];
    assert s[|base|] == Frame(t, depth);
    assert JobKnown(w, s[|base|]) && Reach(w, s[|base|]) <= h;
  }

  lemma {:induction false} TopKnown(w: World, limit: nat, walked: map<string, nat>, base: seq<Job>, top: Job, h: nat)
    requires Ranked(w) && WalkOk(w, limit, walked, base + [top], h)
    ensures JobKnown(w, top) && AllKnown(w, base) && AllKnown(w, base + [top])
    ensures StackSize(w, base + [top]) == StackSize(w, base) + JobSize(w, top)
  {
    KnownBoth(w, base, [top]);
    assert [top][0] == top;
    SizeOne(w, top);
    SizeBoth(w, base, [top]);
  }

  lemma {:induction false} SizesFall(w: World, base: seq<Job>, t: TypeExpr, depth: nat)
    requires Ranked(w) && AllKnown(w, base) && Known(w, t) && depth >= 1
    ensures JobSize(w, Frame(t, depth)) >= 1
    ensures t.ListOf? ==> AllKnown(w, base + [Frame(t.elem, depth + 1)])
                          && StackSize(w, base + [Frame(t.elem, depth + 1)]) <
                             StackSize(w, base) + JobSize(w, Frame(t, depth))
    ensures t.Record? ==> AllKnown(w, base + FieldJobs(t.fields, depth + 1))
                          && StackSize(w, base + FieldJobs(t.fields, depth + 1)) <
                             StackSize(w, base) + JobSize(w, Frame(t, depth))
    ensures t.Named? ==> var pushed := [Exit(t.name.lit), Frame(w.env[t.name.lit], depth + 1)];
                         AllKnown(w, base + pushed) && StackSize(w, base + pushed) <
                             StackSize(w, base) + JobSize(w, Frame(t, depth))
  {
    match t
    case ListOf(_, _, elem) =>
      SizeOne(w, Frame(elem, depth + 1));
      SizeBoth(w, base, [Frame(elem, depth + 1)]);
    case Record(_, _, _, fields, _) =>
      FieldJobsSize(w, fields, depth + 1);
      SizeBoth(w, base, FieldJobs(fields, depth + 1));
    case Named(_, name) => NamedFalls(w, base, name.lit, depth);
    case _ =>
  }

  lemma {:induction false} NamedFalls(w: World, base: seq<Job>, n: string, depth: nat)
    requires Ranked(w) && AllKnown(w, base) && n in w.env
    ensures var pushed := [Exit(n), Frame(w.env[n], depth + 1)];
            AllKnown(w, base + pushed) && StackSize(w, base + pushed) == StackSize(w, base) + 1 + Size(w, w.env[n])
  {
    var a, b := Exit(n), Frame(w.env[n], depth + 1);
    assert JobKnown(w, a) && JobKnown(w, b);
    SizeOne(w, a);
    SizeOne(w, b);
    SizeBoth(w, [a], [b]);
    assert [a] + [b] == [a, b];
    SizeBoth(w, base, [a, b]);
  }

  /** The memo and the path that one file's walks share. */
  class DepthState {
    const types: map<string, TypeExpr>
    const limit: nat
    var maxWalked: map<string, nat>
    var gray: set<string>

    constructor (types: map<string, TypeExpr>, limit: nat)
      ensures this.types == types && this.limit == limit && maxWalked == map[] && gray == {}
    {
      this.types, this.limit, maxWalked, gray := types, limit, map[], {};
    }

    /** `walk`: the root fits, and then everything the walk learned fits. */
    method Walk(ghost w: World, root: TypeExpr) returns (ok: bool)
      requires Ranked(w) && w.env == types && Known(w, root) && gray == {} && MemoOk(w, limit, maxWalked, {})
      modifies this
      ensures ok <==> Height(w, root) <= limit
      ensures ok ==> gray == {} && MemoOk(w, limit, maxWalked, {})
    {
      hide Ranked, WalkOk, PushOk, AllKnown, Exits, Size, Height, Known, Level, StackSize, FieldJobs, MemoOk;
      var stack := [Frame(root, 1)];
      ghost var h := Height(w, root);
      WalkStarts(w, limit, maxWalked, root);
      FrameOnly(root);
      StartKnown(w, root);
      while stack != []
        invariant AllKnown(w, stack) && WalkOk(w, limit, maxWalked, stack, h) && gray == Exits(stack)
        decreases StackSize(w, stack)
      {
        var top, base := stack[|stack| - 1], stack[..|stack| - 1];
        assert stack == base + [top];
        TopKnown(w, limit, maxWalked, base, top, h);
        match top {
          case Exit(wire) =>
            ExitStep(w, limit, maxWalked, base, wire, h);
            gray := gray - {wire};
            stack := base;
          case Frame(t, depth) =>
            if depth > limit {
              TooDeep(w, limit, maxWalked, base, t, depth, h);
              return false;
            }
            SizesFall(w, base, t, depth);
            match t {
              case Primitive(_, _) =>
                PrimitiveStep(w, limit, maxWalked, base, t, depth, h);
                stack := base;
              case ListOf(_, _, elem) =>
                PushElement(w, limit, maxWalked, t, depth);
                PlainStep(w, limit, maxWalked, base, top, [Frame(elem, depth + 1)], h);
                stack := base + [Frame(elem, depth + 1)];
              case Record(_, _, _, fields, _) =>
                PushFields(w, limit, maxWalked, t, depth);
                FieldsAreFrames(fields, depth + 1);
                PlainStep(w, limit, maxWalked, base, top, FieldJobs(fields, depth + 1), h);
                stack := PushFieldJobs(base, fields, depth + 1);
              case Named(_, name) =>
                NamedKnown(w, t);
                NotOnPath(w, limit, maxWalked, base, t, depth, h);
                var n := name.lit;
                if n in gray {
                  return true;
                }
                if n in maxWalked && maxWalked[n] >= depth + 1 {
                  SkipStep(w, limit, maxWalked, base, t, depth, h);
                  stack := base;
                } else {
                  DeclarationStep(w, limit, maxWalked, base, t, depth, h);
                  maxWalked := maxWalked[n := depth + 1];
                  gray := gray + {n};
                  stack := base + [Exit(n), Frame(types[n], depth + 1)];
                }
            }
        }
      }
      WalkEnds(w, limit, maxWalked, h);
      return true;
    }
  }

  method PushFieldJobs(base: seq<Job>, fs: seq<Member>, depth: nat) returns (stack: seq<Job>)
    ensures stack == base + FieldJobs(fs, depth)
  {
    stack := base;
    var i := |fs|;
    while i > 0
      invariant 0 <= i <= |fs| && stack == base + FieldJobs(fs[i..], depth)
    {
      i := i - 1;
      assert fs[i..][1..] == fs[i + 1..];
      stack := stack + [Frame(fs[i].typ, depth)];
    }
    assert fs[0..] == fs;
  }

  lemma {:induction false} FieldsAreFrames(fs: seq<Member>, depth: nat)
    ensures forall k :: 0 <= k < |FieldJobs(fs, depth)| ==> FieldJobs(fs, depth)[k].Frame?
    decreases |fs|
  {
    if fs != [] {
      FieldsAreFrames(fs[1..], depth);
    }
  }

  lemma {:induction false} FrameOnly(t: TypeExpr)
    ensures Exits([Frame(t, 1)]) == {}
  {
  }

  lemma {:induction false} StartKnown(w: World, t: TypeExpr)
    requires Known(w, t)
    ensures AllKnown(w, [Frame(t, 1)])
  {
  }

  lemma {:induction false} NamedKnown(w: World, t: TypeExpr)
    requires Known(w, t) && t.Named?
    ensures t.name.lit in w.env
  {
  }

  lemma {:induction false} PrimitiveStep(w: World, limit: nat, walked: map<string, nat>, base: seq<Job>, t: TypeExpr,
      depth: nat, h: nat)
    requires Ranked(w) && WalkOk(w, limit, walked, base + [Frame(t, depth)], h) && 1 <= depth <= limit && t.Primitive?
    ensures WalkOk(w, limit, walked, base, h) && Exits(base) == Exits(base + [Frame(t, depth)])
  {
    PushNothing(w, limit, walked, Frame(t, depth));
    assert base + [] == base;
    hide WalkOk, PushOk, Ranked;
    PlainStep(w, limit, walked, base, Frame(t, depth), [], h);
  }

  lemma {:induction false} WalkEnds(w: World, limit: nat, walked: map<string, nat>, h: nat)
    requires Ranked(w) && WalkOk(w, limit, walked, [], h)
    ensures h <= limit && MemoOk(w, limit, walked, {}) && Exits([]) == {}
  {
    assert Exits([]) == {};
  }

  // ---------------------------------------------------------------------------
  // The plain walk

  /** An occurrence with the names on its own path. */
  datatype Visit = Visit(t: TypeExpr, depth: nat, active: set<string>)

  datatype Verdict = Accepted | TooLong | Recursive

  function Jobs(visits: seq<Visit>): (r: seq<Job>)
    ensures |r| == |visits| && forall k :: 0 <= k < |visits| ==> r[k] == Frame(visits[k].t, visits[k].depth)
  {
    seq(|visits|, k requires 0 <= k < |visits| => Frame(visits[k].t, visits[k].depth))
  }

  /** The names on the path of every occurrence rank above it. */
  predicate PathsOk(w: World, visits: seq<Visit>) {
    forall k :: 0 <= k < |visits| ==> PathOk(w, visits[k])
  }

  predicate PathOk(w: World, v: Visit) {
    Known(w, v.t) && forall n :: n in v.active ==> n in w.rank && Level(w, v.t) <= w.rank[n]
  }

  function FieldVisits(fs: seq<Member>, depth: nat, active: set<string>): seq<Visit> {
    if fs == [] then [] else FieldVisits(fs[1..], depth, active) + [Visit(fs[0].typ, depth, active)]
  }

  lemma {:induction false} FieldVisitJobs(w: World, fs: seq<Member>, depth: nat, active: set<string>)
    requires MembersKnown(w, fs) && forall n :: n in active ==> n in w.rank && MembersLevel(w, fs) <= w.rank[n]
    ensures Jobs(FieldVisits(fs, depth, active)) == FieldJobs(fs, depth) && PathsOk(w, FieldVisits(fs, depth, active))
    decreases |fs|
  {
    hide Known, Level;
    if fs != [] {
      FieldVisitJobs(w, fs[1..], depth, active);
    }
  }

  method PushFieldVisits(base: seq<Visit>, fs: seq<Member>, depth: nat, active: set<string>) returns (stack: seq<Visit>)
    ensures stack == base + FieldVisits(fs, depth, active)
  {
    stack := base;
    var i := |fs|;
    while i > 0
      invariant 0 <= i <= |fs| && stack == base + FieldVisits(fs[i..], depth, active)
    {
      i := i - 1;
      assert fs[i..][1..] == fs[i + 1..];
      stack := stack + [Visit(fs[i].typ, depth, active)];
    }
    assert fs[0..] == fs;
  }

  lemma {:induction false} JobsBoth(a: seq<Visit>, b: seq<Visit>)
    ensures Jobs(a + b) == Jobs(a) + Jobs(b)
  {
  }

  lemma {:induction false} FollowName(w: World, limit: nat, t: TypeExpr, depth: nat)
    requires Ranked(w) && Known(w, t) && depth >= 1 && t.Named?
    ensures t.name.lit in w.env
    ensures var pushed := [Frame(w.env[t.name.lit], depth + 1)];
            AllKnown(w, pushed) && PushOk(w, limit, map[], Frame(t, depth), pushed)
  {
    var one := Frame(w.env[t.name.lit], depth + 1);
    assert Reach(w, Frame(t, depth)) == Reach(w, one);
    FitOne(w, limit, one);
    FramesOnly(w, limit, map[], [one]);
  }

  /** Replacing the top occurrence by the occurrences it stands for. */
  lemma {:induction false} VisitStep(w: World, limit: nat, base: seq<Visit>, top: Visit, pushed: seq<Visit>, h: nat)
    requires Ranked(w) && WalkOk(w, limit, map[], Jobs(base + [top]), h) && Known(w, top.t) && top.depth >= 1
    requires AllKnown(w, Jobs(pushed)) && PushOk(w, limit, map[], Frame(top.t, top.depth), Jobs(pushed))
    requires PathsOk(w, base + [top]) && PathsOk(w, pushed)
    ensures WalkOk(w, limit, map[], Jobs(base + pushed), h) && PathsOk(w, base + pushed)
  {
    hide Ranked, WalkOk, PushOk, AllKnown, Known, PathOk;
    JobsBoth(base, [top]);
    JobsBoth(base, pushed);
    assert Jobs([top]) == [Frame(top.t, top.depth)];
    PlainStep(w, limit, map[], Jobs(base), Frame(top.t, top.depth), Jobs(pushed), h);
    var s, r := base + [top], base + pushed;
    assert forall k :: 0 <= k < |base| ==> s[k] == r[k];
    assert forall k :: |base| <= k < |r| ==> r[k] == pushed[k - |base|];
  }

  lemma {:induction false} FollowPath(w: World, v: Visit, n: string)
    requires Ranked(w) && PathOk(w, v) && v.t.Named? && v.t.name.lit == n
    ensures n !in v.active && n in w.env && PathOk(w, Visit(w.env[n], v.depth + 1, v.active + {n}))
  {
  }

  lemma {:induction false} ElementPath(w: World, v: Visit)
    requires PathOk(w, v) && v.t.ListOf?
    ensures PathOk(w, Visit(v.t.elem, v.depth + 1, v.active))
  {
  }

  lemma {:induction false} FieldPaths(w: World, v: Visit)
    requires PathOk(w, v) && v.t.Record?
    ensures MembersKnown(w, v.t.fields)
    ensures forall n :: n in v.active ==> n in w.rank && MembersLevel(w, v.t.fields) <= w.rank[n]
  {
  }

  lemma {:induction false} VisitKnown(w: World, base: seq<Visit>, top: Visit)
    requires PathsOk(w, base + [top])
    ensures PathOk(w, top) && Known(w, top.t)
  {
    assert (base + [top])[|base|] == top;
  }

  lemma {:induction false} PushOnePath(w: World, v: Visit)
    requires PathOk(w, v)
    ensures PathsOk(w, [v])
  {
  }

  lemma {:induction false} PushPrimitive(w: World, limit: nat, t: TypeExpr, depth: nat)
    requires Ranked(w) && t.Primitive? && 1 <= depth <= limit
    ensures AllKnown(w, []) && PushOk(w, limit, map[], Frame(t, depth), [])
  {
    PushNothing(w, limit, map[], Frame(t, depth));
  }

  lemma {:induction false} VisitTop(w: World, limit: nat, base: seq<Visit>, top: Visit, h: nat)
    requires Ranked(w) && WalkOk(w, limit, map[], Jobs(base + [top]), h)
    ensures top.depth >= 1 && Known(w, top.t) && Jobs(base + [top]) == Jobs(base) + [Frame(top.t, top.depth)]
    ensures AllKnown(w, Jobs(base)) && AllKnown(w, Jobs(base + [top]))
    ensures StackSize(w, Jobs(base + [top])) == StackSize(w, Jobs(base)) + JobSize(w, Frame(top.t, top.depth))
    ensures top.depth > limit ==> h > limit
  {
    hide Ranked, WalkOk, AllKnown, StackSize, JobSize;
    JobsBoth(base, [top]);
    assert Jobs([top]) == [Frame(top.t, top.depth)];
    TopKnown(w, limit, map[], Jobs(base), Frame(top.t, top.depth), h);
    if top.depth > limit {
      TooDeep(w, limit, map[], Jobs(base), top.t, top.depth, h);
    }
  }

  lemma {:induction false} NameSize(w: World, base: seq<Job>, t: TypeExpr, depth: nat)
    requires Ranked(w) && AllKnown(w, base) && Known(w, t) && t.Named?
    ensures t.name.lit in w.env && AllKnown(w, base + [Frame(w.env[t.name.lit], depth + 1)])
    ensures StackSize(w, base + [Frame(w.env[t.name.lit], depth + 1)]) < StackSize(w, base) + Size(w, t)
  {
    var one := Frame(w.env[t.name.lit], depth + 1);
    SizeOne(w, one);
    SizeBoth(w, base, [one]);
  }

  /** `walkRoot`: every path is followed; on a valid interface the recursion error is unreachable. */
  method WalkRoot(ghost w: World, types: map<string, TypeExpr>, root: TypeExpr, active: set<string>, limit: nat)
    returns (r: Verdict)
    requires Ranked(w) && w.env == types && PathOk(w, Visit(root, 1, active))
    ensures r == if Height(w, root) <= limit then Accepted else TooLong
  {
    hide Ranked, WalkOk, PushOk, AllKnown, Size, Height, Known, Level, StackSize, FieldJobs, MemoOk, PathOk, PathsOk,
         Jobs,
         FieldVisits, Exits, JobSize;
    var stack := [Visit(root, 1, active)];
    WalkRootStarts(w, limit, root, active);
    ghost var h := Height(w, root);
    while stack != []
      invariant AllKnown(w, Jobs(stack)) && WalkOk(w, limit, map[], Jobs(stack), h) && PathsOk(w, stack)
      decreases StackSize(w, Jobs(stack))
    {
      var top, base := stack[|stack| - 1], stack[..|stack| - 1];
      assert stack == base + [top];
      VisitTop(w, limit, base, top, h);
      VisitKnown(w, base, top);
      if top.depth > limit {
        return TooLong;
      }
      SizesFall(w, Jobs(base), top.t, top.depth);
      match top.t {
        case Primitive(_, _) =>
          PushPrimitive(w, limit, top.t, top.depth);
          NoVisits(w);
          VisitStep(w, limit, base, top, [], h);
          assert base + [] == base;
          stack := base;
        case ListOf(_, _, elem) =>
          var one := Visit(elem, top.depth + 1, top.active);
          ElementPath(w, top);
          PushOnePath(w, one);
          PushElement(w, limit, map[], top.t, top.depth);
          OneJob(base, one);
          VisitStep(w, limit, base, top, [one], h);
          stack := base + [one];
        case Record(_, _, _, fields, _) =>
          FieldPaths(w, top);
          FieldVisitJobs(w, fields, top.depth + 1, top.active);
          PushFields(w, limit, map[], top.t, top.depth);
          JobsBoth(base, FieldVisits(fields, top.depth + 1, top.active));
          VisitStep(w, limit, base, top, FieldVisits(fields, top.depth + 1, top.active), h);
          stack := PushFieldVisits(base, fields, top.depth + 1, top.active);
        case Named(_, name) =>
          var n := name.lit;
          FollowPath(w, top, n);
          if n in top.active {
            return Recursive;
          }
          var one := Visit(types[n], top.depth + 1, top.active + {n});
          PushOnePath(w, one);
          FollowName(w, limit, top.t, top.depth);
          OneJob(base, one);
          NameFalls(w, Jobs(base), top.t, top.depth);
          VisitStep(w, limit, base, top, [one], h);
          stack := base + [one];
      }
    }
    NoVisits(w);
    WalkEnds(w, limit, map[], h);
    return Accepted;
  }

  lemma {:induction false} NameFalls(w: World, base: seq<Job>, t: TypeExpr, depth: nat)
    requires Ranked(w) && AllKnown(w, base) && Known(w, t) && t.Named? && depth >= 1
    ensures t.name.lit in w.env && AllKnown(w, base + [Frame(w.env[t.name.lit], depth + 1)])
    ensures StackSize(w, base + [Frame(w.env[t.name.lit], depth + 1)]) <
            StackSize(w, base) + JobSize(w, Frame(t, depth))
  {
    NameSize(w, base, t, depth);
  }

  lemma {:induction false} OneJob(base: seq<Visit>, v: Visit)
    ensures Jobs([v]) == [Frame(v.t, v.depth)] && Jobs(base + [v]) == Jobs(base) + [Frame(v.t, v.depth)]
  {
  }

  lemma {:induction false} NoVisits(w: World)
    ensures Jobs([]) == [] && PathsOk(w, [])
  {
  }

  lemma {:induction false} WalkRootStarts(w: World, limit: nat, root: TypeExpr, active: set<string>)
    requires Ranked(w) && PathOk(w, Visit(root, 1, active))
    ensures Known(w, root)
    ensures var stack := [Visit(root, 1, active)];
            AllKnown(w, Jobs(stack)) && WalkOk(w, limit, map[], Jobs(stack), Height(w, root)) && PathsOk(w, stack)
  {
    assert Jobs([Visit(root, 1, active)]) == [Frame(root, 1)];
    WalkStarts(w, limit, map[], root);
  }

  // ---------------------------------------------------------------------------
  // Whole files

  ghost predicate RootFits(w: World, t: TypeExpr, limit: nat) {
    Ranked(w) && Known(w, t) && Height(w, t) <= limit
  }

  ghost predicate RootsFit(w: World, roots: seq<TypeExpr>, limit: nat) {
    forall k :: 0 <= k < |roots| ==> RootFits(w, roots[k], limit)
  }

  /** No resolved path of the interface is longer than the limit. */
  ghost predicate ShallowEnough(ds: seq<Decl>, limit: nat) {
    forall i :: 0 <= i < |ds| ==> RootsFit(WorldOf(ds), RootsOf(ds[i]), limit)
  }

  method TypeTable(ds: seq<Decl>) returns (types: map<string, TypeExpr>)
    ensures types == EnvOf(ds)
  {
    types := map[];
    var i := 0;
    assert ds[..0] == [];
    while i < |ds|
      invariant 0 <= i <= |ds| && types == EnvOf(ds[..i])
    {
      assert ds[..i + 1][..i] == ds[..i];
      if ds[i].TypeDecl? {
        types := types[ds[i].name.lit := ds[i].typ];
      }
      i := i + 1;
    }
    assert ds[..i] == ds;
  }

  lemma {:induction false} RootReady(key: (string, string) -> nat, ds: seq<Decl>, i: nat, k: nat)
    requires Validators.ValidInterface(key, ds) && i < |ds| && k < |RootsOf(ds[i])|
    ensures var w := WorldOf(ds); var t := RootsOf(ds[i])[k];
            Ranked(w) && Known(w, t) && PathOk(w, Visit(t, 1, if ds[i].TypeDecl? then {ds[i].name.lit} else {}))
  {
    hide Ranked, Known, Level, RootsOf;
    ValidRanked(key, ds);
    RootsKnown(key, ds, i, k);
    TableHolds(ds);
  }

  /** `checkSyntaxProjectionDepth`. */
  method CheckDepth(ghost key: (string, string) -> nat, ds: seq<Decl>, limit: nat) returns (ok: bool)
    requires Validators.ValidInterface(key, ds)
    ensures ok <==> ShallowEnough(ds, limit)
  {
    hide Ranked, Known, Height, RootsOf, RootFits, MemoOk;
    var types := TypeTable(ds);
    ghost var w := WorldOf(ds);
    ValidRanked(key, ds);
    var st := new DepthState(types, limit);
    NothingWalked(w, limit);
    var i := 0;
    while i < |ds|
      invariant 0 <= i <= |ds| && fresh(st) && st.types == types && st.limit == limit && st.gray == {}
      invariant MemoOk(w, limit, st.maxWalked, {})
      invariant forall j :: 0 <= j < i ==> RootsFit(w, RootsOf(ds[j]), limit)
    {
      var roots := RootsOf(ds[i]);
      var k := 0;
      while k < |roots|
        invariant 0 <= k <= |roots| && fresh(st) && st.types == types && st.limit == limit && st.gray == {}
        invariant MemoOk(w, limit, st.maxWalked, {})
        invariant forall j :: 0 <= j < k ==> RootFits(w, roots[j], limit)
      {
        RootReady(key, ds, i, k);
        var good := st.Walk(w, roots[k]);
        RootFitsMeans(w, roots[k], limit);
        if !good {
          return false;
        }
        k := k + 1;
      }
      i := i + 1;
    }
    return true;
  }

  lemma {:induction false} NothingWalked(w: World, limit: nat)
    requires Ranked(w)
    ensures MemoOk(w, limit, map[], {})
  {
  }

  lemma {:induction false} RootFitsMeans(w: World, t: TypeExpr, limit: nat)
    requires Ranked(w) && Known(w, t)
    ensures RootFits(w, t, limit) <==> Height(w, t) <= limit
  {
  }

  /** `validateProjectionDepth`: the plain walk gives the same verdict as the memoised one. */
  method ValidateDepth(ghost key: (string, string) -> nat, ds: seq<Decl>, limit: nat) returns (r: Verdict)
    requires Validators.ValidInterface(key, ds)
    ensures r == if ShallowEnough(ds, limit) then Accepted else TooLong
  {
    hide Ranked, Known, Height, RootsOf, RootFits, PathOk;
    var types := TypeTable(ds);
    ghost var w := WorldOf(ds);
    var i := 0;
    while i < |ds|
      invariant 0 <= i <= |ds| && forall j :: 0 <= j < i ==> RootsFit(w, RootsOf(ds[j]), limit)
    {
      var roots := RootsOf(ds[i]);
      var active := if ds[i].TypeDecl? then {ds[i].name.lit} else {};
      var k := 0;
      while k < |roots|
        invariant 0 <= k <= |roots| && forall j :: 0 <= j < k ==> RootFits(w, roots[j], limit)
      {
        RootReady(key, ds, i, k);
        r := WalkRoot(w, types, roots[k], active, limit);
        RootFitsMeans(w, roots[k], limit);
        if r != Accepted {
          return;
        }
        k := k + 1;
      }
      i := i + 1;
    }
    return Accepted;
  }
}
