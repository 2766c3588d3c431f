/** What every update records, over all integer assignments: the assignments the facts
    admit afterwards are those they admitted before that also meet the meaning of the
    operation, no fewer and no more. */
module BoundsRecords {
  import opened Machine
  import opened Primitives
  import opened DifferenceGraph
  import opened BoundsFacts
  import BoundsRuns
  import BoundsSearch
  import opened Sets

  ghost predicate Admits(f: Facts, v: Term -> int) {
    v(Zero) == 0 && Satisfies(f.edges, v)
  }

  /** An assignment of machine integers and lengths. */
  ghost predicate InLimits(v: Term -> int) {
    forall t :: MachineLow(t) <= v(t) <= MachineHigh(t)
  }

  ghost predicate Live(f: Facts, v: Term -> int) {
    InLimits(v) && Admits(f, v)
  }

  predicate Recordable(c: int) {
    -CONST_CAP <= c <= CONST_CAP
  }

  // ----- one edge -----

  /** The budget on terms alone decides poisoning. */
  lemma AddEdgePoisons(f: Facts, a: Term, b: Term, c: int)
    ensures AddEdge(f, a, b, c).poisoned <==>
      f.poisoned || (a != b && Recordable(c) && |Terms(f.edges) + {a, b}| > |Terms(f.edges)| &&
                     |Terms(f.edges) + {a, b}| > TERM_CAP)
  {
    hide Terms;
    if a != b { BoundsSearch.SizeWith(Terms(f.edges), a, b); }
  }

  lemma AddEdgeRecords(f: Facts, a: Term, b: Term, c: int, v: Term -> int)
    requires !AddEdge(f, a, b, c).poisoned
    ensures !f.poisoned
    ensures Admits(AddEdge(f, a, b, c), v) <==> Admits(f, v) && (a != b && Recordable(c) ==> v(a) <= v(b) + c)
  {
    hide Terms;
    var r, e := AddEdge(f, a, b, c), Edge(a, b);
    if a != b && Recordable(c) {
      assert e in r.edges && r.edges[e] <= c;
      if Satisfies(r.edges, v) {
        forall d | d in f.edges ensures v(d.from) <= v(d.to) + f.edges[d] {
          assert d in r.edges && r.edges[d] <= f.edges[d];
        }
        assert v(e.from) <= v(e.to) + r.edges[e];
      }
    }
  }

  lemma AddEqRecords(f: Facts, a: Term, b: Term, c: int, v: Term -> int)
    requires !AddEq(f, a, b, c).poisoned
    ensures !f.poisoned
    ensures Admits(AddEq(f, a, b, c), v) <==> Admits(f, v) && (a != b && Recordable(c) ==> v(a) == v(b) + c)
  {
    hide AddEdge, Admits;
    AddEdgeRecords(AddEdge(f, a, b, c), b, a, -c, v);
    AddEdgeRecords(f, a, b, c, v);
  }

  // ----- the meaning of the queries -----

  ghost predicate NonNegative(f: Facts, t: Term) {
    forall v :: Admits(f, v) ==> v(t) >= 0
  }

  ghost predicate NonPositive(f: Facts, t: Term) {
    forall v :: Admits(f, v) ==> v(t) <= 0
  }

  lemma KnowsSign(f: Facts, t: Term)
    requires Consistent(f) && !f.poisoned
    ensures Knows(f, Zero, t, 0) <==> NonNegative(f, t)
    ensures Knows(f, t, Zero, 0) <==> NonPositive(f, t)
  {
    DerivableIsEntailed(f.edges, Zero, t, 0);
    DerivableIsEntailed(f.edges, t, Zero, 0);
    hide Derivable, Satisfies;
    assert Entailed(f.edges, Zero, t, 0) <==> NonNegative(f, t) by {
      if Entailed(f.edges, Zero, t, 0) {
        forall v | Admits(f, v) ensures v(t) >= 0 { assert v(Zero) <= v(t) + 0; }
      }
      if NonNegative(f, t) {
        forall v: Term -> int | Satisfies(f.edges, v) && v(Zero) == 0 ensures v(Zero) <= v(t) + 0 {
          assert Admits(f, v);
        }
      }
    }
    assert Entailed(f.edges, t, Zero, 0) <==> NonPositive(f, t) by {
      if Entailed(f.edges, t, Zero, 0) {
        forall v | Admits(f, v) ensures v(t) <= 0 { assert v(t) <= v(Zero) + 0; }
      }
      if NonPositive(f, t) {
        forall v: Term -> int | Satisfies(f.edges, v) && v(Zero) == 0 ensures v(t) <= v(Zero) + 0 {
          assert Admits(f, v);
        }
      }
    }
  }

  lemma AdmitsConsistent(f: Facts, v: Term -> int)
    requires Admits(f, v)
    ensures Consistent(f)
  {
    SatisfiableHasNoNegativeCycle(f.edges, v);
  }

  // ----- the meaning of intervals -----

  lemma AboveAll(f: Facts, t: Term, h: int, v: Term -> int)
    requires AtMost(f.edges, t, h) && Live(f, v)
    ensures v(t) <= h
  {
    var w :| IsWalk(f.edges, w) && Start(w) == t && MachineHigh(End(w)) + Weight(f.edges, w) <= h;
    Telescope(f.edges, v, w);
  }

  lemma BelowAll(f: Facts, t: Term, l: int, v: Term -> int)
    requires AtLeast(f.edges, t, l) && Live(f, v)
    ensures l <= v(t)
  {
    var w :| IsWalk(f.edges, w) && End(w) == t && MachineLow(Start(w)) - Weight(f.edges, w) >= l;
    Telescope(f.edges, v, w);
  }

  /** The least bound some walk gives. */
  ghost function Lowered(f: Facts, v: Term -> int, t: Term, h: int): (r: int)
    requires Live(f, v) && AtMost(f.edges, t, h)
    ensures AtMost(f.edges, t, r) && !AtMost(f.edges, t, r - 1)
    decreases h - v(t)
  {
    AboveAll(f, t, h, v);
    if AtMost(f.edges, t, h - 1) then AboveAll(f, t, h - 1, v); Lowered(f, v, t, h - 1) else h
  }

  ghost function Raised(f: Facts, v: Term -> int, t: Term, l: int): (r: int)
    requires Live(f, v) && AtLeast(f.edges, t, l)
    ensures AtLeast(f.edges, t, r) && !AtLeast(f.edges, t, r + 1)
    decreases v(t) - l
  {
    BelowAll(f, t, l, v);
    if AtLeast(f.edges, t, l + 1) then BelowAll(f, t, l + 1, v); Raised(f, v, t, l + 1) else l
  }

  ghost function Top(f: Facts, v: Term -> int, t: Term): int
    requires Live(f, v)
  {
    BoundsSearch.MachineJustified(f.edges, t);
    Lowered(f, v, t, MachineHigh(t))
  }

  ghost function Bottom(f: Facts, v: Term -> int, t: Term): int
    requires Live(f, v)
  {
    BoundsSearch.MachineJustified(f.edges, t);
    Raised(f, v, t, MachineLow(t))
  }

  lemma TopLeast(f: Facts, v: Term -> int, t: Term, h: int)
    requires Live(f, v)
    ensures AtMost(f.edges, t, h) <==> Top(f, v, t) <= h
    ensures v(t) <= Top(f, v, t) <= MachineHigh(t)
  {
    BoundsSearch.IntervalsWeaken(f.edges, t);
    BoundsSearch.MachineJustified(f.edges, t);
    AboveAll(f, t, Top(f, v, t), v);
  }

  lemma BottomGreatest(f: Facts, v: Term -> int, t: Term, l: int)
    requires Live(f, v)
    ensures AtLeast(f.edges, t, l) <==> l <= Bottom(f, v, t)
    ensures MachineLow(t) <= Bottom(f, v, t) <= v(t)
  {
    BoundsSearch.IntervalsWeaken(f.edges, t);
    BoundsSearch.MachineJustified(f.edges, t);
    BelowAll(f, t, Bottom(f, v, t), v);
  }

  /** All upper bounds are attained together. */
  lemma TopLive(f: Facts, v: Term -> int) returns (u: Term -> int)
    requires Live(f, v)
    ensures Live(f, u) && forall t :: u(t) == Top(f, v, t)
  {
    hide AtMost;
    u := t => Top(f, v, t);
    forall t ensures MachineLow(t) <= u(t) <= MachineHigh(t) {
      TopLeast(f, v, t, 0);
    }
    forall e | e in f.edges ensures u(e.from) <= u(e.to) + f.edges[e] {
      TopLeast(f, v, e.to, u(e.to));
      BoundsSearch.NarrowHigh(f.edges, e, u(e.to));
      TopLeast(f, v, e.from, u(e.to) + f.edges[e]);
    }
    assert u(Zero) == 0;
  }

  lemma BottomLive(f: Facts, v: Term -> int) returns (u: Term -> int)
    requires Live(f, v)
    ensures Live(f, u) && forall t :: u(t) == Bottom(f, v, t)
  {
    hide AtLeast;
    u := t => Bottom(f, v, t);
    forall t ensures MachineLow(t) <= u(t) <= MachineHigh(t) {
      BottomGreatest(f, v, t, 0);
    }
    forall e | e in f.edges ensures u(e.from) <= u(e.to) + f.edges[e] {
      BottomGreatest(f, v, e.from, u(e.from));
      BoundsSearch.NarrowLow(f.edges, e, u(e.from));
      BottomGreatest(f, v, e.to, u(e.from) - f.edges[e]);
    }
    assert u(Zero) == 0;
  }

  /** An interval holds exactly the values some live assignment gives or exceeds. */
  lemma IntervalExact(f: Facts, v: Term -> int, t: Term, c: int)
    requires Live(f, v)
    ensures AtMost(f.edges, t, c) <==> forall u :: Live(f, u) ==> u(t) <= c
    ensures AtLeast(f.edges, t, c) <==> forall u :: Live(f, u) ==> c <= u(t)
  {
    hide *;
    var top := TopLive(f, v);
    var bottom := BottomLive(f, v);
    Extremes(f, v, t, c);
    assert Live(f, top) && top(t) == Top(f, v, t);
    assert Live(f, bottom) && bottom(t) == Bottom(f, v, t);
  }

  /** No machine value of `x` the facts admit wraps when the offset is added. */
  ghost predicate SumFits(f: Facts, x: Term, offset: int) {
    forall u :: Live(f, u) ==> FitsI64(u(x) + offset)
  }

  /** No two admitted machine values wrap when they are subtracted. */
  ghost predicate SubtractionFits(f: Facts, x: Term, y: Term) {
    forall u, w :: Live(f, u) && Live(f, w) ==> FitsI64(u(x) - w(y))
  }

  lemma SumFitsExact(f: Facts, v: Term -> int, x: nat, offset: int)
    requires Live(f, v)
    ensures OffsetFits(f.edges, Int(x), offset) <==> SumFits(f, Int(x), offset)
  {
    IntervalExact(f, v, Int(x), I64_MAX - offset);
    IntervalExact(f, v, Int(x), I64_MIN - offset);
    hide AtMost, AtLeast, Admits;
    if OffsetFits(f.edges, Int(x), offset) {
      forall u | Live(f, u) ensures FitsI64(u(Int(x)) + offset) {
        assert MachineLow(Int(x)) <= u(Int(x)) <= MachineHigh(Int(x));
      }
    }
    if SumFits(f, Int(x), offset) {
      forall u | Live(f, u) ensures I64_MIN - offset <= u(Int(x)) <= I64_MAX - offset {
        assert FitsI64(u(Int(x)) + offset);
      }
    }
  }

  lemma DifferenceFitsExact(f: Facts, v: Term -> int, x: Term, y: Term)
    requires Live(f, v)
    ensures DifferenceFits(f.edges, x, y) <==> SubtractionFits(f, x, y)
  {
    hide Live, Top, Bottom, DifferenceFits;
    var top := TopLive(f, v);
    var bottom := BottomLive(f, v);
    DifferenceFitsEnds(f, v, x, y);
    Extremes(f, v, x, 0);
    Extremes(f, v, y, 0);
    assert top(x) == Top(f, v, x) && bottom(x) == Bottom(f, v, x);
    assert top(y) == Top(f, v, y) && bottom(y) == Bottom(f, v, y);
    if DifferenceFits(f.edges, x, y) {
      forall u, w | Live(f, u) && Live(f, w) ensures FitsI64(u(x) - w(y)) {}
    }
    if SubtractionFits(f, x, y) {
      assert FitsI64(bottom(x) - top(y)) && FitsI64(top(x) - bottom(y));
    }
  }

  lemma Extremes(f: Facts, v: Term -> int, t: Term, c: int)
    requires Live(f, v)
    ensures AtMost(f.edges, t, c) <==> Top(f, v, t) <= c
    ensures AtLeast(f.edges, t, c) <==> c <= Bottom(f, v, t)
    ensures forall u :: Live(f, u) ==> Bottom(f, v, t) <= u(t) <= Top(f, v, t)
  {
    TopLeast(f, v, t, c);
    BottomGreatest(f, v, t, c);
    TopLeast(f, v, t, Top(f, v, t));
    BottomGreatest(f, v, t, Bottom(f, v, t));
    hide Live, Top, Bottom, AtMost, AtLeast;
    forall u | Live(f, u) ensures Bottom(f, v, t) <= u(t) <= Top(f, v, t) {
      AboveAll(f, t, Top(f, v, t), u);
      BelowAll(f, t, Bottom(f, v, t), u);
    }
  }

  lemma DifferenceFitsEnds(f: Facts, v: Term -> int, x: Term, y: Term)
    requires Live(f, v)
    ensures DifferenceFits(f.edges, x, y) <==>
      Bottom(f, v, x) - Top(f, v, y) >= I64_MIN && Top(f, v, x) - Bottom(f, v, y) <= I64_MAX
  {
    hide Live, Top, Bottom, AtMost, AtLeast;
    var xt, xb, yt, yb := Top(f, v, x), Bottom(f, v, x), Top(f, v, y), Bottom(f, v, y);
    Extremes(f, v, x, xt);
    Extremes(f, v, x, xb);
    Extremes(f, v, y, yt);
    Extremes(f, v, y, yb);
    if DifferenceFits(f.edges, x, y) {
      var l, h :| AtLeast(f.edges, x, l) && AtMost(f.edges, y, h) && l - h >= I64_MIN;
      Extremes(f, v, x, l);
      Extremes(f, v, y, h);
      var h2, l2 :| AtMost(f.edges, x, h2) && AtLeast(f.edges, y, l2) && h2 - l2 <= I64_MAX;
      Extremes(f, v, x, h2);
      Extremes(f, v, y, l2);
    }
  }

  // ----- the meaning of a binding -----

  ghost predicate KnownMask(f: Facts, mask: Atom) {
    match mask
    case Var(m) => NonNegative(f, Int(m))
    case Num(n) => n == 0
    case OtherLit => false
  }

  function AtomMeans(a: Atom, v: Term -> int): int {
    match a
    case Var(l) => v(Int(l))
    case Num(n) => n
    case OtherLit => 0
  }

  ghost predicate SumMeans(f: Facts, local: nat, a: Atom, b: Atom, subtract: bool, v: Term -> int) {
    match (a, b)
    case (Var(x), Num(n)) =>
      var offset: int := if subtract then 0 - n else n;
      Recordable(offset) && SumFits(f, Int(x), offset) ==> v(Int(local)) == v(Int(x)) + offset
    case (Num(n), Var(x)) => !subtract && Recordable(n) && SumFits(f, Int(x), n) ==> v(Int(local)) == v(Int(x)) + n
    case (Num(m), Num(n)) =>
      var total: int := Wrap(if subtract then m - n else m + n);
      Recordable(total) ==> v(Int(local)) == total
    case (Var(x), Var(y)) => subtract && x == y ==> v(Int(local)) == 0
    case _ => true
  }

  ghost predicate MaskMeans(f: Facts, local: nat, a: Atom, b: Atom, v: Term -> int) {
    if KnownMask(f, b) then 0 <= v(Int(local)) <= AtomMeans(b, v)
    else KnownMask(f, a) ==> 0 <= v(Int(local)) <= AtomMeans(a, v)
  }

  /** The count is not negative, granted that the length is neither negative nor below it. */
  ghost predicate CountNonNegative(f: Facts, local: nat, count: nat) {
    forall v :: Admits(f, v) && 0 <= v(Len(local)) && v(Int(count)) <= v(Len(local)) ==> v(Int(count)) >= 0
  }

  ghost predicate RepeatMeans(f: Facts, local: nat, a: Atom, v: Term -> int) {
    match a
    case Num(n) => Recordable(Max(n, 0)) ==> v(Len(local)) == Max(n, 0)
    case Var(count) =>
      if CountNonNegative(f, local, count) then v(Len(local)) == v(Int(count)) else v(Int(count)) <= v(Len(local))
    case OtherLit => true
  }

  ghost predicate OpMeans(f: Facts, local: nat, op: Prim, args: seq<Atom>, v: Term -> int) {
    match op
    case IntAdd => |args| >= 2 ==> SumMeans(f, local, args[0], args[1], false, v)
    case IntSub => |args| >= 2 ==> SumMeans(f, local, args[0], args[1], true, v)
    case IntAnd => |args| >= 2 ==> MaskMeans(f, local, args[0], args[1], v)
    case IntRem => |args| >= 1 && KnownMask(f, args[0]) ==> v(Int(local)) >= 0
    case ArrayLength => IsVar(args) ==> v(Int(local)) == v(Len(args[0].local)) && v(Int(local)) >= 0
    case ArrayWithCapacity => v(Len(local)) == 0
    case ArrayRepeat => v(Len(local)) >= 0 && (|args| >= 1 ==> RepeatMeans(f, local, args[0], v))
    case ArrayPush | ArrayPushReserved =>
      v(Len(local)) >= 0 && (IsVar(args) ==> v(Len(local)) == v(Len(args[0].local)) + 1)
    case ArraySet | ArrayUnique | ArrayPut => IsVar(args) ==> v(Len(local)) == v(Len(args[0].local))
    case _ => true
  }

  /** What the completion of a checked access says. */
  predicate AccessMeans(op: Prim, args: seq<Atom>, v: Term -> int) {
    (op == ArrayGet || op == ArrayPeek || op == ArraySet) && |args| >= 2 && args[0].Var? ==>
      match args[1]
      case Var(i) => 0 <= v(Int(i)) < v(Len(args[0].local))
      case Num(n) => Recordable(n + 1) ==> n < v(Len(args[0].local))
      case OtherLit => true
  }

  /** What binding `local = value` adds to the facts. */
  ghost predicate LetMeans(f: Facts, local: nat, value: Value, v: Term -> int) {
    match Uncounted(value)
    case Operand(Num(n)) => Recordable(n) ==> v(Int(local)) == n
    case Operand(Var(x)) => v(Int(local)) == v(Int(x)) && v(Len(local)) == v(Len(x))
    case Apply(op, args) => v(Len(local)) >= 0 && OpMeans(f, local, op, args, v) && AccessMeans(op, args, v)
    case Project(Var(b), Some(k)) =>
      b in f.callResults ==> ResultMeans(f.callResults[b].sig, f.callResults[b].args, Field(k, local), v)
    case _ => true
  }

  // ----- signatures -----

  function ParamMeans(t: PTerm, params: seq<nat>, v: Term -> int): Option<int> {
    match t
    case PZero => Some(0)
    case Param(i) => if i < |params| then Some(v(Int(params[i]))) else None
    case LenParam(i) => if i < |params| then Some(v(Len(params[i]))) else None
  }

  /** Every edge of the signature whose ends are parameters of this function. */
  ghost predicate EntryMeans(sig: BoundSig, params: seq<nat>, v: Term -> int) {
    forall i :: 0 <= i < |sig| && Recordable(sig[i].c) ==>
      var a, b := ParamMeans(sig[i].from, params, v), ParamMeans(sig[i].to, params, v);
      a.Some? && b.Some? ==> a.value <= b.value + sig[i].c
  }

  /** Which local holds which component of a result. */
  type Holder = nat -> Option<nat>

  function Whole(local: nat): Holder {
    (j: nat) => if j == WHOLE then Some(local) else None
  }

  function Field(k: nat, local: nat): Holder {
    (j: nat) => if j == k then Some(local) else None
  }

  function Components(locals: seq<nat>): Holder {
    (j: nat) => if j < |locals| then Some(locals[j]) else None
  }

  function ResultTermMeans(t: RTerm, args: seq<Option<nat>>, holder: Holder, v: Term -> int): Option<int> {
    match t
    case RZero => Some(0)
    case RParam(i) => if i < |args| && args[i].Some? then Some(v(Int(args[i].value))) else None
    case RLenParam(i) => if i < |args| && args[i].Some? then Some(v(Len(args[i].value))) else None
    case ResultVal(k) => if holder(k).Some? then Some(v(Int(holder(k).value))) else None
    case ResultLen(k) => if holder(k).Some? then Some(v(Len(holder(k).value))) else None
  }

  /** Every edge of the result signature whose ends are held by locals here. */
  ghost predicate ResultMeans(sig: ResultSig, args: seq<Option<nat>>, holder: Holder, v: Term -> int) {
    forall i :: 0 <= i < |sig| && Recordable(sig[i].c) ==>
      var a, b := ResultTermMeans(sig[i].from, args, holder, v), ResultTermMeans(sig[i].to, args, holder, v);
      a.Some? && b.Some? ==> a.value <= b.value + sig[i].c
  }

  /** Edges from a term to itself are never recorded, and say nothing when some assignment meets them. */
  lemma AddOptionalRecords(f: Facts, a: Option<Term>, b: Option<Term>, c: I64, u: Term -> int, v: Term -> int)
    requires !AddOptional(f, a, b, c).poisoned
    requires a.Some? && b.Some? && Recordable(c) ==> u(a.value) <= u(b.value) + c
    ensures !f.poisoned
    ensures Admits(AddOptional(f, a, b, c), v) <==>
      Admits(f, v) && (a.Some? && b.Some? && Recordable(c) ==> v(a.value) <= v(b.value) + c)
  {
    hide AddEdge, Admits;
    if a.Some? && b.Some? { AddEdgeRecords(f, a.value, b.value, c, v); }
  }

  lemma {:induction false} SeedEntryRecords(f: Facts, sig: BoundSig, params: seq<nat>, u: Term -> int, v: Term -> int)
    requires !SeedEntry(f, sig, params).poisoned
    requires u(Zero) == 0 && v(Zero) == 0 && EntryMeans(sig, params, u)
    ensures !f.poisoned
    ensures Admits(SeedEntry(f, sig, params), v) <==> Admits(f, v) && EntryMeans(sig, params, v)
    decreases |sig|
  {
    hide AddOptional, Admits;
    if sig != [] {
      var n := |sig| - 1;
      var rest := sig[..n];
      assert forall i :: 0 <= i < n ==> rest[i] == sig[i];
      assert EntryMeans(rest, params, u);
      AddOptionalRecords(SeedEntry(f, rest, params), EntryTerm(sig[n].from, params), EntryTerm(sig[n].to, params),
        sig[n].c, u, v);
      SeedEntryRecords(f, rest, params, u, v);
    }
  }

  lemma WholeTermMeans(t: RTerm, local: nat, args: seq<Option<nat>>, v: Term -> int)
    requires v(Zero) == 0
    ensures ResultTerm(t, local, args).Some? <==> ResultTermMeans(t, args, Whole(local), v).Some?
    ensures ResultTerm(t, local, args).Some? ==>
      v(ResultTerm(t, local, args).value) == ResultTermMeans(t, args, Whole(local), v).value
  {
  }

  lemma {:induction false} WholeFactsRecords(f: Facts, local: nat, sig: ResultSig, args: seq<Option<nat>>,
      u: Term -> int, v: Term -> int)
    requires !WholeFacts(f, local, sig, args).poisoned
    requires u(Zero) == 0 && v(Zero) == 0 && ResultMeans(sig, args, Whole(local), u)
    ensures !f.poisoned
    ensures Admits(WholeFacts(f, local, sig, args), v) <==> Admits(f, v) && ResultMeans(sig, args, Whole(local), v)
    decreases |sig|
  {
    hide AddOptional, Admits, ResultTerm, ResultTermMeans, Whole;
    if sig != [] {
      var n := |sig| - 1;
      var rest := sig[..n];
      assert forall i :: 0 <= i < n ==> rest[i] == sig[i];
      assert ResultMeans(rest, args, Whole(local), u);
      WholeTermMeans(sig[n].from, local, args, u);
      WholeTermMeans(sig[n].from, local, args, v);
      WholeTermMeans(sig[n].to, local, args, u);
      WholeTermMeans(sig[n].to, local, args, v);
      AddOptionalRecords(WholeFacts(f, local, rest, args), ResultTerm(sig[n].from, local, args),
        ResultTerm(sig[n].to, local, args), sig[n].c, u, v);
      WholeFactsRecords(f, local, rest, args, u, v);
    }
  }

  lemma FieldTermMeans(t: RTerm, k: nat, local: nat, args: seq<Option<nat>>, v: Term -> int)
    requires v(Zero) == 0
    ensures FieldTerm(t, k, local, args).Some? <==> ResultTermMeans(t, args, Field(k, local), v).Some?
    ensures FieldTerm(t, k, local, args).Some? ==>
      v(FieldTerm(t, k, local, args).value) == ResultTermMeans(t, args, Field(k, local), v).value
  {
  }

  lemma {:induction false} FieldFactsRecords(f: Facts, local: nat, k: nat, sig: ResultSig, args: seq<Option<nat>>,
      u: Term -> int, v: Term -> int)
    requires !FieldFacts(f, local, k, sig, args).poisoned
    requires u(Zero) == 0 && v(Zero) == 0 && ResultMeans(sig, args, Field(k, local), u)
    ensures !f.poisoned
    ensures Admits(FieldFacts(f, local, k, sig, args), v) <==>
      Admits(f, v) && ResultMeans(sig, args, Field(k, local), v)
    decreases |sig|
  {
    hide AddOptional, Admits, FieldTerm, ResultTermMeans, Field;
    if sig != [] {
      var n := |sig| - 1;
      var rest := sig[..n];
      assert forall i :: 0 <= i < n ==> rest[i] == sig[i];
      assert ResultMeans(rest, args, Field(k, local), u);
      FieldTermMeans(sig[n].from, k, local, args, u);
      FieldTermMeans(sig[n].from, k, local, args, v);
      FieldTermMeans(sig[n].to, k, local, args, u);
      FieldTermMeans(sig[n].to, k, local, args, v);
      AddOptionalRecords(FieldFacts(f, local, k, rest, args), FieldTerm(sig[n].from, k, local, args),
        FieldTerm(sig[n].to, k, local, args), sig[n].c, u, v);
      FieldFactsRecords(f, local, k, rest, args, u, v);
    }
  }

  lemma ManyTermMeans(t: RTerm, locals: seq<nat>, args: seq<Option<nat>>, v: Term -> int)
    requires v(Zero) == 0
    ensures ManyTerm(t, locals, args).Some? <==> ResultTermMeans(t, args, Components(locals), v).Some?
    ensures ManyTerm(t, locals, args).Some? ==>
      v(ManyTerm(t, locals, args).value) == ResultTermMeans(t, args, Components(locals), v).value
  {
  }

  lemma {:induction false} TransferManyRecords(f: Facts, locals: seq<nat>, sig: ResultSig, args: seq<Option<nat>>,
      u: Term -> int, v: Term -> int)
    requires !TransferMany(f, locals, sig, args).poisoned
    requires u(Zero) == 0 && v(Zero) == 0 && ResultMeans(sig, args, Components(locals), u)
    ensures !f.poisoned
    ensures Admits(TransferMany(f, locals, sig, args), v) <==>
      Admits(f, v) && ResultMeans(sig, args, Components(locals), v)
    decreases |sig|
  {
    hide AddOptional, Admits, ManyTerm, ResultTermMeans, Components;
    if sig != [] {
      var n := |sig| - 1;
      var rest := sig[..n];
      assert forall i :: 0 <= i < n ==> rest[i] == sig[i];
      assert ResultMeans(rest, args, Components(locals), u);
      ManyTermMeans(sig[n].from, locals, args, u);
      ManyTermMeans(sig[n].from, locals, args, v);
      ManyTermMeans(sig[n].to, locals, args, u);
      ManyTermMeans(sig[n].to, locals, args, v);
      AddOptionalRecords(TransferMany(f, locals, rest, args), ManyTerm(sig[n].from, locals, args),
        ManyTerm(sig[n].to, locals, args), sig[n].c, u, v);
      TransferManyRecords(f, locals, rest, args, u, v);
    }
  }

  /** A call records its whole-result edges at once and the signature for every later projection. */
  lemma TransferCallRecords(f: Facts, local: nat, sig: ResultSig, args: seq<Atom>, u: Term -> int, v: Term -> int)
    requires !TransferCall(f, local, sig, args).poisoned
    requires u(Zero) == 0 && v(Zero) == 0 && ResultMeans(sig, ArgLocals(args), Whole(local), u)
    ensures var r := TransferCall(f, local, sig, args);
      && !f.poisoned && r.conds == f.conds && r.subs == f.subs
      && (Admits(r, v) <==> Admits(f, v) && ResultMeans(sig, ArgLocals(args), Whole(local), v))
      && r.callResults == if exists i :: 0 <= i < |sig| && (IsField(sig[i].from) || IsField(sig[i].to))
           then f.callResults[local := CallResult(sig, ArgLocals(args))] else f.callResults
  {
    WholeFactsRecords(f, local, sig, ArgLocals(args), u, v);
    BoundsRuns.WholeKeepsTables(f, local, sig, ArgLocals(args));
    hide WholeFacts;
  }

  // ----- each binding -----

  lemma AddSubRecords(f: Facts, local: nat, args: seq<Atom>, subtract: bool, u: Term -> int, v: Term -> int)
    requires !AddSub(f, local, args, subtract).poisoned && Live(f, u)
    requires |args| >= 2 ==> SumMeans(f, local, args[0], args[1], subtract, u)
    ensures !f.poisoned
    ensures v(Zero) == 0 ==> (Admits(AddSub(f, local, args, subtract), v) <==>
      Admits(f, v) && (|args| >= 2 ==> SumMeans(f, local, args[0], args[1], subtract, v)))
  {
    hide AddEq, Admits, Live, OffsetFits, DifferenceFits, SumFits, Wrap;
    if |args| >= 2 {
      match (args[0], args[1])
      case (Var(x), Num(n)) => AddOffsetRecords(f, local, x, if subtract then 0 - n else n, u, v);
      case (Num(n), Var(x)) => if !subtract { AddOffsetRecords(f, local, x, n, u, v); }
      case (Num(m), Num(n)) =>
        var total: int := Wrap(if subtract then m - n else m + n);
        AddEqRecords(f, Int(local), Zero, total, v);
      case (Var(x), Var(y)) =>
        if subtract {
          if x == y { AddEqRecords(f, Int(local), Zero, 0, v); }
          else { SameAdmits(f, SubtractVars(f, local, x, y), v); }
        }
      case _ =>
    }
  }

  lemma SameAdmits(f: Facts, g: Facts, v: Term -> int)
    requires f.edges == g.edges
    ensures Admits(f, v) <==> Admits(g, v)
  {
  }

  lemma AddOffsetRecords(f: Facts, local: nat, x: nat, offset: int, u: Term -> int, v: Term -> int)
    requires !AddOffset(f, local, x, offset).poisoned && Live(f, u)
    requires Recordable(offset) && SumFits(f, Int(x), offset) ==> u(Int(local)) == u(Int(x)) + offset
    ensures !f.poisoned
    ensures Admits(AddOffset(f, local, x, offset), v) <==>
      Admits(f, v) && (Recordable(offset) && SumFits(f, Int(x), offset) ==> v(Int(local)) == v(Int(x)) + offset)
  {
    SumFitsExact(f, u, x, offset);
    hide AddEq, Admits, Live, OffsetFits, SumFits;
    if FitsI64(offset) && OffsetFits(f.edges, Int(x), offset) {
      AddEqRecords(f, Int(local), Int(x), offset, v);
      if x == local && Recordable(offset) { assert offset == 0; }
    }
  }

  lemma MaskExact(f: Facts, mask: Atom)
    requires Consistent(f) && !f.poisoned
    ensures UsableMask(f, mask) <==> KnownMask(f, mask)
    ensures UsableMask(f, mask) ==> AtomTerm(mask).Some?
    ensures forall v: Term -> int :: UsableMask(f, mask) && v(Zero) == 0 ==>
      v(AtomTerm(mask).value) == AtomMeans(mask, v)
  {
    hide Consistent, NonNegative, Knows;
    if AtomTerm(mask).Some? { KnowsSign(f, AtomTerm(mask).value); }
    if mask == Num(0) { assert Knows(f, Zero, Zero, 0) by { SelfKnown(f); } }
  }

  lemma SelfKnown(f: Facts)
    ensures Knows(f, Zero, Zero, 0)
  {
  }

  lemma MaskedByRecords(f: Facts, local: nat, m: Term, v: Term -> int)
    requires !MaskedBy(f, local, m).poisoned
    ensures !f.poisoned
    ensures v(Zero) == 0 ==>
      (Admits(MaskedBy(f, local, m), v) <==> Admits(f, v) && 0 <= v(Int(local)) && v(Int(local)) <= v(m))
  {
    hide AddEdge, Admits;
    AddEdgeRecords(SetGe(f, Int(local), 0), Int(local), m, 0, v);
    AddEdgeRecords(f, Zero, Int(local), 0, v);
  }

  lemma MaskUnpoisoned(f: Facts, local: nat, args: seq<Atom>)
    requires !Mask(f, local, args).poisoned
    ensures !f.poisoned
  {
    hide AddEdge, Admits;
    if |args| >= 2 {
      if UsableMask(f, args[1]) {
        MaskedByRecords(f, local, AtomTerm(args[1]).value, t => 0);
      } else if UsableMask(f, args[0]) {
        MaskedByRecords(f, local, AtomTerm(args[0]).value, t => 0);
      }
    }
  }

  lemma MaskRecords(f: Facts, local: nat, args: seq<Atom>, v: Term -> int)
    requires !Mask(f, local, args).poisoned && Consistent(f) && v(Zero) == 0
    ensures !f.poisoned
    ensures Admits(Mask(f, local, args), v) <==>
      Admits(f, v) && (|args| >= 2 ==> MaskMeans(f, local, args[0], args[1], v))
  {
    hide MaskedBy, Admits, UsableMask, KnownMask, Consistent, AtomMeans, AtomTerm;
    MaskUnpoisoned(f, local, args);
    if |args| >= 2 {
      MaskExact(f, args[0]);
      MaskExact(f, args[1]);
      if UsableMask(f, args[1]) {
        MaskedByRecords(f, local, AtomTerm(args[1]).value, v);
      } else if UsableMask(f, args[0]) {
        MaskedByRecords(f, local, AtomTerm(args[0]).value, v);
      }
    }
  }

  lemma RemRecords(f: Facts, local: nat, args: seq<Atom>, v: Term -> int)
    requires !Rem(f, local, args).poisoned && Consistent(f) && v(Zero) == 0
    ensures !f.poisoned
    ensures Admits(Rem(f, local, args), v) <==>
      Admits(f, v) && (|args| >= 1 && KnownMask(f, args[0]) ==> v(Int(local)) >= 0)
  {
    hide AddEdge, Admits, UsableMask, KnownMask, Consistent;
    if |args| >= 1 {
      if UsableMask(f, args[0]) { AddEdgeRecords(f, Zero, Int(local), 0, v); }
      MaskExact(f, args[0]);
    }
  }

  lemma RepeatRecords(f: Facts, local: nat, args: seq<Atom>, u: Term -> int, v: Term -> int)
    requires !Repeat(f, local, args).poisoned && v(Zero) == 0
    requires Admits(f, u) && u(Len(local)) >= 0 && (|args| >= 1 ==> RepeatMeans(f, local, args[0], u))
    ensures !f.poisoned
    ensures Admits(Repeat(f, local, args), v) <==>
      Admits(f, v) && v(Len(local)) >= 0 && (|args| >= 1 ==> RepeatMeans(f, local, args[0], v))
  {
    hide AddEdge, AddEq, Admits, CountNonNegative, Knows;
    var g := SetGe(f, Len(local), 0);
    if |args| == 0 || args[0].OtherLit? {
      AddEdgeRecords(f, Zero, Len(local), 0, v);
    } else if args[0].Num? {
      AddEqRecords(g, Len(local), Zero, Max(args[0].n, 0), v);
      AddEdgeRecords(f, Zero, Len(local), 0, v);
    } else {
      RepeatVarRecords(f, local, args[0].local, u, v);
    }
  }

  ghost function RepeatVar(f: Facts, local: nat, count: nat): Facts {
    var h := AddEdge(SetGe(f, Len(local), 0), Int(count), Len(local), 0);
    if Knows(h, Zero, Int(count), 0) then AddEq(h, Len(local), Int(count), 0) else h
  }

  lemma RepeatVarRecords(f: Facts, local: nat, count: nat, u: Term -> int, v: Term -> int)
    requires !RepeatVar(f, local, count).poisoned && v(Zero) == 0
    requires Admits(f, u) && u(Len(local)) >= 0 && u(Int(count)) <= u(Len(local))
    ensures !f.poisoned
    ensures Admits(RepeatVar(f, local, count), v) <==>
      Admits(f, v) && v(Len(local)) >= 0 && RepeatMeans(f, local, Var(count), v)
  {
    hide AddEdge, AddEq, Admits, CountNonNegative, Knows, Consistent;
    var g := SetGe(f, Len(local), 0);
    var h := AddEdge(g, Int(count), Len(local), 0);
    if Knows(h, Zero, Int(count), 0) { AddEqRecords(h, Len(local), Int(count), 0, v); }
    AddEdgeRecords(g, Int(count), Len(local), 0, v);
    AddEdgeRecords(f, Zero, Len(local), 0, v);
    CountKnown(f, local, count, u);
  }

  lemma CountKnown(f: Facts, local: nat, count: nat, u: Term -> int)
    requires var h := AddEdge(SetGe(f, Len(local), 0), Int(count), Len(local), 0); !h.poisoned
    requires Admits(f, u) && u(Len(local)) >= 0 && u(Int(count)) <= u(Len(local))
    ensures var h := AddEdge(SetGe(f, Len(local), 0), Int(count), Len(local), 0);
      Knows(h, Zero, Int(count), 0) <==> CountNonNegative(f, local, count)
  {
    hide AddEdge, Admits, Knows, Consistent;
    var g := SetGe(f, Len(local), 0);
    var h := AddEdge(g, Int(count), Len(local), 0);
    forall w: Term -> int | w(Zero) == 0
      ensures Admits(h, w) <==> Admits(f, w) && 0 <= w(Len(local)) && w(Int(count)) <= w(Len(local))
    {
      AddEdgeRecords(g, Int(count), Len(local), 0, w);
      AddEdgeRecords(f, Zero, Len(local), 0, w);
    }
    AdmitsZero(f);
    AdmitsZero(h);
    AdmitsConsistent(h, u);
    KnowsSign(h, Int(count));
  }

  lemma AdmitsZero(f: Facts)
    ensures forall w :: Admits(f, w) ==> w(Zero) == 0
  {
  }

  /** For a local bound once the length plays no part in that. */
  lemma FreshCount(f: Facts, local: nat, count: nat)
    requires Len(local) !in Terms(f.edges)
    ensures CountNonNegative(f, local, count) <==> NonNegative(f, Int(count))
  {
    if CountNonNegative(f, local, count) {
      forall v | Admits(f, v) ensures v(Int(count)) >= 0 {
        var w := (t: Term) => if t == Len(local) then Max(0, v(Int(count))) else v(t);
        forall e | e in f.edges ensures w(e.from) <= w(e.to) + f.edges[e] {
          assert e in f.edges.Keys && e.from in Terms(f.edges) && e.to in Terms(f.edges);
        }
        assert Admits(f, w);
      }
    }
  }

  lemma ReadLengthRecords(f: Facts, local: nat, args: seq<Atom>, v: Term -> int)
    requires !ReadLength(f, local, args).poisoned && v(Zero) == 0
    ensures !f.poisoned
    ensures Admits(ReadLength(f, local, args), v) <==>
      Admits(f, v) && (IsVar(args) ==> v(Int(local)) == v(Len(args[0].local)) && v(Int(local)) >= 0)
  {
    hide AddEdge, AddEq, Admits;
    if IsVar(args) {
      AddEdgeRecords(AddEq(f, Int(local), Len(args[0].local), 0), Zero, Int(local), 0, v);
      AddEqRecords(f, Int(local), Len(args[0].local), 0, v);
    }
  }

  lemma PushedRecords(f: Facts, local: nat, args: seq<Atom>, u: Term -> int, v: Term -> int)
    requires !Pushed(f, local, args).poisoned && v(Zero) == 0
    requires IsVar(args) ==> u(Len(local)) == u(Len(args[0].local)) + 1
    ensures !f.poisoned
    ensures Admits(Pushed(f, local, args), v) <==>
      Admits(f, v) && v(Len(local)) >= 0 && (IsVar(args) ==> v(Len(local)) == v(Len(args[0].local)) + 1)
  {
    hide AddEdge, AddEq, Admits;
    if IsVar(args) {
      AddEdgeRecords(AddEq(f, Len(local), Len(args[0].local), 1), Zero, Len(local), 0, v);
      AddEqRecords(f, Len(local), Len(args[0].local), 1, v);
    } else {
      AddEdgeRecords(f, Zero, Len(local), 0, v);
    }
  }

  lemma SameLengthRecords(f: Facts, local: nat, args: seq<Atom>, v: Term -> int)
    requires !SameLength(f, local, args).poisoned
    ensures !f.poisoned
    ensures Admits(SameLength(f, local, args), v) <==>
      Admits(f, v) && (IsVar(args) ==> v(Len(local)) == v(Len(args[0].local)))
  {
    hide AddEdge, AddEq, Admits;
    if IsVar(args) { AddEqRecords(f, Len(local), Len(args[0].local), 0, v); }
  }

  lemma ComparedRecords(f: Facts, local: nat, op: Prim, args: seq<Atom>, v: Term -> int)
    ensures Compared(f, local, op, args).poisoned == f.poisoned
    ensures Admits(Compared(f, local, op, args), v) <==> Admits(f, v)
  {
  }

  lemma IntegerRecords(f: Facts, local: nat, op: Prim, args: seq<Atom>, u: Term -> int, v: Term -> int)
    requires op == IntAdd || op == IntSub || op == IntAnd || op == IntRem
    requires !OpFacts(f, local, op, args).poisoned && v(Zero) == 0
    requires Live(f, u) && OpMeans(f, local, op, args, u)
    ensures !f.poisoned
    ensures Admits(OpFacts(f, local, op, args), v) <==> Admits(f, v) && OpMeans(f, local, op, args, v)
  {
    hide AddSub, Mask, Rem, Repeat, ReadLength, Pushed, SameLength, Compared, AddEq, Admits, Consistent, IsVar,
      SumMeans, MaskMeans, RepeatMeans, KnownMask, InLimits;
    AdmitsConsistent(f, u);
    match op
    case IntAdd => AddSubRecords(f, local, args, false, u, v);
    case IntSub => AddSubRecords(f, local, args, true, u, v);
    case IntAnd => MaskRecords(f, local, args, v);
    case IntRem => RemRecords(f, local, args, v);
  }

  lemma ArrayRecords(f: Facts, local: nat, op: Prim, args: seq<Atom>, u: Term -> int, v: Term -> int)
    requires op != IntAdd && op != IntSub && op != IntAnd && op != IntRem
    requires !OpFacts(f, local, op, args).poisoned && v(Zero) == 0
    requires Live(f, u) && OpMeans(f, local, op, args, u)
    ensures !f.poisoned
    ensures Admits(OpFacts(f, local, op, args), v) <==> Admits(f, v) && OpMeans(f, local, op, args, v)
  {
    hide AddSub, Mask, Rem, Repeat, ReadLength, Pushed, SameLength, Compared, AddEq, Admits, Consistent, IsVar,
      SumMeans, MaskMeans, RepeatMeans, KnownMask, InLimits;
    match op
    case ArrayLength => ReadLengthRecords(f, local, args, v);
    case ArrayWithCapacity => AddEqRecords(f, Len(local), Zero, 0, v);
    case ArrayRepeat => RepeatRecords(f, local, args, u, v);
    case ArrayPush | ArrayPushReserved => PushedRecords(f, local, args, u, v);
    case ArraySet | ArrayUnique | ArrayPut => SameLengthRecords(f, local, args, v);
    case IntLt | IntLe | IntGt | IntGe | Eq => ComparedRecords(f, local, op, args, v);
    case _ =>
  }

  lemma OpRecords(f: Facts, local: nat, op: Prim, args: seq<Atom>, u: Term -> int, v: Term -> int)
    requires !OpFacts(f, local, op, args).poisoned && v(Zero) == 0
    requires Live(f, u) && OpMeans(f, local, op, args, u)
    ensures !f.poisoned
    ensures Admits(OpFacts(f, local, op, args), v) <==> Admits(f, v) && OpMeans(f, local, op, args, v)
  {
    hide OpFacts, OpMeans, Live, Admits;
    if op == IntAdd || op == IntSub || op == IntAnd || op == IntRem {
      IntegerRecords(f, local, op, args, u, v);
    } else {
      ArrayRecords(f, local, op, args, u, v);
    }
  }

  lemma AccessVarRecords(f: Facts, buffer: nat, i: nat, v: Term -> int)
    requires !AddEdge(AddEdge(f, Zero, Int(i), 0), Int(i), Len(buffer), -1).poisoned && v(Zero) == 0
    ensures !f.poisoned
    ensures Admits(AddEdge(AddEdge(f, Zero, Int(i), 0), Int(i), Len(buffer), -1), v) <==>
      Admits(f, v) && 0 <= v(Int(i)) < v(Len(buffer))
  {
    hide AddEdge, Admits;
    AddEdgeRecords(AddEdge(f, Zero, Int(i), 0), Int(i), Len(buffer), -1, v);
    AddEdgeRecords(f, Zero, Int(i), 0, v);
  }

  lemma AccessNumRecords(f: Facts, buffer: nat, n: I64, v: Term -> int)
    requires !AccessNum(f, buffer, n).poisoned && v(Zero) == 0
    ensures !f.poisoned
    ensures Admits(AccessNum(f, buffer, n), v) <==> Admits(f, v) && (Recordable(n + 1) ==> n < v(Len(buffer)))
  {
    hide AddEdge, Admits;
    if FitsI64(0 - n) && FitsI64(-1 - n) {
      AddEdgeRecords(AddEdge(f, Zero, Zero, n), Zero, Len(buffer), -1 - n, v);
    }
    AddEdgeRecords(f, Zero, Zero, n, v);
  }

  function AccessNum(f: Facts, buffer: nat, n: I64): Facts {
    var g := AddEdge(f, Zero, Zero, n);
    if FitsI64(0 - n) && FitsI64(-1 - n) then AddEdge(g, Zero, Len(buffer), -1 - n) else g
  }

  lemma AccessRecords(f: Facts, op: Prim, args: seq<Atom>, v: Term -> int)
    requires !AccessFacts(f, op, args).poisoned && v(Zero) == 0
    ensures !f.poisoned
    ensures Admits(AccessFacts(f, op, args), v) <==> Admits(f, v) && AccessMeans(op, args, v)
  {
    hide AddEdge, Admits, Recordable;
    if ChecksIndex(op) && |args| > 1 && args[0].Var? {
      match args[1]
      case Var(i) => AccessVarRecords(f, args[0].local, i, v);
      case Num(n) => AccessNumRecords(f, args[0].local, n, v);
      case OtherLit =>
    }
  }

  /** A binding records exactly what it means: the assignments the facts admit afterwards are
      those admitted before that meet it. Some machine assignment must meet it at all. */
  lemma TransferLetRecords(f: Facts, local: nat, value: Value, u: Term -> int, v: Term -> int)
    requires !TransferLet(f, local, value).poisoned && v(Zero) == 0
    requires Live(f, u) && LetMeans(f, local, value, u)
    ensures !f.poisoned
    ensures Admits(TransferLet(f, local, value), v) <==> Admits(f, v) && LetMeans(f, local, value, v)
  {
    hide AddEq, Admits, InLimits, OpFacts, AccessFacts, OpMeans, AccessMeans, FieldFacts, ResultMeans, AddEdge, Field;
    assert u(Zero) == 0 by { AdmitsZero(f); }
    match Uncounted(value)
    case Operand(Num(n)) => AddEqRecords(f, Int(local), Zero, n, v);
    case Operand(Var(x)) =>
      AddEqRecords(AddEq(f, Int(local), Int(x), 0), Len(local), Len(x), 0, v);
      AddEqRecords(f, Int(local), Int(x), 0, v);
    case Apply(op, args) =>
      var g := OpFacts(f, local, op, args);
      AddEdgeRecords(AccessFacts(g, op, args), Zero, Len(local), 0, v);
      AccessRecords(g, op, args, v);
      OpRecords(f, local, op, args, u, v);
    case Project(Var(b), Some(k)) =>
      if b in f.callResults {
        FieldFactsRecords(f, local, k, f.callResults[b].sig, f.callResults[b].args, u, v);
      }
    case _ =>
  }

  predicate Comparable(args: seq<Atom>) {
    |args| >= 2 && !args[0].OtherLit? && !args[1].OtherLit?
  }

  /** A comparison of the operands, each as a term and an offset. */
  function Comparison(op: Prim, args: seq<Atom>): (c: Cond)
    requires Comparable(args)
    ensures c.op == op
    ensures forall v: Term -> int :: v(Zero) == 0 ==>
      v(c.lhs) + c.lhsOff == AtomMeans(args[0], v) && v(c.rhs) + c.rhsOff == AtomMeans(args[1], v)
  {
    var (lhs, lhsOff) := AtomTermOff(args[0]).value;
    var (rhs, rhsOff) := AtomTermOff(args[1]).value;
    Cond(op, lhs, lhsOff, rhs, rhsOff)
  }

  /** A difference of two locals that no admitted machine values make wrap. */
  ghost predicate Subtractable(f: Facts, args: seq<Atom>) {
    |args| >= 2 && args[0].Var? && args[1].Var? && args[0] != args[1] &&
    SubtractionFits(f, Int(args[0].local), Int(args[1].local))
  }

  function Operands(args: seq<Atom>): (Term, Term)
    requires |args| >= 2 && args[0].Var? && args[1].Var?
  {
    (Int(args[0].local), Int(args[1].local))
  }

  /** What a binding notes beside the edges: the comparison or the difference the local stands for. */
  lemma TransferLetNotes(f: Facts, local: nat, value: Value, u: Term -> int)
    requires Live(f, u)
    ensures var r := TransferLet(f, local, value); match Uncounted(value)
      case Apply(op, args) =>
        && r.callResults == f.callResults
        && r.conds == (if IsComparison(op) && Comparable(args) then f.conds[local := Comparison(op, args)] else f.conds)
        && r.subs == (if op == IntSub && Subtractable(f, args) then f.subs[local := Operands(args)] else f.subs)
      case _ => SameNotes(f, r)
  {
    hide OpFacts, AccessFacts, AddEdge, Subtractable, Comparison, AddEq, FieldFacts, Live;
    match Uncounted(value)
    case Operand(Num(n)) => AddEqNotes(f, Int(local), Zero, n);
    case Operand(Var(x)) =>
      AddEqNotes(f, Int(local), Int(x), 0);
      AddEqNotes(AddEq(f, Int(local), Int(x), 0), Len(local), Len(x), 0);
    case Apply(op, args) =>
      AccessNotes(OpFacts(f, local, op, args), local, op, args);
      OpNotes(f, local, op, args, u);
    case Project(Var(b), Some(k)) =>
      if b in f.callResults { FieldNotes(f, local, k, f.callResults[b].sig, f.callResults[b].args); }
    case _ =>
  }

  lemma AddSubNotes(f: Facts, local: nat, args: seq<Atom>, subtract: bool, u: Term -> int)
    requires Live(f, u)
    ensures var r := AddSub(f, local, args, subtract);
      && r.callResults == f.callResults && r.conds == f.conds
      && r.subs == (if subtract && Subtractable(f, args) then f.subs[local := Operands(args)] else f.subs)
  {
    hide AddEq, OffsetFits, DifferenceFits, SubtractionFits, Live, Wrap;
    if |args| >= 2 {
      match (args[0], args[1])
      case (Var(x), Num(n)) => AddEqNotes(f, Int(local), Int(x), if subtract then 0 - n else n);
      case (Num(n), Var(x)) => AddEqNotes(f, Int(local), Int(x), n);
      case (Num(m), Num(n)) => AddEqNotes(f, Int(local), Zero, Wrap(if subtract then m - n else m + n));
      case (Var(x), Var(y)) =>
        AddEqNotes(f, Int(local), Zero, 0);
        DifferenceFitsExact(f, u, Int(x), Int(y));
      case _ =>
    }
  }

  lemma MaskedByNotes(f: Facts, local: nat, m: Term)
    ensures SameNotes(f, MaskedBy(f, local, m))
  {
    hide AddEdge;
    AddEdgeNotes(f, Zero, Int(local), 0);
    AddEdgeNotes(SetGe(f, Int(local), 0), Int(local), m, 0);
  }

  lemma MaskNotes(f: Facts, local: nat, args: seq<Atom>)
    ensures SameNotes(f, Mask(f, local, args))
  {
    hide MaskedBy, Knows;
    if |args| >= 2 {
      if AtomTerm(args[0]).Some? { MaskedByNotes(f, local, AtomTerm(args[0]).value); }
      if AtomTerm(args[1]).Some? { MaskedByNotes(f, local, AtomTerm(args[1]).value); }
    }
  }

  lemma RemNotes(f: Facts, local: nat, args: seq<Atom>)
    ensures SameNotes(f, Rem(f, local, args))
  {
    hide AddEdge, UsableMask;
    AddEdgeNotes(f, Zero, Int(local), 0);
  }

  lemma RepeatNotes(f: Facts, local: nat, args: seq<Atom>)
    ensures SameNotes(f, Repeat(f, local, args))
  {
    hide AddEdge, AddEq, Knows;
    var g := SetGe(f, Len(local), 0);
    AddEdgeNotes(f, Zero, Len(local), 0);
    if |args| > 0 {
      match args[0]
      case Num(count) => AddEqNotes(g, Len(local), Zero, Max(count, 0));
      case Var(count) =>
        AddEdgeNotes(g, Int(count), Len(local), 0);
        AddEqNotes(AddEdge(g, Int(count), Len(local), 0), Len(local), Int(count), 0);
      case OtherLit =>
    }
  }

  lemma LengthNotes(f: Facts, local: nat, args: seq<Atom>)
    ensures SameNotes(f, ReadLength(f, local, args))
    ensures SameNotes(f, Pushed(f, local, args))
    ensures SameNotes(f, SameLength(f, local, args))
  {
    hide AddEdge, AddEq;
    AddEdgeNotes(f, Zero, Len(local), 0);
    if IsVar(args) {
      var a := Len(args[0].local);
      AddEqNotes(f, Int(local), a, 0);
      AddEqNotes(f, Len(local), a, 0);
      AddEqNotes(f, Len(local), a, 1);
      AddEdgeNotes(AddEq(f, Int(local), a, 0), Zero, Int(local), 0);
      AddEdgeNotes(AddEq(f, Len(local), a, 1), Zero, Len(local), 0);
    }
  }

  lemma ComparedNotes(f: Facts, local: nat, op: Prim, args: seq<Atom>)
    ensures var r := Compared(f, local, op, args);
      && r.callResults == f.callResults && r.subs == f.subs
      && r.conds == (if Comparable(args) then f.conds[local := Comparison(op, args)] else f.conds)
  {
  }

  lemma AccessNotes(f: Facts, local: nat, op: Prim, args: seq<Atom>)
    ensures SameNotes(f, SetGe(AccessFacts(f, op, args), Len(local), 0))
  {
    hide AddEdge, AtomTermOff;
    AddEdgeNotes(AccessFacts(f, op, args), Zero, Len(local), 0);
    if ChecksIndex(op) && |args| > 1 && args[0].Var? && AtomTermOff(args[1]).Some? {
      var (index, offset) := AtomTermOff(args[1]).value;
      AddEdgeNotes(f, Zero, index, offset);
      AddEdgeNotes(AddEdge(f, Zero, index, offset), index, Len(args[0].local), -1 - (offset as int));
    }
  }

  lemma OtherNotes(f: Facts, local: nat, op: Prim, args: seq<Atom>)
    requires op != IntAdd && op != IntSub && !IsComparison(op)
    ensures SameNotes(f, OpFacts(f, local, op, args))
  {
    hide AddSub, Mask, Rem, Repeat, ReadLength, Pushed, SameLength, Compared, AddEq;
    match op
    case IntAnd => MaskNotes(f, local, args);
    case IntRem => RemNotes(f, local, args);
    case ArrayLength => LengthNotes(f, local, args);
    case ArrayWithCapacity => AddEqNotes(f, Len(local), Zero, 0);
    case ArrayRepeat => RepeatNotes(f, local, args);
    case ArrayPush | ArrayPushReserved => LengthNotes(f, local, args);
    case ArraySet | ArrayUnique | ArrayPut => LengthNotes(f, local, args);
    case _ =>
  }

  lemma AddSubCase(f: Facts, local: nat, op: Prim, args: seq<Atom>)
    requires op == IntAdd || op == IntSub
    ensures OpFacts(f, local, op, args) == AddSub(f, local, args, op == IntSub)
  {
    hide AddSub;
  }

  lemma ComparedCase(f: Facts, local: nat, op: Prim, args: seq<Atom>)
    requires IsComparison(op)
    ensures OpFacts(f, local, op, args) == Compared(f, local, op, args)
  {
    hide Compared;
  }

  lemma OpNotes(f: Facts, local: nat, op: Prim, args: seq<Atom>, u: Term -> int)
    requires Live(f, u)
    ensures var r := OpFacts(f, local, op, args);
      && r.callResults == f.callResults
      && r.conds == (if IsComparison(op) && Comparable(args) then f.conds[local := Comparison(op, args)] else f.conds)
      && r.subs == (if op == IntSub && Subtractable(f, args) then f.subs[local := Operands(args)] else f.subs)
  {
    hide OpFacts, AddSub, Compared, Subtractable, Comparison, Comparable, Live;
    if op == IntAdd || op == IntSub {
      AddSubCase(f, local, op, args);
      AddSubNotes(f, local, args, op == IntSub, u);
    } else if IsComparison(op) {
      ComparedCase(f, local, op, args);
      ComparedNotes(f, local, op, args);
    } else {
      OtherNotes(f, local, op, args);
    }
  }

  predicate IsComparison(op: Prim) {
    op == IntLt || op == IntLe || op == IntGt || op == IntGe || op == Eq
  }

  predicate SameNotes(f: Facts, g: Facts) {
    g.conds == f.conds && g.subs == f.subs && g.callResults == f.callResults
  }

  lemma AddEdgeNotes(f: Facts, a: Term, b: Term, c: int)
    ensures SameNotes(f, AddEdge(f, a, b, c))
  {
  }

  lemma AddEqNotes(f: Facts, a: Term, b: Term, c: int)
    ensures SameNotes(f, AddEq(f, a, b, c))
  {
    hide AddEdge;
    AddEdgeNotes(f, a, b, c);
    AddEdgeNotes(AddEdge(f, a, b, c), b, a, -c);
  }

  lemma {:induction false} FieldNotes(f: Facts, local: nat, k: nat, sig: ResultSig, args: seq<Option<nat>>)
    ensures SameNotes(f, FieldFacts(f, local, k, sig, args))
    decreases |sig|
  {
    if sig != [] {
      FieldNotes(f, local, k, sig[..|sig| - 1], args);
    }
  }

  // ----- the meaning of a branch -----

  /** `k` is the last difference the branch allows on one of its sides. */
  predicate Extreme(op: Prim, taken: bool, k: int, d: int) {
    BoundsRuns.Compare(op, k, d) == taken &&
    (BoundsRuns.Compare(op, k - 1, d) != taken || BoundsRuns.Compare(op, k + 1, d) != taken)
  }

  /** The bound the branch puts on the difference of its sides is small enough to record. */
  ghost predicate BoundRecordable(c: Cond, taken: bool) {
    exists k :: Recordable(k) && Extreme(c.op, taken, k, c.rhsOff - c.lhsOff)
  }

  /** The value of a side when the difference it was bound to stands for it. */
  function Expanded(subs: map<nat, (Term, Term)>, t: Term, v: Term -> int): int {
    if t.Int? && t.local in subs then v(subs[t.local].0) - v(subs[t.local].1) else v(t)
  }

  /** One side is zero and the other was bound to a difference of distinct terms. */
  predicate BoundsDifference(subs: map<nat, (Term, Term)>, c: Cond) {
    (c.rhs == Zero && c.lhs.Int? && c.lhs.local in subs && subs[c.lhs.local].0 != subs[c.lhs.local].1) ||
    (c.lhs == Zero && c.rhs.Int? && c.rhs.local in subs && subs[c.rhs.local].0 != subs[c.rhs.local].1)
  }

  ghost predicate OrderMeans(f: Facts, c: Cond, taken: bool, v: Term -> int) {
    && (c.lhs != c.rhs ==> BoundsRuns.Compare(c.op, v(c.lhs) + c.lhsOff, v(c.rhs) + c.rhsOff) == taken)
    && (c.op != Eq && BoundsDifference(f.subs, c) ==>
        BoundsRuns.Compare(c.op, Expanded(f.subs, c.lhs, v) + c.lhsOff, Expanded(f.subs, c.rhs, v) + c.rhsOff) == taken)
  }

  /** A value whose sign the facts know is not zero. */
  ghost predicate NonZeroMeans(f: Facts, x: Term, v: Term -> int) {
    NonNegative(f, x) || NonPositive(f, x) ==> v(x) != 0
  }

  /** What entering the `taken` branch of a conditional on `cond` adds to the facts. */
  ghost predicate BranchMeans(f: Facts, cond: Atom, taken: bool, v: Term -> int) {
    cond.Var? && cond.local in f.conds && IsComparison(f.conds[cond.local].op) ==>
      var c := f.conds[cond.local];
      if c.op != Eq || taken then BoundRecordable(c, taken) ==> OrderMeans(f, c, taken, v)
      else c.lhsOff == 0 && c.rhsOff == 0 && (c.lhs == Zero <==> c.rhs != Zero) ==>
        NonZeroMeans(f, if c.lhs == Zero then c.rhs else c.lhs, v)
  }

  /** The edge, and the edge between the operands of a difference bounded against zero. */
  predicate EdgeSubMeans(f: Facts, a: Term, b: Term, c: int, v: Term -> int) {
    && (a != b ==> v(a) <= v(b) + c)
    && (b == Zero && a.Int? && a.local in f.subs && f.subs[a.local].0 != f.subs[a.local].1 ==>
        v(f.subs[a.local].0) <= v(f.subs[a.local].1) + c)
    && (a == Zero && b.Int? && b.local in f.subs && f.subs[b.local].0 != f.subs[b.local].1 ==>
        v(f.subs[b.local].1) <= v(f.subs[b.local].0) + c)
  }

  lemma AddEdgeSubRecords(f: Facts, a: Term, b: Term, c: int, v: Term -> int)
    requires !AddEdgeSub(f, a, b, c).poisoned
    ensures !f.poisoned
    ensures Admits(AddEdgeSub(f, a, b, c), v) <==> Admits(f, v) && (Recordable(c) ==> EdgeSubMeans(f, a, b, c, v))
  {
    hide AddEdge, Admits, Recordable;
    var g := AddEdge(f, a, b, c);
    AddEdgeNotes(f, a, b, c);
    if b == Zero && a.Int? && a.local in f.subs {
      AddEdgeRecords(g, f.subs[a.local].0, f.subs[a.local].1, c, v);
    } else if a == Zero && b.Int? && b.local in f.subs {
      AddEdgeRecords(g, f.subs[b.local].1, f.subs[b.local].0, c, v);
    }
    AddEdgeRecords(f, a, b, c, v);
  }

  /** The operator that decides a branch that was taken. */
  function Decided(op: Prim, taken: bool): Prim {
    if taken then op else Negate(op)
  }

  lemma AssertRecords(f: Facts, c: Cond, taken: bool, v: Term -> int)
    requires IsComparison(c.op) && (c.op == Eq ==> taken) && v(Zero) == 0
    requires !AssertCmp(f, Decided(c.op, taken), c.lhs, c.lhsOff, c.rhs, c.rhsOff).poisoned
    ensures !f.poisoned
    ensures Admits(AssertCmp(f, Decided(c.op, taken), c.lhs, c.lhsOff, c.rhs, c.rhsOff), v) <==>
      Admits(f, v) && (BoundRecordable(c, taken) ==> OrderMeans(f, c, taken, v))
  {
    hide AddEdgeSub, AddEq, Admits, OrderMeans, EdgeSubMeans, BoundRecordable;
    var d := c.rhsOff - c.lhsOff;
    match Decided(c.op, taken)
    case IntLt =>
      BoundIs(c, taken, d - 1);
      UpperMeans(f, c, taken, d - 1, v);
      if FitsI64(d - 1) { AddEdgeSubRecords(f, c.lhs, c.rhs, d - 1, v); }
    case IntLe =>
      BoundIs(c, taken, d);
      UpperMeans(f, c, taken, d, v);
      if FitsI64(d) { AddEdgeSubRecords(f, c.lhs, c.rhs, d, v); }
    case IntGt =>
      BoundIs(c, taken, d + 1);
      LowerMeans(f, c, taken, d + 1, v);
      if FitsI64(-d - 1) { AddEdgeSubRecords(f, c.rhs, c.lhs, -d - 1, v); }
    case IntGe =>
      BoundIs(c, taken, d);
      LowerMeans(f, c, taken, d, v);
      if FitsI64(-d) { AddEdgeSubRecords(f, c.rhs, c.lhs, -d, v); }
    case Eq =>
      BoundIs(c, taken, d);
      EqualMeans(f, c, v);
      if FitsI64(d) { AddEqRecords(f, c.lhs, c.rhs, d, v); }
  }

  lemma BoundIs(c: Cond, taken: bool, k: int)
    requires IsComparison(c.op) && (c.op == Eq ==> taken) && Extreme(c.op, taken, k, c.rhsOff - c.lhsOff)
    ensures BoundRecordable(c, taken) <==> Recordable(k)
  {
    hide Recordable;
    var d := c.rhsOff - c.lhsOff;
    forall j | Extreme(c.op, taken, j, d) ensures j == k {}
  }

  lemma UpperMeans(f: Facts, c: Cond, taken: bool, k: int, v: Term -> int)
    requires v(Zero) == 0
    requires (Decided(c.op, taken) == IntLt && k == c.rhsOff - c.lhsOff - 1) ||
             (Decided(c.op, taken) == IntLe && k == c.rhsOff - c.lhsOff)
    ensures OrderMeans(f, c, taken, v) <==> EdgeSubMeans(f, c.lhs, c.rhs, k, v)
  {
  }

  lemma LowerMeans(f: Facts, c: Cond, taken: bool, k: int, v: Term -> int)
    requires v(Zero) == 0
    requires (Decided(c.op, taken) == IntGt && k == c.rhsOff - c.lhsOff + 1) ||
             (Decided(c.op, taken) == IntGe && k == c.rhsOff - c.lhsOff)
    ensures OrderMeans(f, c, taken, v) <==> EdgeSubMeans(f, c.rhs, c.lhs, -k, v)
  {
  }

  lemma EqualMeans(f: Facts, c: Cond, v: Term -> int)
    requires c.op == Eq
    ensures OrderMeans(f, c, true, v) <==> (c.lhs != c.rhs ==> v(c.lhs) == v(c.rhs) + (c.rhsOff - c.lhsOff))
  {
  }

  lemma RefineNeRecords(f: Facts, lhs: Term, rhs: Term, v: Term -> int)
    requires !RefineNe(f, lhs, rhs).poisoned && Consistent(f) && v(Zero) == 0
    ensures !f.poisoned
    ensures Admits(RefineNe(f, lhs, rhs), v) <==>
      Admits(f, v) && ((lhs == Zero <==> rhs != Zero) ==> NonZeroMeans(f, if lhs == Zero then rhs else lhs, v))
  {
    hide AddEdge, Admits, Knows, Consistent, NonNegative, NonPositive;
    if lhs == Zero <==> rhs != Zero {
      var x := if lhs == Zero then rhs else lhs;
      var g := if Knows(f, Zero, x, 0) then AddEdge(f, Zero, x, -1) else f;
      if Knows(g, x, Zero, 0) { AddEdgeRecords(g, x, Zero, -1, v); }
      if Knows(f, Zero, x, 0) { AddEdgeRecords(f, Zero, x, -1, v); }
      KnowsSign(f, x);
      SignMeans(f, x, v);
      if Knows(f, Zero, x, 0) { PositiveKnows(f, x); }
    }
  }

  lemma SignMeans(f: Facts, x: Term, v: Term -> int)
    ensures NonNegative(f, x) && Admits(f, v) ==> v(x) >= 0
    ensures NonPositive(f, x) && Admits(f, v) ==> v(x) <= 0
  {
  }

  /** Once a value is recorded as positive only facts that were contradictory about it call it non-positive. */
  lemma PositiveKnows(f: Facts, x: Term)
    requires !AddEdge(f, Zero, x, -1).poisoned && x != Zero && NonNegative(f, x)
    ensures Knows(AddEdge(f, Zero, x, -1), x, Zero, 0) ==> NonPositive(f, x)
  {
    var g := AddEdge(f, Zero, x, -1);
    hide AddEdge;
    if Knows(g, x, Zero, 0) {
      forall w | Admits(f, w) ensures w(x) <= 0 {
        AddEdgeRecords(f, Zero, x, -1, w);
        if w(x) > 0 {
          DerivableIsEntailed(g.edges, x, Zero, 0);
        }
      }
    }
  }

  /** Entering a branch records exactly what the branch means. */
  lemma RefineRecords(f: Facts, cond: Atom, taken: bool, v: Term -> int)
    requires !Refine(f, cond, taken).poisoned && Consistent(f) && v(Zero) == 0
    ensures !f.poisoned
    ensures Admits(Refine(f, cond, taken), v) <==> Admits(f, v) && BranchMeans(f, cond, taken, v)
  {
    hide AssertCmp, RefineNe, Admits, Consistent, BoundRecordable, OrderMeans, NonZeroMeans;
    if cond.Var? && cond.local in f.conds {
      var c := f.conds[cond.local];
      if c.op == Eq && !taken {
        if c.lhsOff == 0 && c.rhsOff == 0 { RefineNeRecords(f, c.lhs, c.rhs, v); }
      } else if IsComparison(c.op) {
        AssertRecords(f, c, taken, v);
      } else {
        NoComparison(f, c, taken);
      }
    }
  }

  lemma NoComparison(f: Facts, c: Cond, taken: bool)
    requires !IsComparison(c.op)
    ensures AssertCmp(f, Decided(c.op, taken), c.lhs, c.lhsOff, c.rhs, c.rhsOff) == f
  {
  }

  lemma RefineNotes(f: Facts, cond: Atom, taken: bool)
    ensures SameNotes(f, Refine(f, cond, taken))
  {
    hide AddEdge, Knows, AddEq;
    forall g, a, b, c ensures SameNotes(g, AddEdge(g, a, b, c)) { AddEdgeNotes(g, a, b, c); }
    forall g, a, b, c ensures SameNotes(g, AddEq(g, a, b, c)) { AddEqNotes(g, a, b, c); }
  }

  // ----- the budget on terms -----

  /** The terms of the facts and those in `ts` fit the budget together. */
  ghost predicate Room(f: Facts, ts: set<Term>) {
    !f.poisoned && |Terms(f.edges) + ts| <= TERM_CAP
  }

  lemma AddEdgeRoom(f: Facts, a: Term, b: Term, c: int, ts: set<Term>)
    requires Room(f, ts) && a in ts && b in ts
    ensures Room(AddEdge(f, a, b, c), ts)
  {
    hide Terms;
    var e, r := Edge(a, b), AddEdge(f, a, b, c);
    SubsetSize(Terms(f.edges) + {a, b}, Terms(f.edges) + ts);
    if r.edges != f.edges {
      BoundsSearch.TermsAfter(f.edges, e, r.edges[e]);
      assert Terms(r.edges) + ts == Terms(f.edges) + ts;
    }
    AddEdgePoisons(f, a, b, c);
  }

  lemma AddEqRoom(f: Facts, a: Term, b: Term, c: int, ts: set<Term>)
    requires Room(f, ts) && a in ts && b in ts
    ensures Room(AddEq(f, a, b, c), ts)
  {
    hide AddEdge, Room;
    AddEdgeRoom(f, a, b, c, ts);
    AddEdgeRoom(AddEdge(f, a, b, c), b, a, -c, ts);
  }

  /** Everything the atoms can denote. */
  predicate Covers(ts: set<Term>, args: seq<Atom>) {
    forall i :: 0 <= i < |args| && args[i].Var? ==> Int(args[i].local) in ts && Len(args[i].local) in ts
  }

  predicate CoversLocal(ts: set<Term>, local: nat) {
    Zero in ts && Int(local) in ts && Len(local) in ts
  }

  lemma AddSubRoom(f: Facts, local: nat, args: seq<Atom>, subtract: bool, ts: set<Term>)
    requires Room(f, ts) && CoversLocal(ts, local) && Covers(ts, args)
    ensures Room(AddSub(f, local, args, subtract), ts)
  {
    hide AddEq, OffsetFits, DifferenceFits, Wrap;
    if |args| >= 2 {
      match (args[0], args[1])
      case (Var(x), Num(n)) => AddEqRoom(f, Int(local), Int(x), if subtract then 0 - n else n, ts);
      case (Num(n), Var(x)) => AddEqRoom(f, Int(local), Int(x), n, ts);
      case (Num(m), Num(n)) => AddEqRoom(f, Int(local), Zero, Wrap(if subtract then m - n else m + n), ts);
      case (Var(x), Var(y)) => AddEqRoom(f, Int(local), Zero, 0, ts);
      case _ =>
    }
  }

  lemma MaskRoom(f: Facts, local: nat, args: seq<Atom>, ts: set<Term>)
    requires Room(f, ts) && CoversLocal(ts, local) && Covers(ts, args)
    ensures Room(Mask(f, local, args), ts) && Room(Rem(f, local, args), ts)
  {
    hide AddEdge, Knows, Room;
    var g := SetGe(f, Int(local), 0);
    AddEdgeRoom(f, Zero, Int(local), 0, ts);
    if |args| >= 2 {
      if AtomTerm(args[0]).Some? { AddEdgeRoom(g, Int(local), AtomTerm(args[0]).value, 0, ts); }
      if AtomTerm(args[1]).Some? { AddEdgeRoom(g, Int(local), AtomTerm(args[1]).value, 0, ts); }
    }
  }

  lemma RepeatRoom(f: Facts, local: nat, args: seq<Atom>, ts: set<Term>)
    requires Room(f, ts) && CoversLocal(ts, local) && Covers(ts, args)
    ensures Room(Repeat(f, local, args), ts)
  {
    hide AddEdge, AddEq, Knows, Room;
    var g := SetGe(f, Len(local), 0);
    AddEdgeRoom(f, Zero, Len(local), 0, ts);
    if |args| > 0 {
      match args[0]
      case Num(count) => AddEqRoom(g, Len(local), Zero, Max(count, 0), ts);
      case Var(count) =>
        AddEdgeRoom(g, Int(count), Len(local), 0, ts);
        AddEqRoom(AddEdge(g, Int(count), Len(local), 0), Len(local), Int(count), 0, ts);
      case OtherLit =>
    }
  }

  lemma LengthRoom(f: Facts, local: nat, args: seq<Atom>, ts: set<Term>)
    requires Room(f, ts) && CoversLocal(ts, local) && Covers(ts, args)
    ensures Room(ReadLength(f, local, args), ts) && Room(Pushed(f, local, args), ts)
    ensures Room(SameLength(f, local, args), ts)
  {
    hide AddEdge, AddEq, Room;
    AddEdgeRoom(f, Zero, Len(local), 0, ts);
    if IsVar(args) {
      var a := Len(args[0].local);
      AddEqRoom(f, Int(local), a, 0, ts);
      AddEqRoom(f, Len(local), a, 0, ts);
      AddEqRoom(f, Len(local), a, 1, ts);
      AddEdgeRoom(AddEq(f, Int(local), a, 0), Zero, Int(local), 0, ts);
      AddEdgeRoom(AddEq(f, Len(local), a, 1), Zero, Len(local), 0, ts);
    }
  }

  lemma ComparedRoom(f: Facts, local: nat, op: Prim, args: seq<Atom>, ts: set<Term>)
    requires Room(f, ts)
    ensures Room(Compared(f, local, op, args), ts)
  {
  }

  lemma OpRoom(f: Facts, local: nat, op: Prim, args: seq<Atom>, ts: set<Term>)
    requires Room(f, ts) && CoversLocal(ts, local) && Covers(ts, args)
    ensures Room(OpFacts(f, local, op, args), ts)
  {
    hide AddSub, Mask, Rem, Repeat, ReadLength, Pushed, SameLength, Compared, AddEq, Room, Covers;
    match op
    case IntAdd => AddSubRoom(f, local, args, false, ts);
    case IntSub => AddSubRoom(f, local, args, true, ts);
    case IntAnd => MaskRoom(f, local, args, ts);
    case IntRem => MaskRoom(f, local, args, ts);
    case ArrayLength => LengthRoom(f, local, args, ts);
    case ArrayWithCapacity => AddEqRoom(f, Len(local), Zero, 0, ts);
    case ArrayRepeat => RepeatRoom(f, local, args, ts);
    case ArrayPush | ArrayPushReserved => LengthRoom(f, local, args, ts);
    case ArraySet | ArrayUnique | ArrayPut => LengthRoom(f, local, args, ts);
    case IntLt | IntLe | IntGt | IntGe | Eq => ComparedRoom(f, local, op, args, ts);
    case _ =>
  }

  lemma AccessRoom(f: Facts, op: Prim, args: seq<Atom>, ts: set<Term>)
    requires Room(f, ts) && Zero in ts && Covers(ts, args)
    ensures Room(AccessFacts(f, op, args), ts)
  {
    hide AddEdge, Room;
    if ChecksIndex(op) && |args| > 1 && args[0].Var? && AtomTermOff(args[1]).Some? {
      var (index, offset) := AtomTermOff(args[1]).value;
      AddEdgeRoom(f, Zero, index, offset, ts);
      AddEdgeRoom(AddEdge(f, Zero, index, offset), index, Len(args[0].local), -1 - (offset as int), ts);
    }
  }

  /** The terms a binding can mention. */
  predicate CoversLet(ts: set<Term>, f: Facts, local: nat, value: Value) {
    && CoversLocal(ts, local)
    && match Uncounted(value)
       case Operand(a) => Covers(ts, [a])
       case Apply(_, args) => Covers(ts, args)
       case Project(Var(b), Some(_)) => b in f.callResults ==> CoversArgs(ts, f.callResults[b].args)
       case _ => true
  }

  predicate CoversArgs(ts: set<Term>, args: seq<Option<nat>>) {
    Zero in ts && forall i :: 0 <= i < |args| && args[i].Some? ==> Int(args[i].value) in ts && Len(args[i].value) in ts
  }

  lemma {:induction false} FieldRoom(f: Facts, local: nat, k: nat, sig: ResultSig, args: seq<Option<nat>>,
      ts: set<Term>)
    requires Room(f, ts) && CoversLocal(ts, local) && CoversArgs(ts, args)
    ensures Room(FieldFacts(f, local, k, sig, args), ts)
    decreases |sig|
  {
    hide AddEdge, Room;
    if sig != [] {
      var n := |sig| - 1;
      FieldRoom(f, local, k, sig[..n], args, ts);
      var a, b := FieldTerm(sig[n].from, k, local, args), FieldTerm(sig[n].to, k, local, args);
      if a.Some? && b.Some? {
        AddEdgeRoom(FieldFacts(f, local, k, sig[..n], args), a.value, b.value, sig[n].c, ts);
      }
    }
  }

  lemma {:induction false} SeedEntryRoom(f: Facts, sig: BoundSig, params: seq<nat>, ts: set<Term>)
    requires Room(f, ts) && Zero in ts && forall i :: 0 <= i < |params| ==> CoversLocal(ts, params[i])
    ensures Room(SeedEntry(f, sig, params), ts)
    decreases |sig|
  {
    hide AddEdge, Room;
    if sig != [] {
      var n := |sig| - 1;
      SeedEntryRoom(f, sig[..n], params, ts);
      var a, b := EntryTerm(sig[n].from, params), EntryTerm(sig[n].to, params);
      if a.Some? && b.Some? { AddEdgeRoom(SeedEntry(f, sig[..n], params), a.value, b.value, sig[n].c, ts); }
    }
  }

  lemma {:induction false} WholeFactsRoom(f: Facts, local: nat, sig: ResultSig, args: seq<Option<nat>>, ts: set<Term>)
    requires Room(f, ts) && CoversLocal(ts, local) && CoversArgs(ts, args)
    ensures Room(WholeFacts(f, local, sig, args), ts)
    decreases |sig|
  {
    hide AddEdge, Room;
    if sig != [] {
      var n := |sig| - 1;
      WholeFactsRoom(f, local, sig[..n], args, ts);
      var a, b := ResultTerm(sig[n].from, local, args), ResultTerm(sig[n].to, local, args);
      if a.Some? && b.Some? { AddEdgeRoom(WholeFacts(f, local, sig[..n], args), a.value, b.value, sig[n].c, ts); }
    }
  }

  lemma TransferCallRoom(f: Facts, local: nat, sig: ResultSig, args: seq<Atom>, ts: set<Term>)
    requires Room(f, ts) && CoversLocal(ts, local) && Covers(ts, args)
    ensures Room(TransferCall(f, local, sig, args), ts)
  {
    WholeFactsRoom(f, local, sig, ArgLocals(args), ts);
    hide WholeFacts;
  }

  lemma {:induction false} TransferManyRoom(f: Facts, locals: seq<nat>, sig: ResultSig, args: seq<Option<nat>>,
      ts: set<Term>)
    requires Room(f, ts) && CoversArgs(ts, args) && forall i :: 0 <= i < |locals| ==> CoversLocal(ts, locals[i])
    ensures Room(TransferMany(f, locals, sig, args), ts)
    decreases |sig|
  {
    hide AddEdge, Room;
    if sig != [] {
      var n := |sig| - 1;
      TransferManyRoom(f, locals, sig[..n], args, ts);
      var a, b := ManyTerm(sig[n].from, locals, args), ManyTerm(sig[n].to, locals, args);
      if a.Some? && b.Some? { AddEdgeRoom(TransferMany(f, locals, sig[..n], args), a.value, b.value, sig[n].c, ts); }
    }
  }

  /** A binding poisons the facts only when its terms exceed the budget. */
  lemma TransferLetRoom(f: Facts, local: nat, value: Value, ts: set<Term>)
    requires Room(f, ts) && CoversLet(ts, f, local, value)
    ensures Room(TransferLet(f, local, value), ts)
  {
    hide AddEdge, AddEq, OpFacts, AccessFacts, FieldFacts, Room, Covers;
    match Uncounted(value)
    case Operand(Num(n)) => AddEqRoom(f, Int(local), Zero, n, ts);
    case Operand(Var(x)) =>
      assert Int(x) in ts && Len(x) in ts by { CoversOne(ts, x); }
      AddEqRoom(f, Int(local), Int(x), 0, ts);
      AddEqRoom(AddEq(f, Int(local), Int(x), 0), Len(local), Len(x), 0, ts);
    case Apply(op, args) =>
      OpRoom(f, local, op, args, ts);
      AccessRoom(OpFacts(f, local, op, args), op, args, ts);
      AddEdgeRoom(AccessFacts(OpFacts(f, local, op, args), op, args), Zero, Len(local), 0, ts);
    case Project(Var(b), Some(k)) =>
      if b in f.callResults { FieldRoom(f, local, k, f.callResults[b].sig, f.callResults[b].args, ts); }
    case _ =>
  }

  lemma CoversOne(ts: set<Term>, x: nat)
    requires Covers(ts, [Var(x)])
    ensures Int(x) in ts && Len(x) in ts
  {
    assert [Var(x)][0] == Var(x);
  }

  /** The terms a branch can mention. */
  predicate CoversBranch(ts: set<Term>, f: Facts, cond: Atom) {
    cond.Var? && cond.local in f.conds ==>
      var c := f.conds[cond.local];
      && Zero in ts && c.lhs in ts && c.rhs in ts
      && CoversOperands(ts, f, c.lhs) && CoversOperands(ts, f, c.rhs)
  }

  predicate CoversOperands(ts: set<Term>, f: Facts, t: Term) {
    t.Int? && t.local in f.subs ==> f.subs[t.local].0 in ts && f.subs[t.local].1 in ts
  }

  lemma AddEdgeSubRoom(f: Facts, a: Term, b: Term, c: int, ts: set<Term>)
    requires Room(f, ts) && a in ts && b in ts && CoversOperands(ts, f, a) && CoversOperands(ts, f, b)
    ensures Room(AddEdgeSub(f, a, b, c), ts)
  {
    AddEdgeRoom(f, a, b, c, ts);
    AddEdgeNotes(f, a, b, c);
    var g := AddEdge(f, a, b, c);
    hide AddEdge, Room;
    match (a, b)
    case (Int(l), Zero) => if l in f.subs { AddEdgeRoom(g, f.subs[l].0, f.subs[l].1, c, ts); }
    case (Zero, Int(l)) => if l in f.subs { AddEdgeRoom(g, f.subs[l].1, f.subs[l].0, c, ts); }
    case _ =>
  }

  lemma AssertRoom(f: Facts, op: Prim, lhs: Term, lhsOff: I64, rhs: Term, rhsOff: I64, ts: set<Term>)
    requires Room(f, ts) && lhs in ts && rhs in ts && CoversOperands(ts, f, lhs) && CoversOperands(ts, f, rhs)
    ensures Room(AssertCmp(f, op, lhs, lhsOff, rhs, rhsOff), ts)
  {
    hide AddEdgeSub, AddEq, Room, CoversOperands;
    forall c: int ensures Room(AddEdgeSub(f, lhs, rhs, c), ts) && Room(AddEdgeSub(f, rhs, lhs, c), ts) {
      AddEdgeSubRoom(f, lhs, rhs, c, ts);
      AddEdgeSubRoom(f, rhs, lhs, c, ts);
    }
    AddEqRoom(f, lhs, rhs, rhsOff - lhsOff, ts);
  }

  /** A branch poisons the facts only when its terms exceed the budget. */
  lemma RefineRoom(f: Facts, cond: Atom, taken: bool, ts: set<Term>)
    requires Room(f, ts) && CoversBranch(ts, f, cond)
    ensures Room(Refine(f, cond, taken), ts)
  {
    hide AddEdge, AssertCmp, Knows, Room, CoversOperands;
    if cond.Var? && cond.local in f.conds {
      var c := f.conds[cond.local];
      AssertRoom(f, Decided(c.op, taken), c.lhs, c.lhsOff, c.rhs, c.rhsOff, ts);
      var x := if c.lhs == Zero then c.rhs else c.lhs;
      var g := if Knows(f, Zero, x, 0) then AddEdge(f, Zero, x, -1) else f;
      AddEdgeRoom(f, Zero, x, -1, ts);
      AddEdgeRoom(g, x, Zero, -1, ts);
    }
  }

  // ----- the usual guard -----

  /** The facts inside a branch on a comparison bound just before. */
  ghost function Guarded(f: Facts, cond: nat, op: Prim, a: Atom, b: Atom, taken: bool): Facts {
    Refine(TransferLet(f, cond, Apply(op, [a, b])), Var(cond), taken)
  }

  ghost predicate GuardMeans(f: Facts, cond: nat, op: Prim, a: Atom, b: Atom, taken: bool, v: Term -> int)
    requires Comparable([a, b])
  {
    && v(Len(cond)) >= 0
    && (BoundRecordable(Comparison(op, [a, b]), taken) ==> OrderMeans(f, Comparison(op, [a, b]), taken, v))
  }

  lemma GuardRecords(f: Facts, cond: nat, op: Prim, a: Atom, b: Atom, taken: bool, u: Term -> int, v: Term -> int)
    requires IsComparison(op) && op != Eq && Comparable([a, b]) && v(Zero) == 0
    requires !Guarded(f, cond, op, a, b, taken).poisoned && Live(f, u)
    ensures !f.poisoned && SameSubs(f, Guarded(f, cond, op, a, b, taken))
    ensures Admits(Guarded(f, cond, op, a, b, taken), v) <==> Admits(f, v) && GuardMeans(f, cond, op, a, b, taken, v)
  {
    var value := Apply(op, [a, b]);
    var g := TransferLet(f, cond, value);
    hide TransferLet, Refine, Admits, Live, LetMeans, Consistent, OrderMeans;
    RefineNotes(g, Var(cond), taken);
    GuardNotes(f, cond, op, a, b, u);
    CompareMeans(f, cond, op, [a, b], v);
    GuardUnpoisoned(g, cond, taken);
    GuardLive(f, cond, op, a, b, u);
    TransferLetRecords(f, cond, value, u, v);
    RefineRecords(g, Var(cond), taken, v);
    SameOrder(f, g, Comparison(op, [a, b]), taken, v);
  }

  lemma GuardNotes(f: Facts, cond: nat, op: Prim, a: Atom, b: Atom, u: Term -> int)
    requires IsComparison(op) && Comparable([a, b]) && Live(f, u)
    ensures var g := TransferLet(f, cond, Apply(op, [a, b]));
      SameSubs(f, g) && cond in g.conds && g.conds[cond] == Comparison(op, [a, b])
  {
    hide TransferLet, Comparison, Comparable, Live, Subtractable;
    TransferLetNotes(f, cond, Apply(op, [a, b]), u);
  }

  /** Binding a comparison keeps every live assignment. */
  lemma GuardLive(f: Facts, cond: nat, op: Prim, a: Atom, b: Atom, u: Term -> int)
    requires IsComparison(op) && Live(f, u) && !TransferLet(f, cond, Apply(op, [a, b])).poisoned
    ensures var g := TransferLet(f, cond, Apply(op, [a, b])); Live(g, u) && Consistent(g)
    ensures LetMeans(f, cond, Apply(op, [a, b]), u)
  {
    hide TransferLet, LetMeans, Admits, Consistent;
    var value := Apply(op, [a, b]);
    CompareMeans(f, cond, op, [a, b], u);
    assert u(Len(cond)) >= MachineLow(Len(cond));
    AdmitsZero(f);
    TransferLetRecords(f, cond, value, u, u);
    AdmitsConsistent(TransferLet(f, cond, value), u);
  }

  lemma SameOrder(f: Facts, g: Facts, c: Cond, taken: bool, v: Term -> int)
    requires SameSubs(f, g)
    ensures OrderMeans(g, c, taken, v) <==> OrderMeans(f, c, taken, v)
  {
  }

  predicate SameSubs(f: Facts, g: Facts) {
    g.subs == f.subs
  }

  lemma CompareMeans(f: Facts, cond: nat, op: Prim, args: seq<Atom>, v: Term -> int)
    requires IsComparison(op)
    ensures LetMeans(f, cond, Apply(op, args), v) <==> v(Len(cond)) >= 0
  {
  }

  lemma GuardUnpoisoned(g: Facts, cond: nat, taken: bool)
    requires !Refine(g, Var(cond), taken).poisoned
    ensures !g.poisoned
  {
  }

  /** The facts in `let n = length a in if i >= 0 then if i < n then ...`. */
  ghost function InsideGuards(f: Facts, a: nat, n: nat, i: nat, low: nat, high: nat): Facts {
    var f1 := TransferLet(f, n, Apply(ArrayLength, [Var(a)]));
    Guarded(Guarded(f1, low, IntGe, Var(i), Num(0), true), high, IntLt, Var(i), Var(n), true)
  }

  lemma LowGuard(f: Facts, low: nat, i: nat, v: Term -> int)
    requires v(Zero) == 0
    ensures GuardMeans(f, low, IntGe, Var(i), Num(0), true, v) <==>
      v(Len(low)) >= 0 && v(Int(i)) >= 0 &&
      (i in f.subs && f.subs[i].0 != f.subs[i].1 ==> v(f.subs[i].0) - v(f.subs[i].1) >= 0)
  {
    BoundIs(Comparison(IntGe, [Var(i), Num(0)]), true, 0);
  }

  lemma HighGuard(f: Facts, high: nat, i: nat, n: nat, v: Term -> int)
    requires v(Zero) == 0 && i != n
    ensures GuardMeans(f, high, IntLt, Var(i), Var(n), true, v) <==> v(Len(high)) >= 0 && v(Int(i)) < v(Int(n))
  {
    BoundIs(Comparison(IntLt, [Var(i), Var(n)]), true, -1);
  }

  lemma LengthMeans(f: Facts, n: nat, a: nat, v: Term -> int)
    ensures LetMeans(f, n, Apply(ArrayLength, [Var(a)]), v) <==>
      v(Len(n)) >= 0 && v(Int(n)) == v(Len(a)) && v(Int(n)) >= 0
  {
    assert IsVar([Var(a)]);
  }

  lemma LiveParts(f: Facts, u: Term -> int)
    ensures Live(f, u) ==> Admits(f, u) && InLimits(u) && u(Zero) == 0 && forall l :: u(Len(l)) >= 0
    ensures Admits(f, u) && InLimits(u) ==> Live(f, u)
  {
    if Live(f, u) {
      forall l ensures u(Len(l)) >= 0 { assert MachineLow(Len(l)) <= u(Len(l)); }
    }
  }

  lemma LengthStage(f: Facts, n: nat, a: nat, u: Term -> int, v: Term -> int)
    requires var g := TransferLet(f, n, Apply(ArrayLength, [Var(a)])); !g.poisoned
    requires Live(f, u) && u(Int(n)) == u(Len(a)) && v(Zero) == 0
    ensures var g := TransferLet(f, n, Apply(ArrayLength, [Var(a)]));
      SameSubs(f, g) && Live(g, u) && (Admits(g, v) ==> v(Int(n)) == v(Len(a)))
  {
    hide TransferLet, LetMeans, Live, Admits, InLimits;
    var value := Apply(ArrayLength, [Var(a)]);
    LiveParts(f, u);
    LengthMeans(f, n, a, u);
    LengthMeans(f, n, a, v);
    TransferLetNotes(f, n, value, u);
    TransferLetRecords(f, n, value, u, u);
    TransferLetRecords(f, n, value, u, v);
    LiveParts(TransferLet(f, n, value), u);
  }

  lemma LowStage(f: Facts, low: nat, i: nat, u: Term -> int, v: Term -> int)
    requires !Guarded(f, low, IntGe, Var(i), Num(0), true).poisoned && Live(f, u) && v(Zero) == 0
    requires 0 <= u(Int(i)) && (i in f.subs ==> u(Int(i)) == u(f.subs[i].0) - u(f.subs[i].1))
    ensures var g := Guarded(f, low, IntGe, Var(i), Num(0), true);
      !f.poisoned && Live(g, u) && (Admits(g, v) ==> Admits(f, v) && v(Int(i)) >= 0)
  {
    hide Guarded, GuardMeans, Live, Admits, InLimits;
    LiveParts(f, u);
    LowGuard(f, low, i, u);
    LowGuard(f, low, i, v);
    GuardRecords(f, low, IntGe, Var(i), Num(0), true, u, u);
    GuardRecords(f, low, IntGe, Var(i), Num(0), true, u, v);
    LiveParts(Guarded(f, low, IntGe, Var(i), Num(0), true), u);
  }

  lemma HighStage(f: Facts, high: nat, i: nat, n: nat, u: Term -> int, v: Term -> int)
    requires !Guarded(f, high, IntLt, Var(i), Var(n), true).poisoned && Live(f, u) && v(Zero) == 0
    requires u(Int(i)) < u(Int(n))
    ensures var g := Guarded(f, high, IntLt, Var(i), Var(n), true);
      !f.poisoned && Live(g, u) && (Admits(g, v) ==> Admits(f, v) && v(Int(i)) < v(Int(n)))
  {
    hide Guarded, GuardMeans, Live, Admits, InLimits;
    LiveParts(f, u);
    HighGuard(f, high, i, n, u);
    HighGuard(f, high, i, n, v);
    GuardRecords(f, high, IntLt, Var(i), Var(n), true, u, u);
    GuardRecords(f, high, IntLt, Var(i), Var(n), true, u, v);
    LiveParts(Guarded(f, high, IntLt, Var(i), Var(n), true), u);
  }

  lemma GuardedUnpoisoned(f: Facts, cond: nat, op: Prim, a: Atom, b: Atom)
    requires !Guarded(f, cond, op, a, b, true).poisoned && IsComparison(op)
    ensures !f.poisoned
  {
    hide Refine, AddEdge, OpFacts, AccessFacts, Compared;
    var g := OpFacts(f, cond, op, [a, b]);
    GuardUnpoisoned(TransferLet(f, cond, Apply(op, [a, b])), cond, true);
    AddEdgeRecords(AccessFacts(g, op, [a, b]), Zero, Len(cond), 0, t => 0);
    AccessRecords(g, op, [a, b], t => 0);
    ComparedCase(f, cond, op, [a, b]);
    ComparedRecords(f, cond, op, [a, b], t => 0);
  }

  lemma InsideRecords(f: Facts, a: nat, n: nat, i: nat, low: nat, high: nat, u: Term -> int, v: Term -> int)
    requires !InsideGuards(f, a, n, i, low, high).poisoned && v(Zero) == 0
    requires Live(f, u) && u(Int(n)) == u(Len(a)) && 0 <= u(Int(i)) < u(Int(n))
    requires i in f.subs ==> u(Int(i)) == u(f.subs[i].0) - u(f.subs[i].1)
    ensures Admits(InsideGuards(f, a, n, i, low, high), v) ==> 0 <= v(Int(i)) < v(Len(a))
    ensures Live(InsideGuards(f, a, n, i, low, high), u)
  {
    hide TransferLet, Guarded, Live, Admits;
    var f1 := TransferLet(f, n, Apply(ArrayLength, [Var(a)]));
    var f2 := Guarded(f1, low, IntGe, Var(i), Num(0), true);
    GuardedUnpoisoned(f2, high, IntLt, Var(i), Var(n));
    GuardedUnpoisoned(f1, low, IntGe, Var(i), Num(0));
    LengthStage(f, n, a, u, v);
    LowStage(f1, low, i, u, v);
    HighStage(f2, high, i, n, u, v);
  }

  /** There the access of `a` at `i` loses its check, whenever the guards can be met at all. */
  lemma GuardedAccess(f: Facts, a: nat, n: nat, i: nat, low: nat, high: nat, u: Term -> int)
    requires !InsideGuards(f, a, n, i, low, high).poisoned
    requires Live(f, u) && u(Int(n)) == u(Len(a)) && 0 <= u(Int(i)) < u(Int(n))
    requires i in f.subs ==> u(Int(i)) == u(f.subs[i].0) - u(f.subs[i].1)
    ensures IndexKnown(InsideGuards(f, a, n, i, low, high), a, Var(i))
  {
    hide InsideGuards, Satisfies, Derivable, Live;
    var g := InsideGuards(f, a, n, i, low, high);
    LiveParts(f, u);
    InsideRecords(f, a, n, i, low, high, u, u);
    LiveParts(g, u);
    AdmitsConsistent(g, u);
    forall v: Term -> int | Satisfies(g.edges, v) && v(Zero) == 0
      ensures v(Zero) <= v(Int(i)) + 0 && v(Int(i)) <= v(Len(a)) + -1
    {
      InsideRecords(f, a, n, i, low, high, u, v);
    }
    DerivableIsEntailed(g.edges, Zero, Int(i), 0);
    DerivableIsEntailed(g.edges, Int(i), Len(a), -1);
  }

  /** No state on the way contradicts itself. */
  lemma InsideStates(f: Facts, a: nat, n: nat, i: nat, low: nat, high: nat, u: Term -> int)
    requires !InsideGuards(f, a, n, i, low, high).poisoned
    requires Live(f, u) && u(Int(n)) == u(Len(a)) && 0 <= u(Int(i)) < u(Int(n))
    requires i in f.subs ==> u(Int(i)) == u(f.subs[i].0) - u(f.subs[i].1)
    ensures var f1 := TransferLet(f, n, Apply(ArrayLength, [Var(a)]));
      var f2 := Guarded(f1, low, IntGe, Var(i), Num(0), true);
      && Consistent(f1) && Consistent(TransferLet(f1, low, Apply(IntGe, [Var(i), Num(0)]))) && Consistent(f2)
      && Consistent(TransferLet(f2, high, Apply(IntLt, [Var(i), Var(n)])))
      && Consistent(Guarded(f2, high, IntLt, Var(i), Var(n), true))
  {
    hide TransferLet, Refine, Live, Admits, Consistent;
    var f1 := TransferLet(f, n, Apply(ArrayLength, [Var(a)]));
    var f2 := Guarded(f1, low, IntGe, Var(i), Num(0), true);
    var f3 := Guarded(f2, high, IntLt, Var(i), Var(n), true);
    LiveParts(f, u);
    GuardUnpoisoned(TransferLet(f2, high, Apply(IntLt, [Var(i), Var(n)])), high, true);
    GuardedUnpoisoned(f2, high, IntLt, Var(i), Var(n));
    GuardUnpoisoned(TransferLet(f1, low, Apply(IntGe, [Var(i), Num(0)])), low, true);
    GuardedUnpoisoned(f1, low, IntGe, Var(i), Num(0));
    LengthStage(f, n, a, u, u);
    GuardLive(f1, low, IntGe, Var(i), Num(0), u);
    LowStage(f1, low, i, u, u);
    GuardLive(f2, high, IntLt, Var(i), Var(n), u);
    HighStage(f2, high, i, n, u, u);
    LiveConsistent(f1, u);
    LiveConsistent(f2, u);
    LiveConsistent(f3, u);
  }

  lemma LiveConsistent(f: Facts, u: Term -> int)
    requires Live(f, u)
    ensures Consistent(f)
  {
    AdmitsConsistent(f, u);
  }
}
