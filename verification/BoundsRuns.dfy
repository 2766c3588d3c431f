/** Concrete runs: what the facts say of a store, and why every transfer function,
    branch refinement and signature keeps them true along any run. */
module BoundsRuns {
  import opened Machine
  import opened Primitives
  import opened DifferenceGraph
  import opened BoundsFacts

  /** Arrays are represented by their length; elements may be anything. */
  datatype Val = IntV(n: I64) | BoolV(b: bool) | ArrV(len: nat) | TupleV(fields: seq<Val>) | OtherV(id: int)

  /** Allocation limits: array slots fit one allocation, field counts fit 32 bits. */
  predicate ValOk(v: Val) {
    match v
    case ArrV(len) => len <= ARRAY_LEN_MAX
    case TupleV(fields) => |fields| <= WHOLE && forall i :: 0 <= i < |fields| ==> ValOk(fields[i])
    case _ => true
  }

  /** Every local is bound once, so a store only grows along a run. */
  type Store = map<nat, Val>

  ghost predicate StoreOk(s: Store) {
    forall l :: l in s ==> ValOk(s[l])
  }

  function IntOf(v: Val): int {
    if v.IntV? then v.n else 0
  }

  function LenOf(v: Val): int {
    if v.ArrV? then v.len else 0
  }

  function TermVal(s: Store, t: Term): int {
    match t
    case Zero => 0
    case Int(l) => if l in s then IntOf(s[l]) else 0
    case Len(l) => if l in s then LenOf(s[l]) else 0
  }

  predicate InScope(s: Store, t: Term) {
    t.Zero? || t.local in s
  }

  // ----- what a fact state says of a store -----

  ghost predicate EdgesHold(s: Store, g: Graph) {
    forall e :: e in g ==>
      InScope(s, e.from) && InScope(s, e.to) && TermVal(s, e.from) <= TermVal(s, e.to) + g[e]
  }

  predicate Compare(op: Prim, l: int, r: int) {
    match op
    case IntLt => l < r
    case IntLe => l <= r
    case IntGt => l > r
    case IntGe => l >= r
    case _ => l == r
  }

  /** The comparison a boolean records. Structural equality also relates values that
      are not integers; then only its truth says something about the terms. */
  ghost predicate CondHolds(s: Store, c: Cond, b: bool) {
    && InScope(s, c.lhs) && InScope(s, c.rhs)
    && var holds := Compare(c.op, TermVal(s, c.lhs) + c.lhsOff, TermVal(s, c.rhs) + c.rhsOff);
       if c.op == Eq then (b ==> holds) && (!b && (c.lhs == Zero || c.rhs == Zero) ==> !holds)
       else b <==> holds
  }

  ghost predicate CondsHold(s: Store, conds: map<nat, Cond>) {
    forall l :: l in conds ==> l in s && s[l].BoolV? && CondHolds(s, conds[l], s[l].b)
  }

  ghost predicate SubsHold(s: Store, subs: map<nat, (Term, Term)>) {
    forall l :: l in subs ==>
      && l in s && InScope(s, subs[l].0) && InScope(s, subs[l].1)
      && TermVal(s, Int(l)) == TermVal(s, subs[l].0) - TermVal(s, subs[l].1)
  }

  /** The value of a signature term in a call with these arguments and this result. */
  function RVal(t: RTerm, actual: seq<Val>, result: Val): Option<int> {
    match t
    case RZero => Some(0)
    case RParam(i) => if i < |actual| then Some(IntOf(actual[i])) else None
    case RLenParam(i) => if i < |actual| then Some(LenOf(actual[i])) else None
    case ResultVal(k) =>
      if k == WHOLE then Some(IntOf(result))
      else if result.TupleV? && k < |result.fields| then Some(IntOf(result.fields[k])) else None
    case ResultLen(k) =>
      if k == WHOLE then Some(LenOf(result))
      else if result.TupleV? && k < |result.fields| then Some(LenOf(result.fields[k])) else None
  }

  predicate REdgeHolds(e: REdge, actual: seq<Val>, result: Val) {
    var a, b := RVal(e.from, actual, result), RVal(e.to, actual, result);
    a.Some? && b.Some? ==> a.value <= b.value + e.c
  }

  /** The signature is true of this call. */
  ghost predicate ResultHolds(sig: ResultSig, actual: seq<Val>, result: Val) {
    forall i :: 0 <= i < |sig| ==> REdgeHolds(sig[i], actual, result)
  }

  ghost predicate Matches(s: Store, args: seq<Option<nat>>, actual: seq<Val>) {
    |actual| == |args| &&
    forall i :: 0 <= i < |args| && args[i].Some? ==> args[i].value in s && actual[i] == s[args[i].value]
  }

  ghost predicate CallHolds(s: Store, base: nat, c: CallResult) {
    base in s && exists actual :: Matches(s, c.args, actual) && ResultHolds(c.sig, actual, s[base])
  }

  ghost predicate CallsHold(s: Store, calls: map<nat, CallResult>) {
    forall base :: base in calls ==> CallHolds(s, base, calls[base])
  }

  /** The store is one the facts describe. */
  ghost predicate Models(s: Store, f: Facts) {
    && StoreOk(s)
    && EdgesHold(s, f.edges)
    && CondsHold(s, f.conds)
    && SubsHold(s, f.subs)
    && CallsHold(s, f.callResults)
  }

  // ----- queries are sound -----

  lemma ModelsConsistent(s: Store, f: Facts)
    requires Models(s, f)
    ensures Satisfies(f.edges, t => TermVal(s, t)) && Consistent(f)
  {
    SatisfiableHasNoNegativeCycle(f.edges, t => TermVal(s, t));
  }

  lemma KnowsSound(s: Store, f: Facts, a: Term, b: Term, c: int)
    requires Models(s, f) && Knows(f, a, b, c)
    ensures TermVal(s, a) <= TermVal(s, b) + c
  {
    if a != b {
      var w :| Connects(f.edges, w, a, b) && Weight(f.edges, w) <= c;
      Telescope(f.edges, t => TermVal(s, t), w);
    }
  }

  lemma MachineSound(s: Store, t: Term)
    requires StoreOk(s)
    ensures MachineLow(t) <= TermVal(s, t) <= MachineHigh(t)
  {
  }

  /** The intervals contain the concrete value of every term. */
  lemma IntervalSound(s: Store, f: Facts, t: Term, l: int, h: int)
    requires Models(s, f)
    ensures AtLeast(f.edges, t, l) ==> l <= TermVal(s, t)
    ensures AtMost(f.edges, t, h) ==> TermVal(s, t) <= h
  {
    if AtLeast(f.edges, t, l) {
      var w :| IsWalk(f.edges, w) && End(w) == t && MachineLow(Start(w)) - Weight(f.edges, w) >= l;
      Telescope(f.edges, u => TermVal(s, u), w);
      MachineSound(s, Start(w));
    }
    if AtMost(f.edges, t, h) {
      var w :| IsWalk(f.edges, w) && Start(w) == t && MachineHigh(End(w)) + Weight(f.edges, w) <= h;
      Telescope(f.edges, u => TermVal(s, u), w);
      MachineSound(s, End(w));
    }
  }

  /** A recorded sum is the exact sum: the machine addition did not wrap. */
  lemma OffsetExact(s: Store, f: Facts, t: Term, offset: int)
    requires Models(s, f) && t.Int? && OffsetFits(f.edges, t, offset)
    ensures FitsI64(TermVal(s, t) + offset)
    ensures Wrap(TermVal(s, t) + offset) == TermVal(s, t) + offset
  {
    IntervalSound(s, f, t, I64_MIN - offset, I64_MAX - offset);
    MachineSound(s, t);
  }

  lemma DifferenceExact(s: Store, f: Facts, a: Term, b: Term)
    requires Models(s, f) && DifferenceFits(f.edges, a, b)
    ensures Wrap(TermVal(s, a) - TermVal(s, b)) == TermVal(s, a) - TermVal(s, b)
  {
    var l, h :| AtLeast(f.edges, a, l) && AtMost(f.edges, b, h) && l - h >= I64_MIN;
    IntervalSound(s, f, a, l, 0);
    IntervalSound(s, f, b, 0, h);
    var h2, l2 :| AtMost(f.edges, a, h2) && AtLeast(f.edges, b, l2) && h2 - l2 <= I64_MAX;
    IntervalSound(s, f, a, 0, h2);
    IntervalSound(s, f, b, l2, 0);
  }

  /** An index whose check is deleted is in bounds. */
  lemma IndexSound(s: Store, f: Facts, buffer: nat, index: Atom)
    requires Models(s, f) && buffer in s && s[buffer].ArrV?
    requires index.Var? ==> index.local in s && s[index.local].IntV?
    requires IndexKnown(f, buffer, index)
    ensures 0 <= AtomInt(s, index) < s[buffer].len
  {
    match index
    case Var(i) =>
      KnowsSound(s, f, Zero, Int(i), 0);
      KnowsSound(s, f, Int(i), Len(buffer), -1);
    case Num(n) =>
      KnowsSound(s, f, Zero, Len(buffer), -(n + 1));
  }

  /** A value the engine places in an interval is in it. */
  lemma RangeSound(s: Store, f: Facts, local: nat, minimum: int, maximum: int)
    requires Models(s, f) && InRange(f.edges, Int(local), minimum, maximum)
    ensures minimum <= TermVal(s, Int(local)) <= maximum
  {
    IntervalSound(s, f, Int(local), minimum, maximum);
  }

  function AtomInt(s: Store, a: Atom): int {
    match a
    case Var(l) => if l in s then IntOf(s[l]) else 0
    case Num(n) => n
    case OtherLit => 0
  }

  // ----- single updates -----

  lemma AddEdgeSound(s: Store, f: Facts, from: Term, to: Term, c: int)
    requires Models(s, f) && InScope(s, from) && InScope(s, to)
    requires TermVal(s, from) <= TermVal(s, to) + c
    ensures Models(s, AddEdge(f, from, to, c))
  {
    hide CondsHold, SubsHold, CallsHold, StoreOk, Terms;
  }

  lemma AddEqSound(s: Store, f: Facts, a: Term, b: Term, c: int)
    requires Models(s, f) && InScope(s, a) && InScope(s, b)
    requires TermVal(s, a) == TermVal(s, b) + c
    ensures Models(s, AddEq(f, a, b, c))
  {
    hide AddEdge, Models;
    AddEdgeSound(s, f, a, b, c);
    AddEdgeSound(s, AddEdge(f, a, b, c), b, a, -c);
  }

  lemma SetGeSound(s: Store, f: Facts, t: Term, n: int)
    requires Models(s, f) && InScope(s, t) && n <= TermVal(s, t)
    ensures Models(s, SetGe(f, t, n))
  {
    hide AddEdge, Models;
    AddEdgeSound(s, f, Zero, t, -n);
  }

  ghost predicate Extends(s: Store, t: Store) {
    forall l :: l in s ==> l in t && t[l] == s[l]
  }

  /** Binding another local changes nothing the facts speak of. */
  lemma ExtendModels(s: Store, t: Store, f: Facts)
    requires Models(s, f) && Extends(s, t) && StoreOk(t)
    ensures Models(t, f)
  {
    forall e | e in f.edges
      ensures InScope(t, e.from) && InScope(t, e.to) && TermVal(t, e.from) <= TermVal(t, e.to) + f.edges[e]
    {
      SameTerm(s, t, e.from);
      SameTerm(s, t, e.to);
    }
    forall l | l in f.conds ensures l in t && t[l].BoolV? && CondHolds(t, f.conds[l], t[l].b) {
      SameTerm(s, t, f.conds[l].lhs);
      SameTerm(s, t, f.conds[l].rhs);
    }
    forall l | l in f.subs ensures l in t && InScope(t, f.subs[l].0) && InScope(t, f.subs[l].1) &&
        TermVal(t, Int(l)) == TermVal(t, f.subs[l].0) - TermVal(t, f.subs[l].1)
    {
      SameTerm(s, t, f.subs[l].0);
      SameTerm(s, t, f.subs[l].1);
    }
    forall base | base in f.callResults ensures CallHolds(t, base, f.callResults[base]) {
      var c := f.callResults[base];
      assert CallHolds(s, base, c);
      var actual :| Matches(s, c.args, actual) && ResultHolds(c.sig, actual, s[base]);
      assert Matches(t, c.args, actual);
    }
  }

  lemma SameTerm(s: Store, t: Store, x: Term)
    requires Extends(s, t) && InScope(s, x)
    ensures InScope(t, x) && TermVal(t, x) == TermVal(s, x)
  {
  }

  // ----- evaluating a bound value -----

  ghost predicate AtomYields(a: Atom, s: Store, v: Val) {
    match a
    case Var(l) => l in s && v == s[l]
    case Num(n) => v == IntV(n)
    case OtherLit => !v.IntV? && !v.ArrV?
  }

  ghost predicate AtomsYield(args: seq<Atom>, s: Store, vals: seq<Val>) {
    |vals| == |args| && forall i :: 0 <= i < |args| ==> AtomYields(args[i], s, vals[i])
  }

  predicate Ints(vals: seq<Val>) {
    |vals| == 2 && vals[0].IntV? && vals[1].IntV?
  }

  predicate Indexed(vals: seq<Val>) {
    |vals| >= 2 && vals[0].ArrV? && vals[1].IntV?
  }

  predicate InBounds(vals: seq<Val>)
    requires Indexed(vals)
  {
    0 <= vals[1].n < vals[0].len
  }

  /** The primitive completes on these operands with this result. Elements read from
      arrays and results of other primitives are unconstrained. */
  ghost predicate PrimYields(op: Prim, vals: seq<Val>, v: Val) {
    match op
    case IntAdd => Ints(vals) && v == IntV(Wrap(vals[0].n + vals[1].n))
    case IntSub => Ints(vals) && v == IntV(Wrap(vals[0].n - vals[1].n))
    case IntAnd => Ints(vals) && v.IntV? && v.n as int == BitAnd(vals[0].n, vals[1].n)
    case IntRem => Ints(vals) && vals[1].n != 0 && v == IntV(TruncRem(vals[0].n, vals[1].n))
    case IntLt | IntLe | IntGt | IntGe => Ints(vals) && v == BoolV(Compare(op, vals[0].n, vals[1].n))
    case Eq =>
      |vals| == 2 && v.BoolV? && (vals[0].IntV? <==> vals[1].IntV?) &&
      (vals[0].IntV? ==> v.b == (vals[0].n == vals[1].n))
    case ArrayLength => |vals| == 1 && vals[0].ArrV? && v.IntV? && v.n as int == vals[0].len
    case ArrayWithCapacity => v == ArrV(0)
    case ArrayRepeat => |vals| == 2 && vals[0].IntV? && v == ArrV(Max(vals[0].n, 0))
    case ArrayPush | ArrayPushReserved => |vals| == 2 && vals[0].ArrV? && v == ArrV(vals[0].len + 1)
    case ArrayUnique => |vals| == 1 && v == vals[0]
    case ArraySet | ArrayPut => Indexed(vals) && InBounds(vals) && v == vals[0]
    case ArrayGet | ArrayPeek => Indexed(vals) && InBounds(vals)
    case _ => true
  }

  /** On these operands the primitive neither traps nor exceeds an allocation. */
  predicate Completes(op: Prim, vals: seq<Val>) {
    match op
    case IntAdd | IntSub | IntAnd | IntLt | IntLe | IntGt | IntGe => Ints(vals)
    case IntRem => Ints(vals) && vals[1].n != 0
    case Eq => |vals| == 2 && (vals[0].IntV? <==> vals[1].IntV?)
    case ArrayLength => |vals| == 1 && vals[0].ArrV?
    case ArrayRepeat => |vals| == 2 && vals[0].IntV? && vals[0].n <= ARRAY_LEN_MAX
    case ArrayPush | ArrayPushReserved => |vals| == 2 && vals[0].ArrV? && vals[0].len < ARRAY_LEN_MAX
    case ArrayUnique => |vals| == 1
    case ArraySet | ArrayPut | ArrayGet | ArrayPeek => Indexed(vals) && InBounds(vals)
    case _ => true
  }

  /** A primitive yields some value exactly when it completes: no step below is vacuous. */
  lemma PrimHasResult(op: Prim, vals: seq<Val>)
    requires forall i :: 0 <= i < |vals| ==> ValOk(vals[i])
    ensures (exists v :: ValOk(v) && PrimYields(op, vals, v)) <==> Completes(op, vals)
  {
    if Completes(op, vals) {
      if op == IntAnd { BitAndI64(vals[0].n, vals[1].n); }
      assert ValOk(ResultOf(op, vals)) && PrimYields(op, vals, ResultOf(op, vals));
    }
  }

  /** One such value. */
  function ResultOf(op: Prim, vals: seq<Val>): Val
    requires Completes(op, vals) && forall i :: 0 <= i < |vals| ==> ValOk(vals[i])
    requires op == IntAnd ==> FitsI64(BitAnd(vals[0].n, vals[1].n))
  {
    match op
    case IntAdd => IntV(Wrap(vals[0].n + vals[1].n))
    case IntSub => IntV(Wrap(vals[0].n - vals[1].n))
    case IntAnd => IntV(BitAnd(vals[0].n, vals[1].n))
    case IntRem => IntV(TruncRem(vals[0].n, vals[1].n))
    case IntLt | IntLe | IntGt | IntGe => BoolV(Compare(op, vals[0].n, vals[1].n))
    case Eq => BoolV(vals[0].IntV? && vals[0].n == vals[1].n)
    case ArrayLength => assert ValOk(vals[0]); IntV(vals[0].len)
    case ArrayWithCapacity => ArrV(0)
    case ArrayRepeat => ArrV(Max(vals[0].n, 0))
    case ArrayPush | ArrayPushReserved => ArrV(vals[0].len + 1)
    case ArrayUnique | ArraySet | ArrayPut => vals[0]
    case _ => OtherV(0)
  }

  ghost predicate Yields(value: Value, s: Store, v: Val) {
    && ValOk(v)
    && match Uncounted(value)
       case Operand(a) => AtomYields(a, s, v)
       case Apply(op, args) => exists vals :: AtomsYield(args, s, vals) && PrimYields(op, vals, v)
       case Project(Var(b), Some(k)) => b in s && s[b].TupleV? && k < |s[b].fields| && v == s[b].fields[k]
       case _ => true
  }

  // ----- each transfer function is sound -----

  /** Everything a transfer lemma needs: the facts hold after binding `local` to `v`. */
  ghost predicate Bound(s: Store, f: Facts, local: nat, v: Val) {
    Models(s, f) && local in s && s[local] == v
  }

  lemma OperandValue(s: Store, args: seq<Atom>, vals: seq<Val>, i: nat)
    requires AtomsYield(args, s, vals) && i < |args|
    ensures args[i].Var? ==>
      args[i].local in s && s[args[i].local] == vals[i] && TermVal(s, Int(args[i].local)) == IntOf(vals[i])
    ensures args[i].Num? ==> vals[i] == IntV(args[i].n)
    ensures AtomTermOff(args[i]).Some? ==>
      var (t, off) := AtomTermOff(args[i]).value;
      InScope(s, t) && TermVal(s, t) + off == IntOf(vals[i])
  {
    assert AtomYields(args[i], s, vals[i]);
  }

  lemma ConstSound(s: Store, f: Facts, local: nat, v: Val)
    requires Bound(s, f, local, v) && v.IntV?
    ensures Models(s, SetConst(f, Int(local), v.n))
  {
    hide Models, AddEq;
    AddEqSound(s, f, Int(local), Zero, v.n);
  }

  lemma AddSubSound(s: Store, f: Facts, local: nat, args: seq<Atom>, vals: seq<Val>, subtract: bool, v: Val)
    requires Bound(s, f, local, v) && AtomsYield(args, s, vals)
    requires PrimYields(if subtract then IntSub else IntAdd, vals, v)
    ensures Models(s, AddSub(f, local, args, subtract))
  {
    hide Models, AddEq, AddOffset, SubtractVars, AtomYields, AtomTermOff, Wrap;
    OperandValue(s, args, vals, 0);
    OperandValue(s, args, vals, 1);
    if args[0].Var? && args[1].Num? {
      AddOffsetSound(s, f, local, args[0].local, if subtract then 0 - args[1].n else args[1].n, v);
    } else if args[0].Num? && args[1].Var? && !subtract {
      AddOffsetSound(s, f, local, args[1].local, args[0].n, v);
    } else if args[0].Num? && args[1].Num? {
      ConstSound(s, f, local, v);
    } else if args[0].Var? && args[1].Var? && subtract {
      SubtractVarsSound(s, f, local, args[0].local, args[1].local, v);
    }
  }

  lemma AddOffsetSound(s: Store, f: Facts, local: nat, x: nat, offset: int, v: Val)
    requires Bound(s, f, local, v) && x in s && v.IntV? && v.n as int == Wrap(TermVal(s, Int(x)) + offset)
    ensures Models(s, AddOffset(f, local, x, offset))
  {
    hide Models, AddEq, OffsetFits;
    if OffsetFits(f.edges, Int(x), offset) {
      OffsetExact(s, f, Int(x), offset);
      AddEqSound(s, f, Int(local), Int(x), offset);
    }
  }

  lemma SubtractVarsSound(s: Store, f: Facts, local: nat, x: nat, y: nat, v: Val)
    requires Bound(s, f, local, v) && x in s && y in s
    requires v.IntV? && v.n as int == Wrap(TermVal(s, Int(x)) - TermVal(s, Int(y)))
    ensures Models(s, SubtractVars(f, local, x, y))
  {
    if x == y {
      AddEqSound(s, f, Int(local), Zero, 0);
    } else if DifferenceFits(f.edges, Int(x), Int(y)) {
      DifferenceExact(s, f, Int(x), Int(y));
    }
  }

  lemma UsableMaskSound(s: Store, f: Facts, args: seq<Atom>, vals: seq<Val>, i: nat)
    requires Models(s, f) && AtomsYield(args, s, vals) && i < |args| && vals[i].IntV? && UsableMask(f, args[i])
    ensures vals[i].n >= 0 && AtomTerm(args[i]).Some?
    ensures InScope(s, AtomTerm(args[i]).value) && TermVal(s, AtomTerm(args[i]).value) == vals[i].n
  {
    OperandValue(s, args, vals, i);
    KnowsSound(s, f, Zero, AtomTerm(args[i]).value, 0);
  }

  lemma MaskSound(s: Store, f: Facts, local: nat, args: seq<Atom>, vals: seq<Val>, v: Val)
    requires Bound(s, f, local, v) && AtomsYield(args, s, vals) && PrimYields(IntAnd, vals, v)
    ensures Models(s, Mask(f, local, args))
  {
    hide UsableMask, AddEdge;
    if UsableMask(f, args[1]) {
      UsableMaskSound(s, f, args, vals, 1);
      MaskBounds(vals[0].n, vals[1].n);
      MaskedBySound(s, f, local, AtomTerm(args[1]).value, v);
    } else if UsableMask(f, args[0]) {
      UsableMaskSound(s, f, args, vals, 0);
      MaskBoundsLeft(vals[0].n, vals[1].n);
      MaskedBySound(s, f, local, AtomTerm(args[0]).value, v);
    }
  }

  lemma MaskedBySound(s: Store, f: Facts, local: nat, m: Term, v: Val)
    requires Bound(s, f, local, v) && InScope(s, m) && v.IntV? && 0 <= v.n <= TermVal(s, m)
    ensures Models(s, MaskedBy(f, local, m))
  {
    hide Models, AddEdge;
    SetGeSound(s, f, Int(local), 0);
    AddEdgeSound(s, SetGe(f, Int(local), 0), Int(local), m, 0);
  }

  lemma RemSound(s: Store, f: Facts, local: nat, args: seq<Atom>, vals: seq<Val>, v: Val)
    requires Bound(s, f, local, v) && AtomsYield(args, s, vals) && PrimYields(IntRem, vals, v)
    ensures Models(s, Rem(f, local, args))
  {
    hide UsableMask, AddEdge;
    if UsableMask(f, args[0]) {
      UsableMaskSound(s, f, args, vals, 0);
      SetGeSound(s, f, Int(local), 0);
    }
  }

  lemma CountSound(s: Store, g: Facts, local: nat, count: nat, v: Val)
    requires Bound(s, g, local, v) && count in s && s[count].IntV? && v == ArrV(Max(s[count].n, 0))
    ensures var h := AddEdge(g, Int(count), Len(local), 0);
      Models(s, if Knows(h, Zero, Int(count), 0) then AddEq(h, Len(local), Int(count), 0) else h)
  {
    hide Models, AddEdge, AddEq, Knows;
    var h := AddEdge(g, Int(count), Len(local), 0);
    AddEdgeSound(s, g, Int(count), Len(local), 0);
    if Knows(h, Zero, Int(count), 0) {
      KnowsSound(s, h, Zero, Int(count), 0);
      AddEqSound(s, h, Len(local), Int(count), 0);
    }
  }

  lemma RepeatSound(s: Store, f: Facts, local: nat, args: seq<Atom>, vals: seq<Val>, v: Val)
    requires Bound(s, f, local, v) && AtomsYield(args, s, vals) && PrimYields(ArrayRepeat, vals, v)
    ensures Models(s, Repeat(f, local, args))
  {
    hide Models, AddEdge, AddEq, Knows, AtomYields;
    OperandValue(s, args, vals, 0);
    var g := SetGe(f, Len(local), 0);
    SetGeSound(s, f, Len(local), 0);
    match args[0]
    case Num(count) => AddEqSound(s, g, Len(local), Zero, Max(count, 0));
    case Var(count) => CountSound(s, g, local, count, v);
    case OtherLit =>
  }

  lemma CondSound(s: Store, op: Prim, args: seq<Atom>, vals: seq<Val>, v: Val)
    requires AtomsYield(args, s, vals) && PrimYields(op, vals, v)
    requires op == IntLt || op == IntLe || op == IntGt || op == IntGe || op == Eq
    requires |args| >= 2 && AtomTermOff(args[0]).Some? && AtomTermOff(args[1]).Some?
    ensures var l, r := AtomTermOff(args[0]).value, AtomTermOff(args[1]).value;
      v.BoolV? && CondHolds(s, Cond(op, l.0, l.1, r.0, r.1), v.b)
  {
    OperandValue(s, args, vals, 0);
    OperandValue(s, args, vals, 1);
  }

  lemma ComparedSound(s: Store, f: Facts, local: nat, op: Prim, args: seq<Atom>, vals: seq<Val>, v: Val)
    requires Bound(s, f, local, v) && AtomsYield(args, s, vals) && PrimYields(op, vals, v)
    requires op == IntLt || op == IntLe || op == IntGt || op == IntGe || op == Eq
    ensures Models(s, Compared(f, local, op, args))
  {
    hide EdgesHold, SubsHold, CallsHold, AtomsYield, PrimYields, CondHolds, AtomTermOff;
    if |args| >= 2 && AtomTermOff(args[0]).Some? && AtomTermOff(args[1]).Some? { CondSound(s, op, args, vals, v); }
  }

  lemma ReadLengthSound(s: Store, f: Facts, local: nat, args: seq<Atom>, vals: seq<Val>, v: Val)
    requires Bound(s, f, local, v) && AtomsYield(args, s, vals) && PrimYields(ArrayLength, vals, v)
    ensures Models(s, ReadLength(f, local, args))
  {
    hide AddEq, Models, AddEdge;
    if IsVar(args) {
      OperandValue(s, args, vals, 0);
      AddEqSound(s, f, Int(local), Len(args[0].local), 0);
      SetGeSound(s, AddEq(f, Int(local), Len(args[0].local), 0), Int(local), 0);
    }
  }

  lemma CapacitySound(s: Store, f: Facts, local: nat, vals: seq<Val>, v: Val)
    requires Bound(s, f, local, v) && PrimYields(ArrayWithCapacity, vals, v)
    ensures Models(s, SetConst(f, Len(local), 0))
  {
    hide AddEq, Models;
    AddEqSound(s, f, Len(local), Zero, 0);
  }

  lemma PushedSound(s: Store, f: Facts, local: nat, op: Prim, args: seq<Atom>, vals: seq<Val>, v: Val)
    requires Bound(s, f, local, v) && AtomsYield(args, s, vals) && PrimYields(op, vals, v)
    requires op == ArrayPush || op == ArrayPushReserved
    ensures Models(s, Pushed(f, local, args))
  {
    hide AddEq, Models, AddEdge;
    var g := if IsVar(args) then AddEq(f, Len(local), Len(args[0].local), 1) else f;
    if IsVar(args) {
      OperandValue(s, args, vals, 0);
      AddEqSound(s, f, Len(local), Len(args[0].local), 1);
    }
    SetGeSound(s, g, Len(local), 0);
  }

  lemma SameLengthSound(s: Store, f: Facts, local: nat, op: Prim, args: seq<Atom>, vals: seq<Val>, v: Val)
    requires Bound(s, f, local, v) && AtomsYield(args, s, vals) && PrimYields(op, vals, v)
    requires op == ArraySet || op == ArrayUnique || op == ArrayPut
    ensures Models(s, SameLength(f, local, args))
  {
    hide AddEq, Models;
    if IsVar(args) {
      OperandValue(s, args, vals, 0);
      AddEqSound(s, f, Len(local), Len(args[0].local), 0);
    }
  }

  lemma OpSound(s: Store, f: Facts, local: nat, op: Prim, args: seq<Atom>, vals: seq<Val>, v: Val)
    requires Bound(s, f, local, v) && AtomsYield(args, s, vals) && PrimYields(op, vals, v)
    ensures Models(s, OpFacts(f, local, op, args))
  {
    hide AddSub, Mask, Rem, Repeat, ReadLength, Pushed, SameLength, Compared, AddEq, AtomsYield, PrimYields, Models;
    match op
    case IntAdd => AddSubSound(s, f, local, args, vals, false, v);
    case IntSub => AddSubSound(s, f, local, args, vals, true, v);
    case IntAnd => MaskSound(s, f, local, args, vals, v);
    case IntRem => RemSound(s, f, local, args, vals, v);
    case ArrayLength => ReadLengthSound(s, f, local, args, vals, v);
    case ArrayWithCapacity => CapacitySound(s, f, local, vals, v);
    case ArrayRepeat => RepeatSound(s, f, local, args, vals, v);
    case ArrayPush | ArrayPushReserved => PushedSound(s, f, local, op, args, vals, v);
    case ArraySet | ArrayUnique | ArrayPut => SameLengthSound(s, f, local, op, args, vals, v);
    case IntLt | IntLe | IntGt | IntGe | Eq => ComparedSound(s, f, local, op, args, vals, v);
    case _ =>
  }

  lemma NoAccess(f: Facts, op: Prim, args: seq<Atom>)
    requires !(ChecksIndex(op) && |args| > 1 && args[0].Var? && AtomTermOff(args[1]).Some?)
    ensures AccessFacts(f, op, args) == f
  {
  }

  lemma AccessSound(s: Store, f: Facts, op: Prim, args: seq<Atom>, vals: seq<Val>)
    requires Models(s, f) && AtomsYield(args, s, vals)
    requires ChecksIndex(op) ==> Indexed(vals) && InBounds(vals)
    ensures Models(s, AccessFacts(f, op, args))
  {
    hide Models, AddEdge, AtomsYield, AtomTermOff, AccessFacts;
    if ChecksIndex(op) && |args| > 1 && args[0].Var? && AtomTermOff(args[1]).Some? {
      OperandValue(s, args, vals, 0);
      OperandValue(s, args, vals, 1);
      var t := AtomTermOff(args[1]).value;
      AccessEdges(s, f, t.0, t.1, args[0].local, vals[1].n, vals[0].len);
      AccessCases(f, op, args, t.0, t.1);
    } else {
      NoAccess(f, op, args);
    }
  }

  lemma AccessCases(f: Facts, op: Prim, args: seq<Atom>, index: Term, offset: I64)
    requires ChecksIndex(op) && |args| > 1 && args[0].Var? && AtomTermOff(args[1]) == Some((index, offset))
    ensures var g := AddEdge(f, Zero, index, offset);
      AccessFacts(f, op, args) == g || AccessFacts(f, op, args) ==
        AddEdge(g, index, Len(args[0].local), -1 - (offset as int))
  {
    hide AddEdge, AtomTermOff;
  }

  /** An index below the length, as two edges. */
  lemma AccessEdges(s: Store, f: Facts, index: Term, offset: I64, local: nat, i: int, len: int)
    requires Models(s, f) && InScope(s, index) && local in s && TermVal(s, index) + offset == i
    requires TermVal(s, Len(local)) == len && 0 <= i < len
    ensures Models(s, AddEdge(f, Zero, index, offset))
    ensures Models(s, AddEdge(AddEdge(f, Zero, index, offset), index, Len(local), -1 - (offset as int)))
  {
    hide Models, AddEdge;
    AddEdgeSound(s, f, Zero, index, offset);
    AddEdgeSound(s, AddEdge(f, Zero, index, offset), index, Len(local), -1 - (offset as int));
  }

  lemma AtomsExtend(s: Store, t: Store, args: seq<Atom>, vals: seq<Val>)
    requires AtomsYield(args, s, vals) && Extends(s, t)
    ensures AtomsYield(args, t, vals)
  {
    forall i | 0 <= i < |args| ensures AtomYields(args[i], t, vals[i]) {
      assert AtomYields(args[i], s, vals[i]);
    }
  }

  lemma LengthInScope(s: Store, local: nat)
    requires local in s
    ensures InScope(s, Len(local)) && TermVal(s, Len(local)) >= 0
  {
  }

  lemma PrimSound(s: Store, f: Facts, local: nat, op: Prim, args: seq<Atom>, vals: seq<Val>, v: Val)
    requires Bound(s, f, local, v) && AtomsYield(args, s, vals) && PrimYields(op, vals, v)
    ensures Models(s, TransferPrim(f, local, op, args))
  {
    hide Models, OpFacts, AccessFacts, AddEdge, PrimYields, AtomsYield, ChecksIndex, Indexed;
    LengthInScope(s, local);
    OpSound(s, f, local, op, args, vals, v);
    ChecksPass(op, vals, v);
    AccessSound(s, OpFacts(f, local, op, args), op, args, vals);
    SetGeSound(s, AccessFacts(OpFacts(f, local, op, args), op, args), Len(local), 0);
  }

  lemma BindModels(s: Store, f: Facts, local: nat, v: Val)
    requires Models(s, f) && local !in s && ValOk(v)
    ensures Models(s[local := v], f)
  {
    ExtendModels(s, s[local := v], f);
  }

  /** The facts after `local = value` describe the store after it. */
  lemma TransferLetSound(s: Store, f: Facts, local: nat, value: Value, v: Val)
    requires Models(s, f) && local !in s && Yields(value, s, v)
    ensures Models(s[local := v], TransferLet(f, local, value))
  {
    hide Models, AddEq, OpFacts, AccessFacts, AddEdge, PrimYields, FieldFacts, TransferField;
    var t := s[local := v];
    BindModels(s, f, local, v);
    match Uncounted(value)
    case Operand(Num(n)) => AddEqSound(t, f, Int(local), Zero, n);
    case Operand(Var(x)) =>
      AddEqSound(t, f, Int(local), Int(x), 0);
      AddEqSound(t, AddEq(f, Int(local), Int(x), 0), Len(local), Len(x), 0);
    case Apply(op, args) =>
      var vals :| AtomsYield(args, s, vals) && PrimYields(op, vals, v);
      AtomsExtend(s, t, args, vals);
      PrimSound(t, f, local, op, args, vals, v);
    case Project(Var(b), Some(k)) => TransferFieldSound(t, f, local, b, k);
    case _ =>
  }

  lemma ChecksPass(op: Prim, vals: seq<Val>, v: Val)
    requires PrimYields(op, vals, v)
    ensures ChecksIndex(op) ==> Indexed(vals) && InBounds(vals)
  {
    hide Wrap, BitAnd, TruncRem, Compare, Max;
  }

  // ----- branches -----

  lemma AddEdgeSubSound(s: Store, f: Facts, from: Term, to: Term, c: int)
    requires Models(s, f) && InScope(s, from) && InScope(s, to) && TermVal(s, from) <= TermVal(s, to) + c
    ensures Models(s, AddEdgeSub(f, from, to, c))
  {
    AddEdgeSound(s, f, from, to, c);
    hide AddEdge;
    var g := AddEdge(f, from, to, c);
    match (from, to)
    case (Int(l), Zero) => if l in g.subs { AddEdgeSound(s, g, g.subs[l].0, g.subs[l].1, c); }
    case (Zero, Int(l)) => if l in g.subs { AddEdgeSound(s, g, g.subs[l].1, g.subs[l].0, c); }
    case _ =>
  }

  lemma AssertCmpSound(s: Store, f: Facts, op: Prim, lhs: Term, lhsOff: I64, rhs: Term, rhsOff: I64)
    requires Models(s, f) && InScope(s, lhs) && InScope(s, rhs)
    requires Compare(op, TermVal(s, lhs) + lhsOff, TermVal(s, rhs) + rhsOff)
    ensures Models(s, AssertCmp(f, op, lhs, lhsOff, rhs, rhsOff))
  {
    hide Models, AddEdgeSub, AddEq, TermVal, InScope;
    var d := rhsOff - lhsOff;
    match op
    case IntLt => AddEdgeSubSound(s, f, lhs, rhs, d - 1);
    case IntLe => AddEdgeSubSound(s, f, lhs, rhs, d);
    case IntGt => AddEdgeSubSound(s, f, rhs, lhs, -d - 1);
    case IntGe => AddEdgeSubSound(s, f, rhs, lhs, -d);
    case Eq => AddEqSound(s, f, lhs, rhs, d);
    case _ =>
  }

  lemma RefineNeSound(s: Store, f: Facts, lhs: Term, rhs: Term)
    requires Models(s, f) && InScope(s, lhs) && InScope(s, rhs)
    requires lhs == Zero || rhs == Zero ==> TermVal(s, lhs) != TermVal(s, rhs)
    ensures Models(s, RefineNe(f, lhs, rhs))
  {
    hide Models, Knows, AddEdge;
    if lhs == Zero || rhs == Zero {
      var x := if lhs == Zero then rhs else lhs;
      var g := if Knows(f, Zero, x, 0) then AddEdge(f, Zero, x, -1) else f;
      if Knows(f, Zero, x, 0) {
        KnowsSound(s, f, Zero, x, 0);
        AddEdgeSound(s, f, Zero, x, -1);
      }
      if Knows(g, x, Zero, 0) {
        KnowsSound(s, g, x, Zero, 0);
        AddEdgeSound(s, g, x, Zero, -1);
      }
    }
  }

  /** The facts of the branch that is taken describe the store it is taken in. */
  lemma RefineSound(s: Store, f: Facts, cond: Atom, taken: bool)
    requires Models(s, f)
    requires cond.Var? ==> cond.local in s && s[cond.local] == BoolV(taken)
    ensures Models(s, Refine(f, cond, taken))
  {
    if cond.Var? && cond.local in f.conds {
      var c := f.conds[cond.local];
      assert CondHolds(s, c, taken);
      hide Models, AssertCmp, RefineNe, CondsHold;
      if c.op == Eq && !taken {
        if c.lhsOff == 0 && c.rhsOff == 0 {
          RefineNeSound(s, f, c.lhs, c.rhs);
        }
      } else {
        NegateComplements(c.op, TermVal(s, c.lhs) + c.lhsOff, TermVal(s, c.rhs) + c.rhsOff);
        CheckedOp(s, f, c, taken);
      }
    }
  }

  lemma CheckedOp(s: Store, f: Facts, c: Cond, taken: bool)
    requires Models(s, f) && CondHolds(s, c, taken) && (c.op == Eq ==> taken)
    requires Negate(c.op) == c.op || (Compare(Negate(c.op), TermVal(s, c.lhs) + c.lhsOff, TermVal(s, c.rhs) + c.rhsOff)
      <==> !Compare(c.op, TermVal(s, c.lhs) + c.lhsOff, TermVal(s, c.rhs) + c.rhsOff))
    ensures Models(s, AssertCmp(f, if taken then c.op else Negate(c.op), c.lhs, c.lhsOff, c.rhs, c.rhsOff))
  {
    var op := if taken then c.op else Negate(c.op);
    if Compare(op, TermVal(s, c.lhs) + c.lhsOff, TermVal(s, c.rhs) + c.rhsOff) {
      AssertCmpSound(s, f, op, c.lhs, c.lhsOff, c.rhs, c.rhsOff);
    } else {
      assert op == c.op && op != Eq;
    }
  }

  lemma NegateComplements(op: Prim, l: int, r: int)
    ensures Negate(op) == op || (Compare(Negate(op), l, r) <==> !Compare(op, l, r))
  {
  }

  // ----- interprocedural facts -----

  function PVal(t: PTerm, actual: seq<Val>): Option<int> {
    match t
    case PZero => Some(0)
    case Param(i) => if i < |actual| then Some(IntOf(actual[i])) else None
    case LenParam(i) => if i < |actual| then Some(LenOf(actual[i])) else None
  }

  /** The entry signature is true of these arguments. */
  ghost predicate EntryHolds(sig: BoundSig, actual: seq<Val>) {
    forall i :: 0 <= i < |sig| ==>
      var a, b := PVal(sig[i].from, actual), PVal(sig[i].to, actual);
      a.Some? && b.Some? ==> a.value <= b.value + sig[i].c
  }

  ghost predicate BindsParams(s: Store, params: seq<nat>, actual: seq<Val>) {
    |params| == |actual| && forall i :: 0 <= i < |params| ==> params[i] in s && s[params[i]] == actual[i]
  }

  lemma AddOptionalSound(s: Store, f: Facts, from: Option<Term>, to: Option<Term>, c: I64)
    requires Models(s, f)
    requires from.Some? && to.Some? ==>
      InScope(s, from.value) && InScope(s, to.value) && TermVal(s, from.value) <= TermVal(s, to.value) + c
    ensures Models(s, AddOptional(f, from, to, c))
  {
    hide Models, AddEdge;
    if from.Some? && to.Some? {
      AddEdgeSound(s, f, from.value, to.value, c);
    }
  }

  lemma EntryTermValue(s: Store, params: seq<nat>, actual: seq<Val>, t: PTerm)
    requires BindsParams(s, params, actual)
    ensures EntryTerm(t, params).Some? ==>
      InScope(s, EntryTerm(t, params).value) && PVal(t, actual) == Some(TermVal(s, EntryTerm(t, params).value))
  {
  }

  lemma {:induction false} SeedEntrySound(s: Store, f: Facts, sig: BoundSig, params: seq<nat>, actual: seq<Val>)
    requires Models(s, f) && BindsParams(s, params, actual) && EntryHolds(sig, actual)
    ensures Models(s, SeedEntry(f, sig, params))
    decreases |sig|
  {
    if sig != [] {
      hide Models, AddOptional;
      var n := |sig| - 1;
      var rest := sig[..n];
      assert EntryHolds(rest, actual) by {
        forall i | 0 <= i < |rest| ensures rest[i] == sig[i] {}
      }
      SeedEntrySound(s, f, rest, params, actual);
      EntryTermValue(s, params, actual, sig[n].from);
      EntryTermValue(s, params, actual, sig[n].to);
      AddOptionalSound(s, SeedEntry(f, rest, params), EntryTerm(sig[n].from, params), EntryTerm(sig[n].to, params),
        sig[n].c);
    }
  }

  lemma RestHolds(sig: ResultSig, actual: seq<Val>, result: Val)
    requires sig != [] && ResultHolds(sig, actual, result)
    ensures ResultHolds(sig[..|sig| - 1], actual, result) && REdgeHolds(sig[|sig| - 1], actual, result)
  {
  }

  lemma ResultTermValue(s: Store, local: nat, args: seq<Option<nat>>, actual: seq<Val>, t: RTerm)
    requires local in s && Matches(s, args, actual)
    ensures ResultTerm(t, local, args).Some? ==>
      InScope(s, ResultTerm(t, local, args).value) &&
      RVal(t, actual, s[local]) == Some(TermVal(s, ResultTerm(t, local, args).value))
  {
  }

  lemma {:induction false} WholeFactsSound(s: Store, f: Facts, local: nat, sig: ResultSig, args: seq<Option<nat>>,
      actual: seq<Val>)
    requires Models(s, f) && local in s && Matches(s, args, actual) && ResultHolds(sig, actual, s[local])
    ensures Models(s, WholeFacts(f, local, sig, args))
    decreases |sig|
  {
    if sig != [] {
      var n := |sig| - 1;
      RestHolds(sig, actual, s[local]);
      hide Models, AddOptional, ResultHolds;
      WholeFactsSound(s, f, local, sig[..n], args, actual);
      ResultTermValue(s, local, args, actual, sig[n].from);
      ResultTermValue(s, local, args, actual, sig[n].to);
      AddOptionalSound(s, WholeFacts(f, local, sig[..n], args),
        ResultTerm(sig[n].from, local, args), ResultTerm(sig[n].to, local, args), sig[n].c);
    }
  }

  lemma FieldTermValue(s: Store, local: nat, k: nat, args: seq<Option<nat>>, actual: seq<Val>, result: Val, t: RTerm)
    requires local in s && Matches(s, args, actual)
    requires result.TupleV? && k < |result.fields| <= WHOLE && s[local] == result.fields[k]
    ensures FieldTerm(t, k, local, args).Some? ==>
      InScope(s, FieldTerm(t, k, local, args).value) &&
      RVal(t, actual, result) == Some(TermVal(s, FieldTerm(t, k, local, args).value))
  {
  }

  lemma {:induction false} FieldFactsSound(s: Store, f: Facts, local: nat, k: nat, sig: ResultSig,
      args: seq<Option<nat>>, actual: seq<Val>, result: Val)
    requires Models(s, f) && local in s && Matches(s, args, actual) && ResultHolds(sig, actual, result)
    requires result.TupleV? && k < |result.fields| <= WHOLE && s[local] == result.fields[k]
    ensures Models(s, FieldFacts(f, local, k, sig, args))
    decreases |sig|
  {
    if sig != [] {
      var n := |sig| - 1;
      RestHolds(sig, actual, result);
      hide Models, AddOptional, ResultHolds;
      FieldFactsSound(s, f, local, k, sig[..n], args, actual, result);
      FieldTermValue(s, local, k, args, actual, result, sig[n].from);
      FieldTermValue(s, local, k, args, actual, result, sig[n].to);
      AddOptionalSound(s, FieldFacts(f, local, k, sig[..n], args),
        FieldTerm(sig[n].from, k, local, args), FieldTerm(sig[n].to, k, local, args), sig[n].c);
    }
  }

  /** A projection made any time after the call still instantiates true facts. */
  lemma TransferFieldSound(s: Store, f: Facts, local: nat, base: nat, k: nat)
    requires Models(s, f) && local in s && base in s
    requires s[base].TupleV? && k < |s[base].fields| && s[local] == s[base].fields[k]
    ensures Models(s, TransferField(f, local, base, k))
  {
    if base in f.callResults {
      var c := f.callResults[base];
      assert CallHolds(s, base, c);
      var actual :| Matches(s, c.args, actual) && ResultHolds(c.sig, actual, s[base]);
      assert ValOk(s[base]);
      hide Models, FieldFacts;
      FieldFactsSound(s, f, local, k, c.sig, c.args, actual, s[base]);
    }
  }

  lemma ArgsMatch(s: Store, args: seq<Atom>, vals: seq<Val>)
    requires AtomsYield(args, s, vals)
    ensures Matches(s, ArgLocals(args), vals)
  {
    forall i | 0 <= i < |args| && ArgLocals(args)[i].Some?
      ensures ArgLocals(args)[i].value in s && vals[i] == s[ArgLocals(args)[i].value]
    {
      OperandValue(s, args, vals, i);
    }
  }

  lemma {:induction false} WholeKeepsTables(f: Facts, local: nat, sig: ResultSig, args: seq<Option<nat>>)
    ensures var g := WholeFacts(f, local, sig, args);
      g.conds == f.conds && g.subs == f.subs && g.callResults == f.callResults
    decreases |sig|
  {
    if sig != [] {
      WholeKeepsTables(f, local, sig[..|sig| - 1], args);
    }
  }

  lemma TransferCallSound(s: Store, f: Facts, local: nat, sig: ResultSig, args: seq<Atom>, actual: seq<Val>, v: Val)
    requires Models(s, f) && local !in s && ValOk(v)
    requires AtomsYield(args, s, actual) && ResultHolds(sig, actual, v)
    ensures Models(s[local := v], TransferCall(f, local, sig, args))
  {
    var t := s[local := v];
    var locals := ArgLocals(args);
    ExtendModels(s, t, f);
    AtomsExtend(s, t, args, actual);
    ArgsMatch(t, args, actual);
    WholeFactsSound(t, f, local, sig, locals, actual);
    WholeKeepsTables(f, local, sig, locals);
    hide WholeFacts, EdgesHold, CondsHold, SubsHold;
    assert CallHolds(t, local, CallResult(sig, locals));
  }

  ghost predicate BindsAll(s: Store, locals: seq<nat>, vals: seq<Val>) {
    |locals| == |vals| && forall i :: 0 <= i < |locals| ==> locals[i] in s && s[locals[i]] == vals[i]
  }

  lemma ManyTermValue(s: Store, locals: seq<nat>, args: seq<Option<nat>>, actual: seq<Val>, results: seq<Val>, t: RTerm)
    requires BindsAll(s, locals, results) && Matches(s, args, actual) && |results| <= WHOLE
    ensures ManyTerm(t, locals, args).Some? ==>
      InScope(s, ManyTerm(t, locals, args).value) &&
      RVal(t, actual, TupleV(results)) == Some(TermVal(s, ManyTerm(t, locals, args).value))
  {
  }

  lemma {:induction false} TransferManySound(s: Store, f: Facts, locals: seq<nat>, sig: ResultSig,
      args: seq<Option<nat>>, actual: seq<Val>, results: seq<Val>)
    requires Models(s, f) && BindsAll(s, locals, results) && Matches(s, args, actual)
    requires ResultHolds(sig, actual, TupleV(results)) && |results| <= WHOLE
    ensures Models(s, TransferMany(f, locals, sig, args))
    decreases |sig|
  {
    if sig != [] {
      var n := |sig| - 1;
      RestHolds(sig, actual, TupleV(results));
      hide Models, AddOptional, ResultHolds;
      TransferManySound(s, f, locals, sig[..n], args, actual, results);
      ManyTermValue(s, locals, args, actual, results, sig[n].from);
      ManyTermValue(s, locals, args, actual, results, sig[n].to);
      AddOptionalSound(s, TransferMany(f, locals, sig[..n], args),
        ManyTerm(sig[n].from, locals, args), ManyTerm(sig[n].to, locals, args), sig[n].c);
    }
  }
}
