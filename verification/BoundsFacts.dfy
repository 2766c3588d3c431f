/** The fact state of the bounds engine as a value, and what each operation does to
    it. Queries are stated by walks, so nothing here says how they are computed. */
module BoundsFacts {
  import opened Machine
  import opened Primitives
  import opened DifferenceGraph

  /** More distinct terms than this poison a graph. */
  const TERM_CAP: nat := 96

  /** Weights of larger magnitude are not recorded. */
  const CONST_CAP: int := 0x100_0000_0000

  /** Eight-byte slots within one signed-size allocation. */
  const ARRAY_LEN_MAX: int := I64_MAX / 8

  /** The tuple-field marker of a whole result. */
  const WHOLE: nat := 0xffff_ffff

  /** An operand in A-normal form. */
  datatype Atom = Var(local: nat) | Num(n: I64) | OtherLit

  /** The right-hand side of a binding, as the transfer functions see it. */
  datatype Value =
    | Operand(atom: Atom)
    | Apply(op: Prim, args: seq<Atom>)
    | Project(base: Atom, index: Option<nat>)
    | Counted(body: Value)
    | Unanalysed

  /** `lhs + lhsOff OP rhs + rhsOff`. */
  datatype Cond = Cond(op: Prim, lhs: Term, lhsOff: I64, rhs: Term, rhsOff: I64)

  /** A parameter-indexed term of an entry signature. */
  datatype PTerm = PZero | Param(index: nat) | LenParam(index: nat)

  /** A term of a result signature. */
  datatype RTerm = RZero | RParam(index: nat) | RLenParam(index: nat) | ResultVal(field: nat) | ResultLen(field: nat)

  datatype PEdge = PEdge(from: PTerm, to: PTerm, c: I64)
  datatype REdge = REdge(from: RTerm, to: RTerm, c: I64)

  type BoundSig = seq<PEdge>
  type ResultSig = seq<REdge>

  datatype CallResult = CallResult(sig: ResultSig, args: seq<Option<nat>>)

  datatype Facts = Facts(
    edges: Graph,
    conds: map<nat, Cond>,
    subs: map<nat, (Term, Term)>,
    callResults: map<nat, CallResult>,
    poisoned: bool)

  const NO_FACTS := Facts(map[], map[], map[], map[], false)

  /** What every reachable state keeps: no self-loops, clamped weights, few terms. */
  ghost predicate WellFormed(f: Facts) {
    && (forall e :: e in f.edges ==> e.from != e.to && -CONST_CAP <= f.edges[e] <= CONST_CAP)
    && |Terms(f.edges)| <= TERM_CAP
  }

  /** A graph some integer assignment satisfies. Live code only meets such graphs. */
  ghost predicate Consistent(f: Facts) {
    NoNegativeCycle(f.edges)
  }

  // ----- the walk-level meaning of the queries -----

  /** `a <= b + c` is answered positively. */
  ghost predicate Knows(f: Facts, a: Term, b: Term, c: int) {
    if a == b then 0 <= c else !f.poisoned && Derivable(f.edges, a, b, c)
  }

  function MachineLow(t: Term): int {
    match t
    case Zero => 0
    case Int(_) => I64_MIN
    case Len(_) => 0
  }

  function MachineHigh(t: Term): int {
    match t
    case Zero => 0
    case Int(_) => I64_MAX
    case Len(_) => ARRAY_LEN_MAX
  }

  /** Some walk from `t` and a machine limit bound `t` from above by `h`. */
  ghost predicate AtMost(g: Graph, t: Term, h: int) {
    exists w :: IsWalk(g, w) && Start(w) == t && MachineHigh(End(w)) + Weight(g, w) <= h
  }

  /** Some walk into `t` and a machine limit bound `t` from below by `l`. */
  ghost predicate AtLeast(g: Graph, t: Term, l: int) {
    exists w :: IsWalk(g, w) && End(w) == t && MachineLow(Start(w)) - Weight(g, w) >= l
  }

  ghost predicate OffsetFits(g: Graph, t: Term, offset: int) {
    offset == 0 || (AtLeast(g, t, I64_MIN - offset) && AtMost(g, t, I64_MAX - offset))
  }

  ghost predicate DifferenceFits(g: Graph, a: Term, b: Term) {
    && (exists l, h :: AtLeast(g, a, l) && AtMost(g, b, h) && l - h >= I64_MIN)
    && (exists l, h :: AtMost(g, a, h) && AtLeast(g, b, l) && h - l <= I64_MAX)
  }

  ghost predicate EmptyInterval(g: Graph, t: Term) {
    exists l, h :: AtLeast(g, t, l) && AtMost(g, t, h) && l > h
  }

  /** The interval of `t` lies within `[minimum, maximum]` and is not empty. */
  ghost predicate InRange(g: Graph, t: Term, minimum: int, maximum: int) {
    t in Terms(g) && !EmptyInterval(g, t) && AtLeast(g, t, minimum) && AtMost(g, t, maximum)
  }

  /** When the check of an index against an array may be deleted. */
  ghost predicate IndexKnown(f: Facts, buffer: nat, index: Atom) {
    !f.poisoned &&
    match index
    case Var(i) => Knows(f, Zero, Int(i), 0) && Knows(f, Int(i), Len(buffer), -1)
    case Num(n) => n >= 0 && FitsI64(n + 1) && Knows(f, Zero, Len(buffer), -(n + 1))
    case OtherLit => false
  }

  // ----- updates -----

  function AddEdge(f: Facts, from: Term, to: Term, c: int): (r: Facts) {
    if f.poisoned || from == to || !(-CONST_CAP <= c <= CONST_CAP) then f
    else
      var added := (if from in Terms(f.edges) then 0 else 1) + (if to in Terms(f.edges) then 0 else 1);
      if added > 0 && |Terms(f.edges)| + added > TERM_CAP then f.(poisoned := true)
      else
        var e := Edge(from, to);
        f.(edges := f.edges[e := if e in f.edges then Min(f.edges[e], c) else c])
  }

  function AddEq(f: Facts, a: Term, b: Term, c: int): Facts {
    AddEdge(AddEdge(f, a, b, c), b, a, -c)
  }

  function SetConst(f: Facts, t: Term, n: int): Facts {
    AddEq(f, t, Zero, n)
  }

  function SetGe(f: Facts, t: Term, n: int): Facts {
    AddEdge(f, Zero, t, -n)
  }

  function Uncounted(v: Value): Value {
    match v
    case Counted(body) => Uncounted(body)
    case _ => v
  }

  function AtomTerm(a: Atom): Option<Term> {
    match a
    case Var(l) => Some(Int(l))
    case Num(n) => if n == 0 then Some(Zero) else None
    case OtherLit => None
  }

  function AtomTermOff(a: Atom): Option<(Term, I64)> {
    match a
    case Var(l) => Some((Int(l), 0))
    case Num(n) => Some((Zero, n))
    case OtherLit => None
  }

  ghost function AddSub(f: Facts, local: nat, args: seq<Atom>, subtract: bool): Facts {
    if |args| < 2 then f
    else if args[0].Var? && args[1].Num? then
      AddOffset(f, local, args[0].local, if subtract then 0 - args[1].n else args[1].n)
    else if args[0].Num? && args[1].Var? && !subtract then AddOffset(f, local, args[1].local, args[0].n)
    else if args[0].Num? && args[1].Num? then
      SetConst(f, Int(local), if subtract then Wrap(args[0].n - args[1].n) else Wrap(args[0].n + args[1].n))
    else if args[0].Var? && args[1].Var? && subtract then SubtractVars(f, local, args[0].local, args[1].local)
    else f
  }

  /** `local = x + offset`, recorded only when the sum provably does not wrap. */
  ghost function AddOffset(f: Facts, local: nat, x: nat, offset: int): Facts {
    if FitsI64(offset) && OffsetFits(f.edges, Int(x), offset) then AddEq(f, Int(local), Int(x), offset) else f
  }

  /** `local = x - y` is kept aside for a later guard on `local`. */
  ghost function SubtractVars(f: Facts, local: nat, x: nat, y: nat): Facts {
    if x == y then SetConst(f, Int(local), 0)
    else if DifferenceFits(f.edges, Int(x), Int(y)) then f.(subs := f.subs[local := (Int(x), Int(y))])
    else f
  }

  ghost predicate UsableMask(f: Facts, mask: Atom) {
    var m := AtomTerm(mask);
    m.Some? && Knows(f, Zero, m.value, 0)
  }

  function MaskedBy(f: Facts, local: nat, m: Term): Facts {
    AddEdge(SetGe(f, Int(local), 0), Int(local), m, 0)
  }

  ghost function Mask(f: Facts, local: nat, args: seq<Atom>): Facts {
    if |args| < 2 then f
    else if UsableMask(f, args[1]) then MaskedBy(f, local, AtomTerm(args[1]).value)
    else if UsableMask(f, args[0]) then MaskedBy(f, local, AtomTerm(args[0]).value)
    else f
  }

  ghost function Rem(f: Facts, local: nat, args: seq<Atom>): Facts {
    if |args| > 0 && UsableMask(f, args[0]) then SetGe(f, Int(local), 0) else f
  }

  ghost function Repeat(f: Facts, local: nat, args: seq<Atom>): Facts {
    var g := SetGe(f, Len(local), 0);
    if |args| == 0 then g
    else match args[0]
      case Num(count) => SetConst(g, Len(local), Max(count, 0))
      case Var(count) =>
        var h := AddEdge(g, Int(count), Len(local), 0);
        if Knows(h, Zero, Int(count), 0) then AddEq(h, Len(local), Int(count), 0) else h
      case OtherLit => g
  }

  function Compared(f: Facts, local: nat, op: Prim, args: seq<Atom>): Facts {
    if |args| < 2 then f
    else
      var l, r := AtomTermOff(args[0]), AtomTermOff(args[1]);
      if l.Some? && r.Some? then
        f.(conds := f.conds[local := Cond(op, l.value.0, l.value.1, r.value.0, r.value.1)])
      else f
  }

  predicate IsVar(args: seq<Atom>) {
    |args| > 0 && args[0].Var?
  }

  function ReadLength(f: Facts, local: nat, args: seq<Atom>): Facts {
    if IsVar(args) then SetGe(AddEq(f, Int(local), Len(args[0].local), 0), Int(local), 0) else f
  }

  function Pushed(f: Facts, local: nat, args: seq<Atom>): Facts {
    SetGe(if IsVar(args) then AddEq(f, Len(local), Len(args[0].local), 1) else f, Len(local), 0)
  }

  function SameLength(f: Facts, local: nat, args: seq<Atom>): Facts {
    if IsVar(args) then AddEq(f, Len(local), Len(args[0].local), 0) else f
  }

  /** The effect of the operation itself, before the facts every primitive adds. */
  ghost function OpFacts(f: Facts, local: nat, op: Prim, args: seq<Atom>): Facts {
    match op
    case IntAdd => AddSub(f, local, args, false)
    case IntSub => AddSub(f, local, args, true)
    case IntAnd => Mask(f, local, args)
    case IntRem => Rem(f, local, args)
    case ArrayLength => ReadLength(f, local, args)
    case ArrayWithCapacity => SetConst(f, Len(local), 0)
    case ArrayRepeat => Repeat(f, local, args)
    case ArrayPush | ArrayPushReserved => Pushed(f, local, args)
    case ArraySet | ArrayUnique | ArrayPut => SameLength(f, local, args)
    case IntLt | IntLe | IntGt | IntGe | Eq => Compared(f, local, op, args)
    case _ => f
  }

  predicate ChecksIndex(op: Prim) {
    op == ArrayGet || op == ArrayPeek || op == ArraySet
  }

  /** A checked access that returned proves its own index. */
  function AccessFacts(f: Facts, op: Prim, args: seq<Atom>): Facts {
    if ChecksIndex(op) && |args| > 1 && args[0].Var? && AtomTermOff(args[1]).Some? then
      var (index, offset) := AtomTermOff(args[1]).value;
      var g := AddEdge(f, Zero, index, offset);
      var upper := -1 - (offset as int);
      if FitsI64(0 - offset) && FitsI64(upper) then AddEdge(g, index, Len(args[0].local), upper) else g
    else f
  }

  ghost function TransferPrim(f: Facts, local: nat, op: Prim, args: seq<Atom>): Facts {
    SetGe(AccessFacts(OpFacts(f, local, op, args), op, args), Len(local), 0)
  }

  function ResultTerm(t: RTerm, local: nat, args: seq<Option<nat>>): Option<Term> {
    match t
    case RZero => Some(Zero)
    case RParam(i) => if i < |args| && args[i].Some? then Some(Int(args[i].value)) else None
    case RLenParam(i) => if i < |args| && args[i].Some? then Some(Len(args[i].value)) else None
    case ResultVal(k) => if k == WHOLE then Some(Int(local)) else None
    case ResultLen(k) => if k == WHOLE then Some(Len(local)) else None
  }

  function FieldTerm(t: RTerm, k: nat, fieldLocal: nat, args: seq<Option<nat>>): Option<Term> {
    match t
    case RZero => Some(Zero)
    case RParam(i) => if i < |args| && args[i].Some? then Some(Int(args[i].value)) else None
    case RLenParam(i) => if i < |args| && args[i].Some? then Some(Len(args[i].value)) else None
    case ResultVal(j) => if j == k then Some(Int(fieldLocal)) else None
    case ResultLen(j) => if j == k then Some(Len(fieldLocal)) else None
  }

  function ManyTerm(t: RTerm, locals: seq<nat>, args: seq<Option<nat>>): Option<Term> {
    match t
    case RZero => Some(Zero)
    case RParam(i) => if i < |args| && args[i].Some? then Some(Int(args[i].value)) else None
    case RLenParam(i) => if i < |args| && args[i].Some? then Some(Len(args[i].value)) else None
    case ResultVal(j) => if j < |locals| then Some(Int(locals[j])) else None
    case ResultLen(j) => if j < |locals| then Some(Len(locals[j])) else None
  }

  function EntryTerm(t: PTerm, params: seq<nat>): Option<Term> {
    match t
    case PZero => Some(Zero)
    case Param(i) => if i < |params| then Some(Int(params[i])) else None
    case LenParam(i) => if i < |params| then Some(Len(params[i])) else None
  }

  function ArgLocals(args: seq<Atom>): (r: seq<Option<nat>>)
    ensures |r| == |args|
    ensures forall i :: 0 <= i < |args| ==> r[i] == if args[i].Var? then Some(args[i].local) else None
  {
    seq(|args|, i requires 0 <= i < |args| => if args[i].Var? then Some(args[i].local) else None)
  }

  function AddOptional(f: Facts, from: Option<Term>, to: Option<Term>, c: I64): Facts {
    if from.Some? && to.Some? then AddEdge(f, from.value, to.value, c) else f
  }

  function SeedEntry(f: Facts, sig: BoundSig, params: seq<nat>): Facts
    decreases |sig|
  {
    if sig == [] then f
    else
      var n := |sig| - 1;
      AddOptional(SeedEntry(f, sig[..n], params), EntryTerm(sig[n].from, params), EntryTerm(sig[n].to, params),
        sig[n].c)
  }

  function WholeFacts(f: Facts, local: nat, sig: ResultSig, args: seq<Option<nat>>): Facts
    decreases |sig|
  {
    if sig == [] then f
    else
      var n := |sig| - 1;
      AddOptional(WholeFacts(f, local, sig[..n], args),
                  ResultTerm(sig[n].from, local, args), ResultTerm(sig[n].to, local, args), sig[n].c)
  }

  function FieldFacts(f: Facts, local: nat, k: nat, sig: ResultSig, args: seq<Option<nat>>): Facts
    decreases |sig|
  {
    if sig == [] then f
    else
      var n := |sig| - 1;
      AddOptional(FieldFacts(f, local, k, sig[..n], args),
                  FieldTerm(sig[n].from, k, local, args), FieldTerm(sig[n].to, k, local, args), sig[n].c)
  }

  function TransferMany(f: Facts, locals: seq<nat>, sig: ResultSig, args: seq<Option<nat>>): Facts
    decreases |sig|
  {
    if sig == [] then f
    else
      var n := |sig| - 1;
      AddOptional(TransferMany(f, locals, sig[..n], args),
                  ManyTerm(sig[n].from, locals, args), ManyTerm(sig[n].to, locals, args), sig[n].c)
  }

  predicate IsField(t: RTerm) {
    (t.ResultVal? || t.ResultLen?) && t.field != WHOLE
  }

  predicate MentionsField(sig: ResultSig) {
    exists i :: 0 <= i < |sig| && (IsField(sig[i].from) || IsField(sig[i].to))
  }

  function TransferCall(f: Facts, local: nat, sig: ResultSig, args: seq<Atom>): Facts {
    var locals := ArgLocals(args);
    var g := WholeFacts(f, local, sig, locals);
    if MentionsField(sig) then g.(callResults := g.callResults[local := CallResult(sig, locals)]) else g
  }

  function TransferField(f: Facts, local: nat, base: nat, k: nat): Facts {
    if base in f.callResults then FieldFacts(f, local, k, f.callResults[base].sig, f.callResults[base].args) else f
  }

  /** The effect of binding `local = value`. */
  ghost function TransferLet(f: Facts, local: nat, value: Value): Facts {
    match Uncounted(value)
    case Operand(Num(n)) => SetConst(f, Int(local), n)
    case Operand(Var(x)) => AddEq(AddEq(f, Int(local), Int(x), 0), Len(local), Len(x), 0)
    case Apply(op, args) => TransferPrim(f, local, op, args)
    case Project(Var(b), Some(k)) => TransferField(f, local, b, k)
    case _ => f
  }

  function Negate(op: Prim): Prim {
    match op
    case IntLt => IntGe
    case IntLe => IntGt
    case IntGt => IntLe
    case IntGe => IntLt
    case _ => op
  }

  /** A bound on a recorded subtraction is also a bound between its operands. */
  function AddEdgeSub(f: Facts, from: Term, to: Term, c: int): Facts {
    var g := AddEdge(f, from, to, c);
    match (from, to)
    case (Int(l), Zero) => if l in g.subs then AddEdge(g, g.subs[l].0, g.subs[l].1, c) else g
    case (Zero, Int(l)) => if l in g.subs then AddEdge(g, g.subs[l].1, g.subs[l].0, c) else g
    case _ => g
  }

  function AssertCmp(f: Facts, op: Prim, lhs: Term, lhsOff: I64, rhs: Term, rhsOff: I64): Facts {
    var d := rhsOff - lhsOff;
    match op
    case IntLt => if FitsI64(d - 1) then AddEdgeSub(f, lhs, rhs, d - 1) else f
    case IntLe => if FitsI64(d) then AddEdgeSub(f, lhs, rhs, d) else f
    case IntGt => if FitsI64(-d - 1) then AddEdgeSub(f, rhs, lhs, -d - 1) else f
    case IntGe => if FitsI64(-d) then AddEdgeSub(f, rhs, lhs, -d) else f
    case Eq => if FitsI64(d) then AddEq(f, lhs, rhs, d) else f
    case _ => f
  }

  ghost function RefineNe(f: Facts, lhs: Term, rhs: Term): Facts {
    if lhs != Zero && rhs != Zero then f
    else
      var x := if lhs == Zero then rhs else lhs;
      if x == Zero then f
      else
        var g := if Knows(f, Zero, x, 0) then AddEdge(f, Zero, x, -1) else f;
        if Knows(g, x, Zero, 0) then AddEdge(g, x, Zero, -1) else g
  }

  /** The effect of entering the `taken` branch of a conditional on `cond`. */
  ghost function Refine(f: Facts, cond: Atom, taken: bool): Facts {
    if !cond.Var? || cond.local !in f.conds then f
    else
      var c := f.conds[cond.local];
      if c.op == Eq && !taken then
        if c.lhsOff == 0 && c.rhsOff == 0 then RefineNe(f, c.lhs, c.rhs) else f
      else
        AssertCmp(f, if taken then c.op else Negate(c.op), c.lhs, c.lhsOff, c.rhs, c.rhsOff)
  }
}
