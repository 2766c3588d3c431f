/** Which loops get a plan: a lexical description of a counted loop, without the scanner's
    state or budget, that holds exactly when the planner answers. */
module FixedPointShape {
  import opened Machine
  import opened Primitives
  import opened Core
  import opened CoreLoop
  import opened FixedPointPlan
  import opened Sequences

  /** What is lexically in scope: whether each local may depend on the counter, and the values
      of the bound ones. */
  datatype Scope = Scope(deps: map<nat, bool>, defs: Defs)

  /** Whether the value may depend on the counter. */
  function Depends(deps: map<nat, bool>, e: Expr): bool
    decreases e, 0
  {
    match e
    case Local(id) => id in deps && deps[id]
    case Let(local, value, body) => Depends(deps[local := Depends(deps, value)], body)
    case If(_, thn, els) => Depends(deps, thn) || Depends(deps, els)
    case Prim(_, args) => DependsIn(deps, args)
    case Dup(_, body) => Depends(deps, body)
    case Drop(_, body) => Depends(deps, body)
    case _ => false
  }

  function DependsIn(deps: map<nat, bool>, args: seq<Expr>): bool
    decreases args, 1
  {
    args != [] && (Depends(deps, args[0]) || DependsIn(deps, args[1..]))
  }

  /** `e` stands for `r` through at most `n` definitions and reference-count wrappers. */
  predicate Denotes(defs: Defs, e: Expr, r: Expr, n: nat)
    decreases n
  {
    e == r ||
    (n > 0 &&
     match e
     case Local(id) => id in defs && Denotes(defs, defs[id], r, n - 1)
     case Dup(_, body) => Denotes(defs, body, r, n - 1)
     case Drop(_, body) => Denotes(defs, body, r, n - 1)
     case _ => false)
  }

  ghost predicate StandsFor(defs: Defs, e: Expr, r: Expr) {
    Denotes(defs, e, r, RESOLVE_STEPS)
  }

  /** The operand is the counter plus one, or minus one. */
  ghost predicate StepsByOne(params: seq<nat>, plan: Plan, defs: Defs, arg: Expr)
    requires plan.counter < |params|
  {
    exists a, b ::
      && StandsFor(defs, arg, Prim(if plan.descending then IntSub else IntAdd, [a, b]))
      && StandsFor(defs, a, Local(params[plan.counter])) && StandsFor(defs, b, Lit(IntLit(1)))
  }

  function Bound(s: Scope, local: nat, value: Expr): Scope {
    Scope(s.deps[local := Depends(s.deps, value)], s.defs[local := value])
  }

  /** Scalar, effect-free code that decides nothing by the counter, and whose back-edges step
      the counter, keep every other integer and compute each float without the counter. */
  ghost predicate Clean(params: seq<nat>, plan: Plan, s: Scope, e: Expr, tail: bool)
    decreases e, 1
  {
    match e
    case Local(id) => id in s.deps
    case Lit(lit) => ScalarLit(lit)
    case Error => true
    case Let(local, value, body) =>
      Clean(params, plan, s, value, false) && Clean(params, plan, Bound(s, local, value), body, tail)
    case If(cond, thn, els) =>
      && Clean(params, plan, s, cond, false) && !Depends(s.deps, cond)
      && Clean(params, plan, s, thn, tail) && Clean(params, plan, s, els, tail)
    case Prim(op, args) =>
      && Numeric(op) && CleanIn(params, plan, s, args)
      && (op == IntDiv || op == IntRem ==> !DependsIn(s.deps, args))
    case Dup(_, body) => Clean(params, plan, s, body, tail)
    case Drop(_, body) => Clean(params, plan, s, body, tail)
    case Recur(args) =>
      && tail && |args| == |params| && plan.counter < |params|
      && StepsByOne(params, plan, s.defs, args[plan.counter])
      && forall i :: 0 <= i < |args| && i != plan.counter ==> CleanOperand(params, plan, s, e, i)
    case _ => false
  }

  ghost predicate CleanIn(params: seq<nat>, plan: Plan, s: Scope, args: seq<Expr>)
    decreases args, 2
  {
    args != [] ==> Clean(params, plan, s, args[0], false) && CleanIn(params, plan, s, args[1..])
  }

  ghost predicate CleanOperand(params: seq<nat>, plan: Plan, s: Scope, e: Expr, i: nat)
    requires e.Recur? && |e.args| == |params| && i < |params|
    decreases e, 0
  {
    if i in plan.floats then Clean(params, plan, s, e.args[i], false) && !Depends(s.deps, e.args[i])
    else StandsFor(s.defs, e.args[i], Local(params[i]))
  }

  /** How many nodes are looked at. */
  function Visits(floats: seq<nat>, e: Expr): nat
    decreases e, 2, 0
  {
    match e
    case Let(_, value, body) => 1 + Visits(floats, value) + Visits(floats, body)
    case If(cond, thn, els) => 1 + Visits(floats, cond) + Visits(floats, thn) + Visits(floats, els)
    case Prim(_, args) => 1 + VisitsIn(floats, args)
    case Dup(_, body) => 1 + Visits(floats, body)
    case Drop(_, body) => 1 + Visits(floats, body)
    case Recur(_) => 1 + OperandVisits(floats, e, 0)
    case _ => 1
  }

  function VisitsIn(floats: seq<nat>, args: seq<Expr>): nat
    decreases args, 1
  {
    if args == [] then 0 else Visits(floats, args[0]) + VisitsIn(floats, args[1..])
  }

  /** Only the float operands of a back-edge are looked at. */
  function OperandVisits(floats: seq<nat>, e: Expr, i: nat): nat
    requires e.Recur? && i <= |e.args|
    decreases e, 0, |e.args| - i
  {
    if i == |e.args| then 0
    else (if i in floats then Visits(floats, e.args[i]) else 0) + OperandVisits(floats, e, i + 1)
  }

  /** Some tail position is a back-edge. */
  predicate LoopsBack(e: Expr) {
    match e
    case Let(_, _, body) => LoopsBack(body)
    case If(_, thn, els) => LoopsBack(thn) || LoopsBack(els)
    case Dup(_, body) => LoopsBack(body)
    case Drop(_, body) => LoopsBack(body)
    case Recur(_) => true
    case _ => false
  }

  // ----- the whole loop -----

  /** The leading lets are clean, and so are the exit value and the rest of the iteration. */
  ghost predicate CleanBody(params: seq<nat>, plan: Plan, s: Scope, e: Expr)
    decreases e
  {
    match e
    case Let(local, value, body) =>
      Clean(params, plan, s, value, false) && CleanBody(params, plan, Bound(s, local, value), body)
    case If(_, thn, els) => Clean(params, plan, s, thn, false) && Clean(params, plan, s, els, true)
    case _ => false
  }

  function BodyVisits(floats: seq<nat>, e: Expr): nat {
    match e
    case Let(_, value, body) => Visits(floats, value) + BodyVisits(floats, body)
    case If(_, thn, els) => Visits(floats, thn) + Visits(floats, els)
    case _ => 0
  }

  /** The definitions the leading lets make. */
  function LeadingDefs(e: Expr, defs: Defs): Defs {
    match e
    case Let(local, value, body) => LeadingDefs(body, defs[local := value])
    case _ => defs
  }

  ghost predicate IntParam(params: seq<nat>, types: map<nat, Ty>, i: nat) {
    i < |params| && HasType(types, params[i], TInt)
  }

  /** The loop leaves when the counter has reached the bound: `>=` ascending, `<=` descending. */
  ghost predicate ExitTest(params: seq<nat>, types: map<nat, Ty>, defs: Defs, cond: Expr, plan: Plan) {
    exists l, r ::
      && StandsFor(defs, cond, Prim(if plan.descending then IntLe else IntGe, [l, r]))
      && IntParam(params, types, plan.counter) && StandsFor(defs, l, Local(params[plan.counter]))
      && IsBound(params, types, defs, r, plan)
  }

  /** The operand is another integer parameter, or the literal. */
  ghost predicate IsBound(params: seq<nat>, types: map<nat, Ty>, defs: Defs, r: Expr, plan: Plan) {
    match plan.bound
    case Parameter(i) => i != plan.counter && IntParam(params, types, i) && StandsFor(defs, r, Local(params[i]))
    case Literal(n) => StandsFor(defs, r, Lit(IntLit(n)))
  }

  /** The positions of the float parameters, all of them, in order. */
  ghost predicate AllFloats(params: seq<nat>, types: map<nat, Ty>, floats: seq<nat>) {
    && (forall i: nat :: i in floats <==> i < |params| && HasType(types, params[i], TFloat))
    && Ascending(floats)
  }

  /** A loop that counts by ones toward an invariant bound while its floats ignore the counter. */
  ghost predicate CountedLoop(params: seq<nat>, body: Expr, types: map<nat, Ty>, plan: Plan) {
    && |params| <= 10
    && (forall i :: 0 <= i < |params| ==> HasType(types, params[i], TInt) || HasType(types, params[i], TFloat))
    && PrefixTail(body).If?
    && ExitTest(params, types, LeadingDefs(body, map[]), PrefixTail(body).cond, plan)
    && plan.floats != [] && AllFloats(params, types, plan.floats)
    && CleanBody(params, plan, Scope(ParamDeps(params, plan.counter), map[]), body)
    && LoopsBack(PrefixTail(body).els)
    && BodyVisits(plan.floats, body) <= WALK_BUDGET
  }

  // ----- following definitions -----

  /** Definitions only mention what is in scope. */
  ghost predicate Closed(s: Scope) {
    forall x :: x in s.defs ==> x in s.deps && Scoped(s.defs[x], s.deps.Keys)
  }

  /** The scanner knows what is in scope, and the parameters have no definition. */
  ghost predicate Knows(s: Scope, st: ScanState) {
    && (forall x :: x in s.deps ==> x in st.deps && st.deps[x] == s.deps[x])
    && (forall x :: x in s.deps ==> (x in s.defs <==> x in st.defs))
    && (forall x :: x in s.defs ==> x in st.defs && st.defs[x] == s.defs[x])
  }

  predicate Head(r: Expr, defs: Defs) {
    !r.Dup? && !r.Drop? && (r.Local? ==> r.id !in defs)
  }

  lemma {:induction false} ResolveExact(s: Scope, st: ScanState, e: Expr, r: Expr, n: nat)
    requires Closed(s) && Knows(s, st) && Scoped(e, s.deps.Keys) && Head(r, st.defs)
    ensures Resolve(e, st.defs, n) == r <==> Denotes(s.defs, e, r, n)
    decreases n
  {
    if n > 0 {
      match e
      case Local(id) => if id in s.defs { ResolveExact(s, st, s.defs[id], r, n - 1); }
      case Dup(_, body) => ResolveExact(s, st, body, r, n - 1);
      case Drop(_, body) => ResolveExact(s, st, body, r, n - 1);
      case _ =>
    }
  }

  lemma {:induction false} DenotesScoped(s: Scope, e: Expr, r: Expr, n: nat)
    requires Closed(s) && Scoped(e, s.deps.Keys) && Denotes(s.defs, e, r, n)
    ensures Scoped(r, s.deps.Keys)
    decreases n
  {
    if e != r {
      match e
      case Local(id) => DenotesScoped(s, s.defs[id], r, n - 1);
      case Dup(_, body) => DenotesScoped(s, body, r, n - 1);
      case Drop(_, body) => DenotesScoped(s, body, r, n - 1);
    }
  }

  // ----- the scanner computes the description -----

  ghost predicate Fits(s: Scope, st: ScanState, e: Expr) {
    && Closed(s) && Knows(s, st) && Scoped(e, s.deps.Keys) && BoundOnce(e)
    && Binders(e) !! st.deps.Keys && Binders(e) !! st.defs.Keys
  }

  ghost predicate FitsIn(s: Scope, st: ScanState, args: seq<Expr>) {
    && Closed(s) && Knows(s, st) && ScopedIn(args, s.deps.Keys) && BoundOnceIn(args)
    && BindersIn(args) !! st.deps.Keys && BindersIn(args) !! st.defs.Keys
  }

  /** Only these names have been added. */
  ghost predicate Later(st: ScanState, st1: ScanState, names: set<nat>) {
    && (forall x :: x in st.deps ==> x in st1.deps && st1.deps[x] == st.deps[x])
    && (forall x :: x in st.defs ==> x in st1.defs && st1.defs[x] == st.defs[x])
    && (forall x :: x in st1.deps && x !in st.deps ==> x in names)
    && (forall x :: x in st1.defs && x !in st.defs ==> x in names)
  }

  ghost predicate After(st: ScanState, st1: ScanState, names: set<nat>, visits: nat, looped: bool) {
    && Later(st, st1, names) && st1.budget == st.budget - visits
    && st1.recurs >= st.recurs && (st1.recurs > st.recurs <==> looped)
  }

  lemma LaterTrans(a: ScanState, b: ScanState, c: ScanState, m: set<nat>, n: set<nat>)
    requires Later(a, b, m) && Later(b, c, n)
    ensures Later(a, c, m + n)
  {
  }

  lemma LaterMore(a: ScanState, b: ScanState, m: set<nat>, n: set<nat>)
    requires Later(a, b, m) && m <= n
    ensures Later(a, b, n)
  {
  }

  lemma LaterKnows(s: Scope, st: ScanState, st1: ScanState, names: set<nat>)
    requires Knows(s, st) && Later(st, st1, names) && names !! st.deps.Keys
    ensures Knows(s, st1)
  {
  }

  lemma LaterFits(s: Scope, st: ScanState, st1: ScanState, names: set<nat>, e: Expr)
    requires Fits(s, st, e) && Later(st, st1, names) && names !! Binders(e) && names !! st.deps.Keys
    ensures Fits(s, st1, e)
  {
    LaterKnows(s, st, st1, names);
    hide Knows, Closed, Scoped, BoundOnce, Binders;
  }

  lemma LaterFitsIn(s: Scope, st: ScanState, st1: ScanState, names: set<nat>, args: seq<Expr>)
    requires FitsIn(s, st, args) && Later(st, st1, names) && names !! BindersIn(args) && names !! st.deps.Keys
    ensures FitsIn(s, st1, args)
  {
    LaterKnows(s, st, st1, names);
    hide Knows, Closed, ScopedIn, BoundOnceIn, BindersIn;
  }

  lemma LetParts(s: Scope, st: ScanState, e: Expr)
    requires e.Let? && Fits(s, st, e)
    ensures Fits(s, st, e.value)
    ensures Closed(s) && Knows(s, st) && Scoped(e.value, s.deps.Keys) && Scoped(e.body, s.deps.Keys + {e.local})
    ensures BoundOnce(e.body) && Binders(e) == {e.local} + Binders(e.value) + Binders(e.body)
    ensures Binders(e.value) !! Binders(e.body) && e.local !in Binders(e.body) && e.local !in Binders(e.value)
    ensures Binders(e) !! st.deps.Keys && Binders(e) !! st.defs.Keys
  {
  }

  lemma BoundClosed(s: Scope, local: nat, value: Expr)
    requires Closed(s) && Scoped(value, s.deps.Keys) && local !in s.deps
    ensures Closed(Bound(s, local, value))
  {
    hide Scoped, Depends;
    var s1 := Bound(s, local, value);
    assert s1.deps.Keys == s.deps.Keys + {local};
    forall x | x in s1.defs ensures x in s1.deps && Scoped(s1.defs[x], s1.deps.Keys) {
      ScopedMore(s1.defs[x], s.deps.Keys, s1.deps.Keys);
    }
  }

  lemma BoundKnows(s: Scope, st: ScanState, local: nat, value: Expr)
    requires Knows(s, st)
    ensures Knows(Bound(s, local, value), Recorded(st, Depends(s.deps, value), local, value))
  {
    hide Depends;
  }

  lemma RecordedLater(st: ScanState, st1: ScanState, dep: bool, local: nat, value: Expr, names: set<nat>)
    requires Later(st, st1, names) && local !in st.deps && local !in st.defs
    ensures Later(st, Recorded(st1, dep, local, value), names + {local})
  {
  }

  lemma LaterApart(st: ScanState, st1: ScanState, names: set<nat>, others: set<nat>)
    requires Later(st, st1, names) && others !! names && others !! st.deps.Keys && others !! st.defs.Keys
    ensures others !! st1.deps.Keys && others !! st1.defs.Keys
  {
  }

  /** What the scanner notes of a let is what lexical scope says. */
  lemma LetFits(s: Scope, st: ScanState, st1: ScanState, e: Expr)
    requires e.Let? && Fits(s, st, e) && Later(st, st1, Binders(e.value))
    ensures Fits(Bound(s, e.local, e.value), Recorded(st1, Depends(s.deps, e.value), e.local, e.value), e.body)
    ensures Later(st, Recorded(st1, Depends(s.deps, e.value), e.local, e.value), Binders(e.value) + {e.local})
  {
    hide Scoped, BoundOnce, Binders, Depends, Later, Closed;
    var dep := Depends(s.deps, e.value);
    var s1, st2 := Bound(s, e.local, e.value), Recorded(st1, dep, e.local, e.value);
    LetParts(s, st, e);
    LaterKnows(s, st, st1, Binders(e.value));
    BoundKnows(s, st1, e.local, e.value);
    KnowsOnly(s, st, Binders(e));
    BoundClosed(s, e.local, e.value);
    RecordedLater(st, st1, dep, e.local, e.value, Binders(e.value));
    LaterApart(st, st2, Binders(e.value) + {e.local}, Binders(e.body));
    assert s1.deps.Keys == s.deps.Keys + {e.local};
  }

  lemma KnowsOnly(s: Scope, st: ScanState, names: set<nat>)
    requires Knows(s, st) && names !! st.deps.Keys
    ensures names !! s.deps.Keys
  {
  }

  // ----- each node -----

  /** The parameters are in scope without a definition, and the counter is not a float. */
  ghost predicate Parameters(params: seq<nat>, plan: Plan, s: Scope) {
    plan.counter !in plan.floats && forall i :: 0 <= i < |params| ==> params[i] in s.deps && params[i] !in s.defs
  }

  ghost predicate Exact(params: seq<nat>, plan: Plan, s: Scope, st: ScanState, e: Expr, tail: bool, w: Walked) {
    && (w.Accepted? <==> Clean(params, plan, s, e, tail) && Visits(plan.floats, e) <= st.budget)
    && (w.Accepted? ==>
        && w.dep == Depends(s.deps, e)
        && After(st, w.st, Binders(e), Visits(plan.floats, e), tail && LoopsBack(e)))
  }

  ghost predicate ExactIn(params: seq<nat>, plan: Plan, s: Scope, st: ScanState, args: seq<Expr>, w: Walked) {
    && (w.Accepted? <==> CleanIn(params, plan, s, args) && VisitsIn(plan.floats, args) <= st.budget)
    && (w.Accepted? ==>
        && w.dep == DependsIn(s.deps, args)
        && After(st, w.st, BindersIn(args), VisitsIn(plan.floats, args), false))
  }

  lemma {:induction false} WalkExact(params: seq<nat>, plan: Plan, s: Scope, st: ScanState, e: Expr, tail: bool)
    requires Parameters(params, plan, s) && Fits(s, st, e)
    ensures Exact(params, plan, s, st, e, tail, Walk(params, plan, st, e, tail))
    decreases e, 3, 0
  {
    hide WalkNode, Clean, Visits, Depends, Fits, Parameters, LoopsBack, Binders;
    VisitsSome(plan.floats, e);
    if st.budget > 0 {
      SameFits(s, st, st.(budget := st.budget - 1), e);
      NodesExact(params, plan, s, st.(budget := st.budget - 1), e, tail);
    }
  }

  /** The same once this node has been paid for. */
  ghost predicate NodeExact(params: seq<nat>, plan: Plan, s: Scope, st: ScanState, e: Expr, tail: bool, w: Walked) {
    && (w.Accepted? <==> Clean(params, plan, s, e, tail) && Visits(plan.floats, e) <= st.budget + 1)
    && (w.Accepted? ==>
        && w.dep == Depends(s.deps, e)
        && After(st, w.st, Binders(e), Visits(plan.floats, e) - 1, tail && LoopsBack(e)))
  }

  lemma VisitsSome(floats: seq<nat>, e: Expr)
    ensures Visits(floats, e) >= 1
  {
  }

  lemma SameFits(s: Scope, st: ScanState, st1: ScanState, e: Expr)
    requires Fits(s, st, e) && st1.deps == st.deps && st1.defs == st.defs
    ensures Fits(s, st1, e)
  {
    hide Scoped, BoundOnce, Binders, Closed;
  }

  lemma {:induction false} NodesExact(params: seq<nat>, plan: Plan, s: Scope, st: ScanState, e: Expr, tail: bool)
    requires Parameters(params, plan, s) && Fits(s, st, e)
    ensures NodeExact(params, plan, s, st, e, tail, WalkNode(params, plan, st, e, tail))
    decreases e, 2, 1
  {
    match e
    case Let(_, _, _) => LetExact(params, plan, s, st, e, tail);
    case If(_, _, _) => IfExact(params, plan, s, st, e, tail);
    case Prim(_, _) => PrimExact(params, plan, s, st, e, tail);
    case Dup(_, _) => WrapperExact(params, plan, s, st, e, tail);
    case Drop(_, _) => WrapperExact(params, plan, s, st, e, tail);
    case Recur(_) => RecurExact(params, plan, s, st, e, tail);
    case _ => LeafExact(params, plan, s, st, e, tail);
  }

  lemma LeafExact(params: seq<nat>, plan: Plan, s: Scope, st: ScanState, e: Expr, tail: bool)
    requires !e.Let? && !e.If? && !e.Prim? && !e.Dup? && !e.Drop? && !e.Recur?
    requires Fits(s, st, e)
    ensures NodeExact(params, plan, s, st, e, tail, WalkNode(params, plan, st, e, tail))
  {
  }

  lemma {:induction false} PrimExact(params: seq<nat>, plan: Plan, s: Scope, st: ScanState, e: Expr, tail: bool)
    requires e.Prim? && Parameters(params, plan, s) && Fits(s, st, e)
    ensures NodeExact(params, plan, s, st, e, tail, WalkNode(params, plan, st, e, tail))
    decreases e, 2, 0
  {
    ArgsFit(s, st, e);
    ArgsExact(params, plan, s, st, e.args);
  }

  lemma ArgsFit(s: Scope, st: ScanState, e: Expr)
    requires (e.Prim? || e.Recur?) && Fits(s, st, e)
    ensures FitsIn(s, st, e.args) && Binders(e) == BindersIn(e.args)
  {
  }

  lemma {:induction false} WrapperExact(params: seq<nat>, plan: Plan, s: Scope, st: ScanState, e: Expr, tail: bool)
    requires (e.Dup? || e.Drop?) && Parameters(params, plan, s) && Fits(s, st, e)
    ensures NodeExact(params, plan, s, st, e, tail, WalkNode(params, plan, st, e, tail))
    decreases e, 2, 0
  {
    assert Fits(s, st, e.body);
    WalkExact(params, plan, s, st, e.body, tail);
  }

  lemma BoundParameters(params: seq<nat>, plan: Plan, s: Scope, st: ScanState, e: Expr)
    requires e.Let? && Parameters(params, plan, s) && Fits(s, st, e)
    ensures Parameters(params, plan, Bound(s, e.local, e.value))
  {
    LetParts(s, st, e);
    KnowsOnly(s, st, Binders(e));
    hide Fits, Binders, Depends;
  }

  lemma {:induction false} LetExact(params: seq<nat>, plan: Plan, s: Scope, st: ScanState, e: Expr, tail: bool)
    requires e.Let? && Parameters(params, plan, s) && Fits(s, st, e)
    ensures NodeExact(params, plan, s, st, e, tail, WalkNode(params, plan, st, e, tail))
    decreases e, 2, 0
  {
    hide Fits, Binders, Later, Walk;
    LetParts(s, st, e);
    WalkExact(params, plan, s, st, e.value, false);
    var w := Walk(params, plan, st, e.value, false);
    if w.Accepted? {
      LetFits(s, st, w.st, e);
      var s1, st2 := Bound(s, e.local, e.value), Recorded(w.st, w.dep, e.local, e.value);
      BoundParameters(params, plan, s, st, e);
      WalkExact(params, plan, s1, st2, e.body, tail);
      var w2 := Walk(params, plan, st2, e.body, tail);
      if w2.Accepted? {
        LaterTrans(st, st2, w2.st, Binders(e.value) + {e.local}, Binders(e.body));
        assert Binders(e.value) + {e.local} + Binders(e.body) == Binders(e);
      }
    }
  }

  lemma {:induction false} IfExact(params: seq<nat>, plan: Plan, s: Scope, st: ScanState, e: Expr, tail: bool)
    requires e.If? && Parameters(params, plan, s) && Fits(s, st, e)
    ensures NodeExact(params, plan, s, st, e, tail, WalkNode(params, plan, st, e, tail))
    decreases e, 2, 0
  {
    IfFits(s, st, e);
    WalkExact(params, plan, s, st, e.cond, false);
    var w := Walk(params, plan, st, e.cond, false);
    if w.Accepted? {
      LaterFits(s, st, w.st, Binders(e.cond), e.thn);
      LaterFits(s, st, w.st, Binders(e.cond), e.els);
      WalkExact(params, plan, s, w.st, e.thn, tail);
      var w2 := Walk(params, plan, w.st, e.thn, tail);
      if w2.Accepted? {
        LaterFits(s, w.st, w2.st, Binders(e.thn), e.els);
        WalkExact(params, plan, s, w2.st, e.els, tail);
        var w3 := Walk(params, plan, w2.st, e.els, tail);
        if w3.Accepted? {
          LaterTrans(st, w.st, w2.st, Binders(e.cond), Binders(e.thn));
          LaterTrans(st, w2.st, w3.st, Binders(e.cond) + Binders(e.thn), Binders(e.els));
        }
      }
    }
  }

  lemma IfFits(s: Scope, st: ScanState, e: Expr)
    requires e.If? && Fits(s, st, e)
    ensures Fits(s, st, e.cond) && Fits(s, st, e.thn) && Fits(s, st, e.els)
    ensures Binders(e) == Binders(e.cond) + Binders(e.thn) + Binders(e.els)
    ensures Binders(e.cond) !! Binders(e.thn) && Binders(e.cond) !! Binders(e.els) && Binders(e.thn) !! Binders(e.els)
    ensures Binders(e) !! st.deps.Keys
  {
  }

  lemma {:induction false} ArgsExact(params: seq<nat>, plan: Plan, s: Scope, st: ScanState, args: seq<Expr>)
    requires Parameters(params, plan, s) && FitsIn(s, st, args)
    ensures ExactIn(params, plan, s, st, args, WalkArgs(params, plan, st, args))
    decreases args, 4, 0
  {
    if args != [] {
      FirstFits(s, st, args);
      WalkExact(params, plan, s, st, args[0], false);
      var w := Walk(params, plan, st, args[0], false);
      if w.Accepted? {
        LaterFitsIn(s, st, w.st, Binders(args[0]), args[1..]);
        ArgsExact(params, plan, s, w.st, args[1..]);
        var w2 := WalkArgs(params, plan, w.st, args[1..]);
        if w2.Accepted? { LaterTrans(st, w.st, w2.st, Binders(args[0]), BindersIn(args[1..])); }
      }
    }
  }

  lemma FirstFits(s: Scope, st: ScanState, args: seq<Expr>)
    requires args != [] && FitsIn(s, st, args)
    ensures Fits(s, st, args[0]) && FitsIn(s, st, args[1..])
    ensures BindersIn(args) == Binders(args[0]) + BindersIn(args[1..]) && BindersIn(args) !! st.deps.Keys
    ensures Binders(args[0]) !! BindersIn(args[1..])
  {
  }

  lemma RecurNode(params: seq<nat>, plan: Plan, s: Scope, st: ScanState, e: Expr, tail: bool)
    requires e.Recur?
    ensures Visits(plan.floats, e) == 1 + OperandVisits(plan.floats, e, 0) && !Depends(s.deps, e) && LoopsBack(e)
    ensures if tail && |e.args| == |params| && plan.counter < |params| then
        && (Clean(params, plan, s, e, tail) <==>
            StepsByOne(params, plan, s.defs, e.args[plan.counter]) && CleanFrom(params, plan, s, e, 0))
        && WalkNode(params, plan, st, e, tail) ==
            if CounterSteps(params, plan, st.defs, e.args[plan.counter]) then
              Counted(WalkNext(params, plan, st, e, 0)) else Rejected
      else !Clean(params, plan, s, e, tail) && WalkNode(params, plan, st, e, tail).Rejected?
  {
    hide StepsByOne, CleanOperand, CounterSteps, OperandVisits, WalkNext;
  }

  function Counted(w: Walked): Walked {
    match w
    case Accepted(_, st) => Accepted(false, st.(recurs := st.recurs + 1))
    case Rejected => Rejected
  }

  lemma {:induction false} RecurExact(params: seq<nat>, plan: Plan, s: Scope, st: ScanState, e: Expr, tail: bool)
    requires e.Recur? && Parameters(params, plan, s) && Fits(s, st, e)
    ensures NodeExact(params, plan, s, st, e, tail, WalkNode(params, plan, st, e, tail))
    decreases e, 2, 0
  {
    hide Fits, FitsIn, Parameters, Binders, BindersIn, WalkNode, WalkNext, CounterSteps, StepsByOne, CleanFrom,
      Clean, Visits, OperandVisits, Depends, LoopsBack, Knows, Closed, Scoped;
    RecurNode(params, plan, s, st, e, tail);
    ArgsFit(s, st, e);
    if tail && |e.args| == |params| && plan.counter < |e.args| {
      FitsScoped(s, st, e.args, plan.counter);
      CounterExact(params, plan, s, st, e.args[plan.counter]);
      assert e.args[0..] == e.args;
      NextExact(params, plan, s, st, e, 0);
    }
  }

  lemma FitsScoped(s: Scope, st: ScanState, args: seq<Expr>, i: nat)
    requires FitsIn(s, st, args) && i < |args|
    ensures Closed(s) && Knows(s, st) && Scoped(args[i], s.deps.Keys)
  {
    ArgScoped(args, s.deps.Keys, i);
  }

  lemma ParameterHead(params: seq<nat>, plan: Plan, s: Scope, st: ScanState, i: nat)
    requires Parameters(params, plan, s) && Knows(s, st) && i < |params|
    ensures Head(Local(params[i]), st.defs)
  {
  }

  lemma StepsFound(params: seq<nat>, plan: Plan, s: Scope, st: ScanState, arg: Expr)
    requires Parameters(params, plan, s) && Knows(s, st) && Closed(s) && plan.counter < |params|
    requires Scoped(arg, s.deps.Keys) && CounterSteps(params, plan, st.defs, arg)
    ensures StepsByOne(params, plan, s.defs, arg)
  {
    hide Scoped, Closed, Knows, Denotes, Resolve, Parameters;
    var op := if plan.descending then IntSub else IntAdd;
    var count := Resolve(arg, st.defs, RESOLVE_STEPS);
    var a, b := count.args[0], count.args[1];
    assert count == Prim(op, [a, b]);
    ResolveExact(s, st, arg, count, RESOLVE_STEPS);
    TwoOperands(params, plan, s, st, arg, op, a, b);
  }

  lemma CounterFrom(params: seq<nat>, plan: Plan, defs: Defs, arg: Expr, a: Expr, b: Expr)
    requires plan.counter < |params|
    requires Resolve(arg, defs, RESOLVE_STEPS) == Prim(if plan.descending then IntSub else IntAdd, [a, b])
    requires Resolve(a, defs, RESOLVE_STEPS) == Local(params[plan.counter])
    requires Resolve(b, defs, RESOLVE_STEPS) == Lit(IntLit(1))
    ensures CounterSteps(params, plan, defs, arg)
  {
    hide Resolve;
  }

  lemma StepsResolve(params: seq<nat>, plan: Plan, s: Scope, st: ScanState, arg: Expr)
    requires Parameters(params, plan, s) && Knows(s, st) && Closed(s) && plan.counter < |params|
    requires Scoped(arg, s.deps.Keys) && StepsByOne(params, plan, s.defs, arg)
    ensures CounterSteps(params, plan, st.defs, arg)
  {
    hide Scoped, Closed, Knows, Denotes, Resolve, Parameters, CounterSteps;
    var op := if plan.descending then IntSub else IntAdd;
    var a, b :| StandsFor(s.defs, arg, Prim(op, [a, b])) && StandsFor(s.defs, a, Local(params[plan.counter])) &&
      StandsFor(s.defs, b, Lit(IntLit(1)));
    ResolveExact(s, st, arg, Prim(op, [a, b]), RESOLVE_STEPS);
    TwoOperands(params, plan, s, st, arg, op, a, b);
    CounterFrom(params, plan, st.defs, arg, a, b);
  }

  lemma CounterExact(params: seq<nat>, plan: Plan, s: Scope, st: ScanState, arg: Expr)
    requires Parameters(params, plan, s) && Knows(s, st) && Closed(s) && plan.counter < |params|
    requires Scoped(arg, s.deps.Keys)
    ensures CounterSteps(params, plan, st.defs, arg) <==> StepsByOne(params, plan, s.defs, arg)
  {
    if CounterSteps(params, plan, st.defs, arg) { StepsFound(params, plan, s, st, arg); }
    if StepsByOne(params, plan, s.defs, arg) { StepsResolve(params, plan, s, st, arg); }
  }

  lemma TwoOperands(params: seq<nat>, plan: Plan, s: Scope, st: ScanState, arg: Expr, op: Prim,
      a: Expr, b: Expr)
    requires Parameters(params, plan, s) && Knows(s, st) && Closed(s) && plan.counter < |params|
    requires Scoped(arg, s.deps.Keys) && StandsFor(s.defs, arg, Prim(op, [a, b]))
    ensures Resolve(a, st.defs, RESOLVE_STEPS) == Local(params[plan.counter]) <==>
      StandsFor(s.defs, a, Local(params[plan.counter]))
    ensures Resolve(b, st.defs, RESOLVE_STEPS) == Lit(IntLit(1)) <==> StandsFor(s.defs, b, Lit(IntLit(1)))
  {
    hide Closed, Knows, Denotes, Resolve;
    DenotesScoped(s, arg, Prim(op, [a, b]), RESOLVE_STEPS);
    ArgScoped([a, b], s.deps.Keys, 0);
    ArgScoped([a, b], s.deps.Keys, 1);
    ParameterHead(params, plan, s, st, plan.counter);
    ResolveExact(s, st, a, Local(params[plan.counter]), RESOLVE_STEPS);
    ResolveExact(s, st, b, Lit(IntLit(1)), RESOLVE_STEPS);
  }

  ghost predicate CleanFrom(params: seq<nat>, plan: Plan, s: Scope, e: Expr, i: nat)
    requires e.Recur? && |e.args| == |params| && i <= |params|
  {
    forall j :: i <= j < |params| && j != plan.counter ==> CleanOperand(params, plan, s, e, j)
  }

  ghost predicate ExactFrom(params: seq<nat>, plan: Plan, s: Scope, st: ScanState, e: Expr, i: nat, w: Walked)
    requires e.Recur? && |e.args| == |params| && i <= |params|
  {
    && (w.Accepted? <==> CleanFrom(params, plan, s, e, i) && OperandVisits(plan.floats, e, i) <= st.budget)
    && (w.Accepted? ==>
        After(st, w.st, BindersIn(e.args[i..]), OperandVisits(plan.floats, e, i), false))
  }

  lemma {:induction false} NextExact(params: seq<nat>, plan: Plan, s: Scope, st: ScanState, e: Expr, i: nat)
    requires e.Recur? && |e.args| == |params| && i <= |params|
    requires Parameters(params, plan, s) && FitsIn(s, st, e.args[i..])
    ensures ExactFrom(params, plan, s, st, e, i, WalkNext(params, plan, st, e, i))
    decreases e, 1, |params| - i
  {
    if i < |params| {
      var rest := e.args[i..];
      assert rest[0] == e.args[i] && rest[1..] == e.args[i + 1..];
      FirstFits(s, st, rest);
      assert CleanFrom(params, plan, s, e, i) <==>
        (i != plan.counter ==> CleanOperand(params, plan, s, e, i)) && CleanFrom(params, plan, s, e, i + 1);
      if i != plan.counter && i in plan.floats {
        WalkExact(params, plan, s, st, e.args[i], false);
        var w := Walk(params, plan, st, e.args[i], false);
        if w.Accepted? && !w.dep {
          LaterFitsIn(s, st, w.st, Binders(e.args[i]), e.args[i + 1..]);
          NextExact(params, plan, s, w.st, e, i + 1);
          var w2 := WalkNext(params, plan, w.st, e, i + 1);
          if w2.Accepted? { LaterTrans(st, w.st, w2.st, Binders(e.args[i]), BindersIn(e.args[i + 1..])); }
        }
      } else {
        ParameterHead(params, plan, s, st, i);
        ResolveExact(s, st, e.args[i], Local(params[i]), RESOLVE_STEPS);
        NextExact(params, plan, s, st, e, i + 1);
        var w2 := WalkNext(params, plan, st, e, i + 1);
        if w2.Accepted? { LaterMore(st, w2.st, BindersIn(e.args[i + 1..]), BindersIn(rest)); }
      }
    }
  }

  // ----- the whole body -----

  ghost predicate BodyExact(params: seq<nat>, plan: Plan, s: Scope, st: ScanState, e: Expr, w: Walked) {
    && (w.Accepted? <==> CleanBody(params, plan, s, e) && BodyVisits(plan.floats, e) <= st.budget)
    && (w.Accepted? ==> PrefixTail(e).If? && w.st.recurs >= st.recurs &&
                        (w.st.recurs > st.recurs <==> LoopsBack(PrefixTail(e).els)))
  }

  lemma {:induction false} ScanBodyExact(params: seq<nat>, plan: Plan, s: Scope, st: ScanState, e: Expr)
    requires Parameters(params, plan, s) && Fits(s, st, e)
    ensures BodyExact(params, plan, s, st, e, ScanBody(params, plan, st, e))
    decreases e
  {
    hide Fits, Binders, Later, Walk, Clean, Visits, LoopsBack, Parameters, Depends;
    match e
    case Let(local, value, body) =>
      LetParts(s, st, e);
      WalkExact(params, plan, s, st, value, false);
      var w := Walk(params, plan, st, value, false);
      if w.Accepted? {
        LetFits(s, st, w.st, e);
        BoundParameters(params, plan, s, st, e);
        ScanBodyExact(params, plan, Bound(s, local, value), Recorded(w.st, w.dep, local, value), body);
      }
    case If(_, thn, els) =>
      IfFits(s, st, e);
      WalkExact(params, plan, s, st, thn, false);
      var w := Walk(params, plan, st, thn, false);
      if w.Accepted? {
        LaterFits(s, st, w.st, Binders(thn), els);
        WalkExact(params, plan, s, w.st, els, true);
      }
    case _ =>
  }

  // ----- the exit test -----

  /** The scope after the leading lets. */
  function LeadingScope(s: Scope, e: Expr): Scope
    decreases e
  {
    match e
    case Let(local, value, body) => LeadingScope(Bound(s, local, value), body)
    case _ => s
  }

  function Known(s: Scope): ScanState {
    ScanState(s.deps, s.defs, 0, 0)
  }

  lemma {:induction false} LeadingFits(params: seq<nat>, plan: Plan, s: Scope, e: Expr)
    requires Parameters(params, plan, s) && Fits(s, Known(s), e)
    ensures var r := LeadingScope(s, e);
      && Parameters(params, plan, r) && Fits(r, Known(r), PrefixTail(e)) && r.defs == LeadingDefs(e, s.defs)
    decreases e
  {
    if e.Let? {
      LetParts(s, Known(s), e);
      BoundParameters(params, plan, s, Known(s), e);
      hide Fits, Binders, Later, Parameters, Depends;
      assert Later(Known(s), Known(s), Binders(e.value)) by { LaterSame(Known(s), Binders(e.value)); }
      LetFits(s, Known(s), Known(s), e);
      var s1 := Bound(s, e.local, e.value);
      SameFits(s1, Recorded(Known(s), Depends(s.deps, e.value), e.local, e.value), Known(s1), e.body);
      LeadingFits(params, plan, s1, e.body);
    }
  }

  lemma LaterSame(st: ScanState, names: set<nat>)
    ensures Later(st, st, names)
  {
  }

  lemma FloatParamsStep(params: seq<nat>, types: map<nat, Ty>, i: nat)
    requires i < |params|
    ensures FloatParams(params, types, i) ==
      (if HasType(types, params[i], TFloat) then [i] else []) + FloatParams(params, types, i + 1)
  {
  }

  lemma {:induction false} FloatParamsFrom(params: seq<nat>, types: map<nat, Ty>, i: nat)
    requires i <= |params|
    ensures var floats := FloatParams(params, types, i);
      && (forall j: nat :: j in floats <==> i <= j < |params| && HasType(types, params[j], TFloat))
      && Ascending(floats)
    decreases |params| - i
  {
    if i < |params| {
      FloatParamsFrom(params, types, i + 1);
      hide HasType;
      var rest := FloatParams(params, types, i + 1);
      FloatParamsStep(params, types, i);
      if HasType(types, params[i], TFloat) {
        Prepended(i, rest);
      }
    }
  }

  lemma FloatsExact(params: seq<nat>, types: map<nat, Ty>, floats: seq<nat>)
    ensures FloatParams(params, types, 0) == floats <==> AllFloats(params, types, floats)
  {
    FloatParamsFrom(params, types, 0);
    if AllFloats(params, types, floats) {
      AscendingUnique(FloatParams(params, types, 0), floats);
    }
  }

  /** The terminal comparison is read off exactly when the exit test has this shape. */
  lemma GuardExact(params: seq<nat>, types: map<nat, Ty>, s: Scope, cond: Expr, plan: Plan)
    requires Distinct(params) && Parameters(params, plan, s) && Closed(s) && Scoped(cond, s.deps.Keys)
    ensures Guard(params, types, s.defs, cond) == Some(plan) <==>
      ExitTest(params, types, s.defs, cond, plan) && plan.floats != [] && AllFloats(params, types, plan.floats)
  {
    FloatsExact(params, types, plan.floats);
    if Guard(params, types, s.defs, cond) == Some(plan) { GuardFound(params, types, s, cond, plan); }
    if ExitTest(params, types, s.defs, cond, plan) { GuardResolves(params, types, s, cond, plan); }
  }

  lemma GuardFound(params: seq<nat>, types: map<nat, Ty>, s: Scope, cond: Expr, plan: Plan)
    requires Parameters(params, plan, s) && Closed(s) && Scoped(cond, s.deps.Keys)
    requires Guard(params, types, s.defs, cond) == Some(plan)
    ensures ExitTest(params, types, s.defs, cond, plan) && plan.floats != []
    ensures plan.floats == FloatParams(params, types, 0)
  {
    hide Scoped, Closed, Denotes, Resolve, IndexOf, FloatParams;
    var test := Resolve(cond, s.defs, RESOLVE_STEPS);
    var l, r := test.args[0], test.args[1];
    assert test == Prim(test.op, [l, r]);
    ResolvesTo(s, cond, test);
    OperandsResolve(s, cond, test.op, l, r);
    ResolvesTo(s, l, Resolve(l, s.defs, RESOLVE_STEPS));
    ResolvesTo(s, r, Resolve(r, s.defs, RESOLVE_STEPS));
    assert StandsFor(s.defs, cond, Prim(if plan.descending then IntLe else IntGe, [l, r]));
  }

  lemma GuardFrom(params: seq<nat>, types: map<nat, Ty>, defs: Defs, cond: Expr, l: Expr, r: Expr, plan: Plan)
    requires Distinct(params) && IntParam(params, types, plan.counter)
    requires Resolve(cond, defs, RESOLVE_STEPS) == Prim(if plan.descending then IntLe else IntGe, [l, r])
    requires Resolve(l, defs, RESOLVE_STEPS) == Local(params[plan.counter])
    requires plan.bound.Parameter? ==>
      && plan.bound.index != plan.counter && IntParam(params, types, plan.bound.index)
      && Resolve(r, defs, RESOLVE_STEPS) == Local(params[plan.bound.index])
    requires plan.bound.Literal? ==> Resolve(r, defs, RESOLVE_STEPS) == Lit(IntLit(plan.bound.n))
    ensures plan.floats != [] && plan.floats == FloatParams(params, types, 0) ==>
      Guard(params, types, defs, cond) == Some(plan)
  {
    hide Resolve, IndexOf, FloatParams;
    IndexExact(params, plan.counter);
    if plan.bound.Parameter? { IndexExact(params, plan.bound.index); }
  }

  lemma GuardResolves(params: seq<nat>, types: map<nat, Ty>, s: Scope, cond: Expr, plan: Plan)
    requires Distinct(params) && Parameters(params, plan, s) && Closed(s) && Scoped(cond, s.deps.Keys)
    requires ExitTest(params, types, s.defs, cond, plan)
    ensures plan.floats != [] && plan.floats == FloatParams(params, types, 0) ==>
      Guard(params, types, s.defs, cond) == Some(plan)
  {
    hide Scoped, Closed, Denotes, Resolve, IndexOf, FloatParams, Guard, HasType, Distinct;
    var op := if plan.descending then IntLe else IntGe;
    var l, r :| StandsFor(s.defs, cond, Prim(op, [l, r])) && IntParam(params, types, plan.counter) &&
      StandsFor(s.defs, l, Local(params[plan.counter])) && IsBound(params, types, s.defs, r, plan);
    ResolvesTo(s, cond, Prim(op, [l, r]));
    OperandsResolve(s, cond, op, l, r);
    ResolvesTo(s, l, Local(params[plan.counter]));
    match plan.bound {
      case Parameter(i) => ResolvesTo(s, r, Local(params[i]));
      case Literal(n) => ResolvesTo(s, r, Lit(IntLit(n)));
    }
    GuardFrom(params, types, s.defs, cond, l, r, plan);
  }

  lemma ResolvesTo(s: Scope, e: Expr, r: Expr)
    requires Closed(s) && Scoped(e, s.deps.Keys) && Head(r, s.defs)
    ensures Resolve(e, s.defs, RESOLVE_STEPS) == r <==> StandsFor(s.defs, e, r)
  {
    hide Scoped, Closed, Denotes, Resolve;
    assert Knows(s, Known(s));
    ResolveExact(s, Known(s), e, r, RESOLVE_STEPS);
  }

  lemma OperandsResolve(s: Scope, e: Expr, op: Prim, l: Expr, r: Expr)
    requires Closed(s) && Scoped(e, s.deps.Keys) && StandsFor(s.defs, e, Prim(op, [l, r]))
    ensures Scoped(l, s.deps.Keys) && Scoped(r, s.deps.Keys)
  {
    DenotesScoped(s, e, Prim(op, [l, r]), RESOLVE_STEPS);
    ArgScoped([l, r], s.deps.Keys, 0);
    ArgScoped([l, r], s.deps.Keys, 1);
  }

  lemma IndexExact(params: seq<nat>, i: nat)
    requires Distinct(params) && i < |params|
    ensures IndexOf(params, params[i]) == Some(i)
  {
    hide IndexOf;
    assert IndexOf(params, params[i]).Some?;
  }

  // ----- when a plan is found -----

  lemma {:induction false} PrefixExact(e: Expr, defs: Defs, floats: seq<nat>)
    requires BoundOnce(e) && Binders(e) !! defs.Keys
    ensures var r := PrefixOf(e, defs);
      if r.Prefix? then r.defs == LeadingDefs(e, defs) && r.last == PrefixTail(e)
      else BodyVisits(floats, e) + |defs| > 256
  {
    if e.Let? {
      VisitsSome(floats, e.value);
      if |defs| < 256 {
        assert |defs[e.local := e.value]| == |defs| + 1 by { AddsOne(defs, e.local, e.value); }
        PrefixExact(e.body, defs[e.local := e.value], floats);
      }
    }
  }

  lemma AddsOne(defs: Defs, x: nat, value: Expr)
    requires x !in defs
    ensures |defs[x := value]| == |defs| + 1
  {
    assert defs[x := value].Keys == defs.Keys + {x};
    assert |defs[x := value].Keys| == |defs[x := value]| && |defs.Keys| == |defs|;
  }

  lemma StartFits(params: seq<nat>, plan: Plan, body: Expr)
    requires BoundOnce(body) && Binders(body) !! ParamSet(params) && Scoped(body, ParamSet(params))
    ensures var s := Scope(ParamDeps(params, plan.counter), map[]);
      && Fits(s, Start(params, plan), body) && Fits(s, Known(s), body)
      && (plan.counter !in plan.floats ==> Parameters(params, plan, s))
  {
    hide BoundOnce, Binders, Scoped;
    var s := Scope(ParamDeps(params, plan.counter), map[]);
    assert s.deps.Keys == ParamSet(params);
  }

  lemma TestExact(params: seq<nat>, types: map<nat, Ty>, plan: Plan, s: Scope, body: Expr)
    requires Distinct(params) && Parameters(params, plan, s) && Fits(s, Known(s), body) && s.defs == map[]
    requires PrefixTail(body).If?
    ensures var test := PrefixTail(body).cond;
      Guard(params, types, LeadingDefs(body, map[]), test) == Some(plan) <==>
      ExitTest(params, types, LeadingDefs(body, map[]), test, plan) && plan.floats != [] &&
      AllFloats(params, types, plan.floats)
  {
    hide Guard, ExitTest, AllFloats, LeadingDefs, LeadingScope, PrefixTail, Binders, BoundOnce, Closed, Parameters;
    LeadingFits(params, plan, s, body);
    GuardExact(params, types, LeadingScope(s, body), PrefixTail(body).cond, plan);
  }

  /** The counter is an integer. */
  lemma CounterIsNoFloat(params: seq<nat>, types: map<nat, Ty>, body: Expr, plan: Plan)
    requires plan.counter in plan.floats
    ensures !CountedLoop(params, body, types, plan) && PlanOf(params, body, types) != Some(plan)
  {
    FloatsExact(params, types, plan.floats);
    hide ScanBody, CleanBody, Resolve, PrefixOf, StandsFor, IsBound, IndexOf;
  }

  /** What the planner asks, once the prefix is known. */
  lemma PlanAsks(params: seq<nat>, body: Expr, types: map<nat, Ty>, plan: Plan)
    requires BoundOnce(body) && PrefixOf(body, map[]).Prefix?
    requires var r := PrefixOf(body, map[]); r.last == PrefixTail(body) && r.defs == LeadingDefs(body, map[])
    ensures PlanOf(params, body, types) == Some(plan) <==>
      && ScalarParams(params, types) && PrefixTail(body).If?
      && Guard(params, types, LeadingDefs(body, map[]), PrefixTail(body).cond) == Some(plan)
      && Finds(ScanBody(params, plan, Start(params, plan), body))
  {
    hide Guard, ScanBody, Start, PrefixOf, LeadingDefs, PrefixTail, BoundOnce, ScalarParams;
  }

  predicate Finds(w: Walked) {
    w.Accepted? && w.st.recurs > 0
  }

  /** A plan is found exactly for a counted loop, and it is the one the loop describes. */
  lemma PlanExact(params: seq<nat>, body: Expr, types: map<nat, Ty>, plan: Plan)
    requires Distinct(params) && BoundOnce(body) && Binders(body) !! ParamSet(params) && Scoped(body, ParamSet(params))
    ensures PlanOf(params, body, types) == Some(plan) <==> CountedLoop(params, body, types, plan)
  {
    hide Guard, ScanBody, CleanBody, BodyVisits, LoopsBack, ExitTest, AllFloats, PrefixOf, LeadingDefs, PrefixTail,
      Binders, BoundOnce, Scoped, PlanOf, Fits, Parameters, Distinct;
    PrefixExact(body, map[], plan.floats);
    if plan.counter in plan.floats {
      CounterIsNoFloat(params, types, body, plan);
    } else {
      var s := Scope(ParamDeps(params, plan.counter), map[]);
      StartFits(params, plan, body);
      ScanBodyExact(params, plan, s, Start(params, plan), body);
      if PrefixTail(body).If? { TestExact(params, types, plan, s, body); }
      if PrefixOf(body, map[]).Prefix? {
        PlanAsks(params, body, types, plan);
      } else {
        TooLongNone(params, body, types);
      }
    }
  }

  lemma TooLongNone(params: seq<nat>, body: Expr, types: map<nat, Ty>)
    requires PrefixOf(body, map[]).TooLong?
    ensures PlanOf(params, body, types).None?
  {
    hide Guard, ScanBody, PrefixOf;
  }

  // ----- the plainest such loops -----

  /** `loop i n x = if i >= n then x else loop (i + 1) n (x * c)`, or down to `n`, where `n` is a
      literal or a parameter. */
  function HalvingLoop(limit: Expr, descending: bool, factor: I64): Expr {
    If(Prim(if descending then IntLe else IntGe, [Local(0), limit]), Local(2),
       Recur([Prim(if descending then IntSub else IntAdd, [Local(0), Lit(IntLit(1))]), Local(1),
              Prim(FloatMul, [Local(2), Lit(FloatLit(factor))])]))
  }

  lemma HalvingLoopPlanned(descending: bool, factor: I64, n: I64)
    ensures var types := map[0 := TInt, 1 := TInt, 2 := TFloat];
      && PlanOf([0, 1, 2], HalvingLoop(Local(1), descending, factor), types) ==
           Some(Plan(0, Parameter(1), descending, [2]))
      && PlanOf([0, 1, 2], HalvingLoop(Lit(IntLit(n)), descending, factor), types) ==
           Some(Plan(0, Literal(n), descending, [2]))
  {
    HalvingLoopCounted(descending, factor, Local(1), Parameter(1));
    HalvingLoopCounted(descending, factor, Lit(IntLit(n)), Literal(n));
  }

  predicate Plain(e: Expr, scope: set<nat>) {
    (e.Local? && e.id in scope) || (e.Lit? && ScalarLit(e.lit))
  }

  lemma PairUnbound(op: Prim, args: seq<Expr>, scope: set<nat>)
    requires BoundOnceIn(args) && BindersIn(args) == {} && ScopedIn(args, scope)
    ensures Unbound(Prim(op, args), scope)
  {
  }

  lemma PairClean(params: seq<nat>, plan: Plan, s: Scope, op: Prim, a: Expr, b: Expr)
    requires Clean(params, plan, s, a, false) && Clean(params, plan, s, b, false)
    ensures Numeric(op) && op != IntDiv && op != IntRem ==> Clean(params, plan, s, Prim(op, [a, b]), false)
  {
    assert [a, b][1..] == [b] && [b][1..] == [];
    assert CleanIn(params, plan, s, []);
    assert CleanIn(params, plan, s, [b]);
    assert CleanIn(params, plan, s, [a, b]);
  }

  lemma PlainPair(params: seq<nat>, plan: Plan, s: Scope, op: Prim, a: Expr, b: Expr)
    requires Plain(a, s.deps.Keys) && Plain(b, s.deps.Keys)
    ensures var e := Prim(op, [a, b]);
      && BoundOnce(e) && Binders(e) == {} && Scoped(e, s.deps.Keys) && Visits(plan.floats, e) == 3
      && (Depends(s.deps, e) <==> Depends(s.deps, a) || Depends(s.deps, b))
      && (Numeric(op) && op != IntDiv && op != IntRem ==> Clean(params, plan, s, e, false))
  {
    var args := [a, b];
    assert args[1..] == [b] && [b][1..] == [];
    hide Plain, BoundOnce, Scoped, Clean;
    PlainLeaf(params, plan, s, a);
    PlainLeaf(params, plan, s, b);
    UnboundArgs(args, s.deps.Keys);
    PairUnbound(op, args, s.deps.Keys);
    assert !DependsIn(s.deps, []) && VisitsIn(plan.floats, []) == 0;
    assert VisitsIn(plan.floats, [b]) == 1 && (DependsIn(s.deps, [b]) <==> Depends(s.deps, b));
    PairClean(params, plan, s, op, a, b);
  }

  lemma PlainLeaf(params: seq<nat>, plan: Plan, s: Scope, e: Expr)
    requires Plain(e, s.deps.Keys)
    ensures BoundOnce(e) && Binders(e) == {} && Scoped(e, s.deps.Keys) && Visits(plan.floats, e) == 1
    ensures Clean(params, plan, s, e, false)
  {
  }

  lemma HalvingLoopClean(params: seq<nat>, plan: Plan, limit: Expr, factor: I64)
    requires params == [0, 1, 2] && plan.counter == 0 && plan.floats == [2] && (limit == Local(1) || limit.Lit?)
    requires limit.Lit? ==> ScalarLit(limit.lit)
    ensures var body, s := HalvingLoop(limit, plan.descending, factor), Scope(ParamDeps(params, 0), map[]);
      && BoundOnce(body) && Binders(body) == {} && Scoped(body, ParamSet(params)) && CleanBody(params, plan, s, body)
      && LoopsBack(body.els) && PrefixTail(body) == body && LeadingDefs(body, map[]) == map[]
      && BodyVisits(plan.floats, body) == 5
  {
    hide Clean, Visits, BoundOnce, Binders, Scoped, Depends, CleanBody, StandsFor, LoopsBack;
    var body, s := HalvingLoop(limit, plan.descending, factor), Scope(ParamDeps(params, 0), map[]);
    assert s.deps == map[0 := true, 1 := false, 2 := false];
    assert ParamSet(params) == s.deps.Keys;
    PlainPair(params, plan, s, body.cond.op, Local(0), limit);
    PlainPair(params, plan, s, body.els.args[0].op, Local(0), Lit(IntLit(1)));
    PlainPair(params, plan, s, FloatMul, Local(2), Lit(FloatLit(factor)));
    PlainLeaf(params, plan, s, Local(2));
    NotCounter(s, factor);
    BackEdgeCounted(params, plan, s, body.els);
    WholeCounted(params, plan, s, body);
  }

  lemma HalvingLoopCounted(descending: bool, factor: I64, limit: Expr, bound: FixedPointPlan.Bound)
    requires (limit == Local(1) && bound == Parameter(1)) || (bound.Literal? && limit == Lit(IntLit(bound.n)))
    ensures PlanOf([0, 1, 2], HalvingLoop(limit, descending, factor), map[0 := TInt, 1 := TInt, 2 := TFloat]) ==
      Some(Plan(0, bound, descending, [2]))
  {
    hide Clean, Visits, BoundOnce, Binders, Scoped, Depends, PlanOf, ExitTest, CleanBody, StandsFor, LoopsBack;
    var params, types, plan := [0, 1, 2], map[0 := TInt, 1 := TInt, 2 := TFloat], Plan(0, bound, descending, [2]);
    var body := HalvingLoop(limit, descending, factor);
    HalvingLoopClean(params, plan, limit, factor);
    TestCounted(params, types, limit, plan);
    PlanExact(params, body, types, plan);
  }

  lemma NotCounter(s: Scope, factor: I64)
    requires s.deps == map[0 := true, 1 := false, 2 := false]
    ensures !Depends(s.deps, Local(2)) && !Depends(s.deps, Lit(FloatLit(factor)))
  {
  }

  lemma WholeCounted(params: seq<nat>, plan: Plan, s: Scope, e: Expr)
    requires e.If? && e.els.Recur?
    requires BoundOnce(e.cond) && Binders(e.cond) == {} && Scoped(e.cond, s.deps.Keys)
    requires BoundOnce(e.thn) && Binders(e.thn) == {} && Scoped(e.thn, s.deps.Keys)
    requires BoundOnce(e.els) && Binders(e.els) == {} && Scoped(e.els, s.deps.Keys)
    requires Clean(params, plan, s, e.thn, false) && Clean(params, plan, s, e.els, true)
    ensures BoundOnce(e) && Binders(e) == {} && Scoped(e, s.deps.Keys) && CleanBody(params, plan, s, e)
    ensures LoopsBack(e.els) && PrefixTail(e) == e && LeadingDefs(e, s.defs) == s.defs
    ensures BodyVisits(plan.floats, e) == Visits(plan.floats, e.thn) + Visits(plan.floats, e.els)
  {
  }

  lemma TestCounted(params: seq<nat>, types: map<nat, Ty>, limit: Expr, plan: Plan)
    requires params == [0, 1, 2] && types == map[0 := TInt, 1 := TInt, 2 := TFloat] && plan.counter == 0
    requires (limit == Local(1) && plan.bound == Parameter(1)) ||
             (plan.bound.Literal? && limit == Lit(IntLit(plan.bound.n)))
    ensures ExitTest(params, types, map[], Prim(if plan.descending then IntLe else IntGe, [Local(0), limit]), plan)
  {
    hide Denotes;
    SelfDenotes(map[]);
    var op := if plan.descending then IntLe else IntGe;
    assert StandsFor(map[], Prim(op, [Local(0), limit]), Prim(op, [Local(0), limit]));
  }

  lemma SelfDenotes(defs: Defs)
    ensures forall e :: StandsFor(defs, e, e)
  {
  }

  ghost predicate Unbound(e: Expr, scope: set<nat>) {
    BoundOnce(e) && Binders(e) == {} && Scoped(e, scope)
  }

  lemma {:induction false} UnboundArgs(args: seq<Expr>, scope: set<nat>)
    requires forall i :: 0 <= i < |args| ==> Unbound(args[i], scope)
    ensures BoundOnceIn(args) && BindersIn(args) == {} && ScopedIn(args, scope)
  {
    hide BoundOnce, Binders, Scoped;
    if args != [] {
      assert forall i :: 0 <= i < |args[1..]| ==> args[1..][i] == args[i + 1];
      UnboundArgs(args[1..], scope);
    }
  }

  lemma CopyBinders(e: Expr, scope: set<nat>)
    requires e.Local? && e.id in scope
    ensures Unbound(e, scope)
  {
  }

  lemma BackEdgeBinders(e: Expr, scope: set<nat>)
    requires e.Recur? && BoundOnceIn(e.args) && BindersIn(e.args) == {} && ScopedIn(e.args, scope)
    ensures Unbound(e, scope)
  {
  }

  lemma BackEdgeVisits(floats: seq<nat>, e: Expr)
    requires e.Recur? && |e.args| == 3 && floats == [2] && Visits(floats, e.args[2]) == 3
    ensures Visits(floats, e) == 4
  {
    assert OperandVisits(floats, e, 3) == 0;
    assert OperandVisits(floats, e, 2) == 3;
    assert OperandVisits(floats, e, 1) == 3;
  }

  lemma BackEdgeCounted(params: seq<nat>, plan: Plan, s: Scope, e: Expr)
    requires e.Recur? && params == [0, 1, 2] && plan.counter == 0 && plan.floats == [2] && |e.args| == 3
    requires s.deps == map[0 := true, 1 := false, 2 := false] && s.defs == map[] && e.args[1] == Local(1)
    requires e.args[0] == Prim(if plan.descending then IntSub else IntAdd, [Local(0), Lit(IntLit(1))])
    requires BoundOnce(e.args[0]) && Binders(e.args[0]) == {} && Scoped(e.args[0], s.deps.Keys)
    requires BoundOnce(e.args[2]) && Binders(e.args[2]) == {} && Scoped(e.args[2], s.deps.Keys)
    requires Visits(plan.floats, e.args[2]) == 3 && !Depends(s.deps, e.args[2])
    requires Clean(params, plan, s, e.args[2], false)
    ensures Clean(params, plan, s, e, true) && Visits(plan.floats, e) == 4
    ensures BoundOnce(e) && Binders(e) == {} && Scoped(e, s.deps.Keys)
  {
    hide Denotes, BoundOnce, Binders, Scoped, Visits, Depends, BindersIn, BoundOnceIn, ScopedIn;
    SelfDenotes(s.defs);
    assert StepsByOne(params, plan, s.defs, e.args[0]);
    BackEdgeVisits(plan.floats, e);
    CopyBinders(e.args[1], s.deps.Keys);
    UnboundArgs(e.args, s.deps.Keys);
    BackEdgeBinders(e, s.deps.Keys);
  }
}
