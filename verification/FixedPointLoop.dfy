/** Running a planned loop: jumping the counter to its bound once the float state
    repeats gives the result, or the trap, of running every iteration. */
module FixedPointLoop {
  import opened Machine
  import opened Primitives
  import opened Core
  import opened FixedPointPlan
  import opened FixedPointSkip
  import opened CoreLoop

  // ----- the loop -----

  /** A type-checked loop: distinct parameters, every local bound once. */
  ghost predicate LoopTyped(params: seq<nat>, body: Expr, types: map<nat, Ty>, t: Ty) {
    && Distinct(params) && BoundOnce(body) && Binders(body) !! ParamSet(params)
    && Typed(body, types, ParamSet(params), params, true, t)
  }

  ghost predicate ValsTyped(params: seq<nat>, types: map<nat, Ty>, vals: seq<Value>) {
    |vals| == |params| && forall i :: 0 <= i < |params| ==> HasType(types, params[i], TypeOf(vals[i]))
  }

  /** Every iteration is run. */
  function Loop(ops: Interp, params: seq<nat>, body: Expr, vals: seq<Value>, fuel: nat): Final
    requires |vals| == |params|
    decreases fuel
  {
    match Iterate(ops, params, body, vals)
    case Back(next) =>
      if |next| != |params| then Done(Stuck)
      else if fuel == 0 then OutOfFuel else Loop(ops, params, body, next, fuel - 1)
    case o => Done(o)
  }

  function BoundValue(plan: Plan, vals: seq<Value>): I64 {
    match plan.bound
    case Literal(n) => n
    case Parameter(i) => if i < |vals| && vals[i].IntV? then vals[i].n else 0
  }

  predicate SameBits(plan: Plan, vals: seq<Value>, next: seq<Value>) {
    |vals| == |next| && forall i :: 0 <= i < |vals| && i in plan.floats ==> vals[i] == next[i]
  }

  /** A back-edge that leaves the float bits unchanged enters the bound as the counter. */
  function SkipLoop(ops: Interp, params: seq<nat>, body: Expr, plan: Plan, vals: seq<Value>, fuel: nat): Final
    requires |vals| == |params| && plan.counter < |params|
    decreases fuel
  {
    match Iterate(ops, params, body, vals)
    case Back(next) =>
      if |next| != |params| then Done(Stuck)
      else if fuel == 0 then OutOfFuel
      else if SameBits(plan, vals, next) then
        SkipLoop(ops, params, body, plan, next[plan.counter := IntV(BoundValue(plan, vals))], fuel - 1)
      else SkipLoop(ops, params, body, plan, next, fuel - 1)
    case o => Done(o)
  }

  // ----- one iteration -----

  /** The terminal comparison, read from the parameters. */
  predicate Exits(params: seq<nat>, plan: Plan, env: Env)
    requires plan.counter < |params| && params[plan.counter] in env && env[params[plan.counter]].IntV?
  {
    var c := env[params[plan.counter]].n;
    var b :=
      match plan.bound
      case Literal(n) => n as int
      case Parameter(i) => if i < |params| && params[i] in env && env[params[i]].IntV? then env[params[i]].n else 0;
    if plan.descending then c <= b else c >= b
  }

  /** A two-operand primitive whose operands resolve to plain terms. */
  lemma ResolvedPrim(ops: Interp, e: Expr, defs: Defs, env: Env, v: Value, w: Value)
    requires e.Prim? && |e.args| == 2 && DefsHold(ops, defs, env) && Eval(ops, e, env) != Stuck
    requires Eval(ops, Resolve(e.args[0], defs, RESOLVE_STEPS), env) == Ret(v)
    requires Eval(ops, Resolve(e.args[1], defs, RESOLVE_STEPS), env) == Ret(w)
    ensures EvalArgs(ops, e.args, env) == Vals([v, w])
  {
    TwoArgs(ops, e.args, env);
    ResolveSame(ops, e.args[0], defs, RESOLVE_STEPS, env);
    ResolveSame(ops, e.args[1], defs, RESOLVE_STEPS, env);
  }

  lemma GuardIntegers(params: seq<nat>, types: map<nat, Ty>, defs: Defs, cond: Expr, plan: Plan, env: Env)
    requires Guard(params, types, defs, cond) == Some(plan)
    requires EnvTyped(env, types, env.Keys) && forall i :: 0 <= i < |params| ==> params[i] in env
    ensures plan.counter < |params| && env[params[plan.counter]].IntV?
    ensures plan.bound.Parameter? ==>
      plan.bound.index < |params| && plan.bound.index != plan.counter && env[params[plan.bound.index]].IntV?
  {
    hide Guard;
    GuardTerms(params, types, defs, cond, plan);
  }

  lemma NotStuck(ops: Interp, params: seq<nat>, types: map<nat, Ty>, e: Expr, t: Ty, env: Env)
    requires Typed(e, types, env.Keys, params, false, t) && EnvTyped(env, types, env.Keys)
    ensures Eval(ops, e, env) != Stuck
  {
    hide Typed, Eval, EnvTyped;
    TypeSafe(ops, e, types, params, false, t, env);
  }

  lemma GuardEvaluates(ops: Interp, params: seq<nat>, types: map<nat, Ty>, defs: Defs, cond: Expr, plan: Plan, env: Env)
    requires Guard(params, types, defs, cond) == Some(plan) && DefsHold(ops, defs, env)
    requires EnvTyped(env, types, env.Keys) && forall i :: 0 <= i < |params| ==> params[i] in env
    requires Typed(cond, types, env.Keys, params, false, TBool)
    ensures plan.counter < |params| && env[params[plan.counter]].IntV?
    ensures plan.bound.Parameter? ==>
      plan.bound.index < |params| && plan.bound.index != plan.counter && env[params[plan.bound.index]].IntV?
    ensures Eval(ops, cond, env) == Ret(BoolV(Exits(params, plan, env)))
  {
    hide Guard, Typed, Resolve, DefsHold, ApplyNumeric, EnvTyped;
    GuardIntegers(params, types, defs, cond, plan, env);
    GuardTerms(params, types, defs, cond, plan);
    NotStuck(ops, params, types, cond, TBool, env);
    ResolveSame(ops, cond, defs, RESOLVE_STEPS, env);
    var c := Resolve(cond, defs, RESOLVE_STEPS);
    var p := params[plan.counter];
    var b := match plan.bound case Literal(n) => IntV(n) case Parameter(i) => env[params[i]];
    ResolvedPrim(ops, c, defs, env, env[p], b);
    CompareInts(ops, c.op, env[p], b);
  }

  lemma CompareInts(ops: Interp, op: Prim, v: Value, w: Value)
    requires v.IntV? && w.IntV? && (op == IntGe || op == IntLe)
    ensures ApplyNumeric(ops, op, [v, w]) == Ret(BoolV(if op == IntGe then v.n >= w.n else v.n <= w.n))
  {
    assert Types([v, w]) == [TInt, TInt];
  }

  lemma GuardTerms(params: seq<nat>, types: map<nat, Ty>, defs: Defs, cond: Expr, plan: Plan)
    requires Guard(params, types, defs, cond) == Some(plan)
    ensures plan.counter < |params| && HasType(types, params[plan.counter], TInt)
    ensures plan.bound.Parameter? ==>
      plan.bound.index < |params| && plan.bound.index != plan.counter && HasType(types, params[plan.bound.index], TInt)
    ensures var c := Resolve(cond, defs, RESOLVE_STEPS);
      && c.Prim? && |c.args| == 2 && c.op == (if plan.descending then IntLe else IntGe)
      && Resolve(c.args[0], defs, RESOLVE_STEPS) == Local(params[plan.counter])
      && Resolve(c.args[1], defs, RESOLVE_STEPS) ==
         match plan.bound case Literal(n) => Lit(IntLit(n)) case Parameter(i) => Local(params[i])
  {
  }

  lemma GuardShape(params: seq<nat>, types: map<nat, Ty>, defs: Defs, cond: Expr, plan: Plan)
    requires Guard(params, types, defs, cond) == Some(plan)
    ensures plan.counter < |params| && HasType(types, params[plan.counter], TInt)
    ensures plan.bound.Parameter? ==>
      plan.bound.index < |params| && HasType(types, params[plan.bound.index], TInt)
      && params[plan.bound.index] != params[plan.counter]
    ensures plan.floats == FloatParams(params, types, 0)
  {
  }

  lemma {:induction false} FloatParamsAre(params: seq<nat>, types: map<nat, Ty>, i: nat)
    requires i <= |params|
    ensures forall j :: j in FloatParams(params, types, i) <==> i <= j < |params| && HasType(types, params[j], TFloat)
    decreases |params| - i
  {
    if i < |params| {
      FloatParamsAre(params, types, i + 1);
    }
  }

  /** The prefix definitions the guard was resolved with. */
  predicate ChainDefs(all: Defs, e: Expr) {
    e.Let? ==> e.local in all && all[e.local] == e.value && ChainDefs(all, e.body)
  }

  lemma {:induction false} PrefixDefs(e: Expr, defs: Defs)
    requires PrefixOf(e, defs).Prefix? && BoundOnce(e)
    ensures var all := PrefixOf(e, defs).defs;
      ChainDefs(all, e) && (forall x :: x in defs && x !in Binders(e) ==> x in all && all[x] == defs[x])
      && (forall x :: x in all ==> x in defs || x in Binders(e))
  {
    if e.Let? {
      PrefixDefs(e.body, defs[e.local := e.value]);
    }
  }

  lemma {:induction false} WalkNeverBack(ops: Interp, params: seq<nat>, plan: Plan, st: ScanState, e: Expr, env: Env)
    requires Walk(params, plan, st, e, false).Accepted?
    ensures !Eval(ops, e, env).Back?
    decreases e
  {
    var st0 := st.(budget := st.budget - 1);
    match e
    case Let(local, value, body) =>
      var w := Walk(params, plan, st0, value, false);
      var v := Eval(ops, value, env);
      if v.Ret? {
        WalkNeverBack(ops, params, plan, Recorded(w.st, w.dep, local, value),
          body, env[local := v.v]);
      }
    case If(cond, thn, els) =>
      var st1 := Walk(params, plan, st0, cond, false).st;
      WalkNeverBack(ops, params, plan, st1, thn, env);
      WalkNeverBack(ops, params, plan, Walk(params, plan, st1, thn, false).st, els, env);
    case Prim(op, args) => NumericNeverBack(ops, op, args, env);
    case Dup(_, body) => WalkNeverBack(ops, params, plan, st0, body, env);
    case Drop(_, body) => WalkNeverBack(ops, params, plan, st0, body, env);
    case _ =>
  }

  /** What the planner established about the rest of a body. */
  ghost predicate Planned(params: seq<nat>, plan: Plan, types: map<nat, Ty>, t: Ty, all: Defs, st: ScanState,
      e: Expr, scope: set<nat>)
  {
    && ScanBody(params, plan, st, e).Accepted? && PrefixTail(e).If?
    && Typed(e, types, scope, params, true, t) && BoundOnce(e) && Binders(e) !! st.deps.Keys
    && ChainDefs(all, e) && Guard(params, types, all, PrefixTail(e).cond) == Some(plan)
  }

  lemma PlannedStep(params: seq<nat>, plan: Plan, types: map<nat, Ty>, t: Ty, all: Defs, st: ScanState, e: Expr,
      scope: set<nat>)
    requires e.Let? && Planned(params, plan, types, t, all, st, e, scope)
    ensures var w := Walk(params, plan, st, e.value, false);
      w.Accepted? && e.local in types && Typed(e.value, types, scope, params, false, types[e.local])
      && Planned(params, plan, types, t, all,
        Recorded(w.st, w.dep, e.local, e.value), e.body, scope + {e.local})
  {
    var w := Walk(params, plan, st, e.value, false);
    WalkKeys(params, plan, st, e.value, false);
  }

  /** A walk only adds the locals it binds. */
  lemma WalkKeys(params: seq<nat>, plan: Plan, st: ScanState, e: Expr, tail: bool)
    requires Walk(params, plan, st, e, tail).Accepted?
    ensures forall x :: x in Walk(params, plan, st, e, tail).st.deps ==> x in st.deps || x in Binders(e)
  {
    WalkFramed(params, plan, st, e, tail);
  }

  /** A planned rest of a body, in an environment that fits what the planner knows. */
  ghost predicate Chained(ops: Interp, params: seq<nat>, plan: Plan, types: map<nat, Ty>, t: Ty, all: Defs,
      st: ScanState, e: Expr, env: Env)
  {
    && Planned(params, plan, types, t, all, st, e, env.Keys) && EnvTyped(env, types, env.Keys)
    && Known(ops, st, env) && HasParams(params, plan, st, env) && DefsHold(ops, all, env)
  }

  lemma LetBack(ops: Interp, e: Expr, env: Env)
    requires e.Let? && Eval(ops, e, env).Back?
    ensures Eval(ops, e.value, env).Ret?
  {
  }

  lemma LetBinds(all: Defs, e: Expr, st: ScanState)
    requires e.Let? && BoundOnce(e) && Binders(e) !! st.deps.Keys && ChainDefs(all, e)
    ensures e.local in all && all[e.local] == e.value
    ensures BoundOnce(e.value) && Binders(e.value) !! st.deps.Keys && e.local !in st.deps
  {
  }

  lemma KnownScope(ops: Interp, st: ScanState, local: nat, env: Env)
    requires Known(ops, st, env) && local !in st.deps
    ensures local !in env
  {
  }

  lemma HasParamsBind(params: seq<nat>, plan: Plan, st: ScanState, st1: ScanState, dep: bool, local: nat,
      value: Expr, env: Env, v: Value)
    requires HasParams(params, plan, st, env) && local !in env && forall x :: x in st.deps ==> x in st1.deps
    ensures HasParams(params, plan, Recorded(st1, dep, local, value), env[local := v])
  {
  }

  lemma ChainStep(ops: Interp, params: seq<nat>, plan: Plan, types: map<nat, Ty>, t: Ty, all: Defs, st: ScanState,
      e: Expr, env: Env)
    requires e.Let? && Chained(ops, params, plan, types, t, all, st, e, env) && Eval(ops, e, env).Back?
    ensures var w := Walk(params, plan, st, e.value, false);
      var v := Eval(ops, e.value, env);
      && w.Accepted? && v.Ret? && e.local !in env
      && HasParams(params, plan, Recorded(w.st, w.dep, e.local, e.value), env[e.local := v.v])
      && Chained(ops, params, plan, types, t, all,
        Recorded(w.st, w.dep, e.local, e.value), e.body, env[e.local := v.v])
  {
    hide Walk, Typed, Guard, ScanBody, PrefixTail, ChainDefs, Known, DefsHold, EnvTyped, Eval, BoundOnce, Binders;
    var w := Walk(params, plan, st, e.value, false);
    PlannedStep(params, plan, types, t, all, st, e, env.Keys);
    LetBinds(all, e, st);
    LetBack(ops, e, env);
    TypeSafe(ops, e.value, types, params, false, types[e.local], env);
    var v := Eval(ops, e.value, env).v;
    ValueFramed(params, plan, st, e.value);
    KnownFramed(ops, st, w.st, Binders(e.value), env);
    KnownScope(ops, st, e.local, env);
    KnownBind(ops, w.st, e.local, e.value, w.dep, env, v);
    BindDefinition(ops, all, env, e.local, e.value, v);
    TypedBind(env, types, e.local, v);
    HasParamsBind(params, plan, st, w.st, w.dep, e.local, e.value, env, v);
    assert env[e.local := v].Keys == env.Keys + {e.local};
  }

  lemma AllParams(params: seq<nat>, plan: Plan, st: ScanState, env: Env)
    requires HasParams(params, plan, st, env)
    ensures forall i :: 0 <= i < |params| ==> params[i] in env
  {
  }

  /** The guard itself: the bound is not reached, and the other branch loops. */
  lemma ChainEnd(ops: Interp, params: seq<nat>, plan: Plan, types: map<nat, Ty>, t: Ty, all: Defs, st: ScanState,
      e: Expr, env: Env)
    requires e.If? && Planned(params, plan, types, t, all, st, e, env.Keys) && EnvTyped(env, types, env.Keys)
    requires Known(ops, st, env) && HasParams(params, plan, st, env) && DefsHold(ops, all, env)
    requires Eval(ops, e, env).Back?
    ensures Steps(params, plan, env, Eval(ops, e, env).vals) && !Exits(params, plan, env)
  {
    hide Walk, Typed, Guard, Known, DefsHold, EnvTyped, Exits, HasParams, Steps, ChainDefs;
    var st1 := Walk(params, plan, st, e.thn, false).st;
    AllParams(params, plan, st, env);
    IfParts(e, types, env.Keys, params, true, t);
    GuardEvaluates(ops, params, types, all, e.cond, plan, env);
    WalkNeverBack(ops, params, plan, st, e.thn, env);
    ValueFramed(params, plan, st, e.thn);
    KnownFramed(ops, st, st1, Binders(e.thn), env);
    HasParamsKept(params, plan, st, st1, env);
    BackSteps(ops, params, plan, st1, e.els, true, env);
  }

  lemma SameParams(params: seq<nat>, plan: Plan, st: ScanState, local: nat, env: Env, v: Value, vals: seq<Value>)
    requires local !in env && HasParams(params, plan, st, env)
    requires Steps(params, plan, env[local := v], vals) && !Exits(params, plan, env[local := v])
    ensures Steps(params, plan, env, vals) && !Exits(params, plan, env)
  {
  }

  /** A back-edge is taken only before the bound, and steps the counter. */
  lemma {:induction false} ChainBack(ops: Interp, params: seq<nat>, plan: Plan, types: map<nat, Ty>, t: Ty,
      all: Defs, st: ScanState, e: Expr, env: Env)
    requires Chained(ops, params, plan, types, t, all, st, e, env) && HasParams(params, plan, st, env)
    requires Eval(ops, e, env).Back?
    ensures Steps(params, plan, env, Eval(ops, e, env).vals) && !Exits(params, plan, env)
    decreases e
  {
    if e.Let? {
      ChainStep(ops, params, plan, types, t, all, st, e, env);
      var w := Walk(params, plan, st, e.value, false);
      var env1 := env[e.local := Eval(ops, e.value, env).v];
      assert Eval(ops, e, env) == Eval(ops, e.body, env1);
      var st1 := Recorded(w.st, w.dep, e.local, e.value);
      hide *;
      ChainBack(ops, params, plan, types, t, all, st1, e.body, env1);
      SameParams(params, plan, st, e.local, env, env1[e.local], Eval(ops, e.body, env1).vals);
    } else {
      ChainEnd(ops, params, plan, types, t, all, st, e, env);
    }
  }

  /** Two iterations before the bound take the same course and compute the same floats. */
  lemma {:induction false} ChainIndependent(ops: Interp, params: seq<nat>, plan: Plan, types: map<nat, Ty>, t: Ty,
      all: Defs, st: ScanState, e: Expr, a: Env, b: Env)
    requires Planned(params, plan, types, t, all, st, e, a.Keys) && Comparable(ops, params, plan, types, st, a, b)
    requires DefsHold(ops, all, a) && DefsHold(ops, all, b)
    requires !Exits(params, plan, a) && !Exits(params, plan, b)
    ensures SameOutcome(params, plan, true, Eval(ops, e, a), Eval(ops, e, b))
    decreases e
  {
    if e.Let? {
      PlannedStep(params, plan, types, t, all, st, e, a.Keys);
      var w := Walk(params, plan, st, e.value, false);
      Independent(ops, params, plan, types, types[e.local], st, e.value, false, a, b);
      TypeSafe(ops, e.value, types, params, false, types[e.local], a);
      TypeSafe(ops, e.value, types, params, false, types[e.local], b);
      var p, q := Eval(ops, e.value, a), Eval(ops, e.value, b);
      if p.Ret? {
        ChainBind(ops, params, plan, types, t, all, st, e, a, b, p.v, q.v);
        hide Planned, Comparable, DefsHold;
        ChainIndependent(ops, params, plan, types, t, all,
          Recorded(w.st, w.dep, e.local, e.value), e.body,
            a[e.local := p.v], b[e.local := q.v]);
      }
    } else {
      GuardEvaluates(ops, params, types, all, e.cond, plan, a);
      GuardEvaluates(ops, params, types, all, e.cond, plan, b);
      var w := Walk(params, plan, st, e.thn, false);
      WalkFramed(params, plan, st, e.thn, false);
      ComparableFramed(ops, params, plan, types, st, w.st, Binders(e.thn), a, b);
      Independent(ops, params, plan, types, t, w.st, e.els, true, a, b);
      hide *;
      SameWeaker(params, plan, Walk(params, plan, w.st, e.els, true).dep, Eval(ops, e.els, a), Eval(ops, e.els, b));
      TakesElse(ops, e, a);
      TakesElse(ops, e, b);
    }
  }

  lemma SameWeaker(params: seq<nat>, plan: Plan, dep: bool, p: Outcome, q: Outcome)
    requires SameOutcome(params, plan, dep, p, q)
    ensures SameOutcome(params, plan, true, p, q)
  {
  }

  lemma TakesElse(ops: Interp, e: Expr, env: Env)
    requires e.If? && Eval(ops, e.cond, env) == Ret(BoolV(false))
    ensures Eval(ops, e, env) == Eval(ops, e.els, env)
  {
  }

  lemma ExitsBind(ops: Interp, params: seq<nat>, plan: Plan, types: map<nat, Ty>, st: ScanState, a: Env, b: Env,
      local: nat, v: Value, u: Value)
    requires Comparable(ops, params, plan, types, st, a, b) && local !in a
    requires !Exits(params, plan, a) && !Exits(params, plan, b)
    ensures plan.counter < |params| && params[plan.counter] in a[local := v] &&
      a[local := v][params[plan.counter]].IntV?
    ensures params[plan.counter] in b[local := u] && b[local := u][params[plan.counter]].IntV?
    ensures !Exits(params, plan, a[local := v]) && !Exits(params, plan, b[local := u])
  {
    hide Known, DefsHold, EnvTyped;
  }

  lemma ChainBind(ops: Interp, params: seq<nat>, plan: Plan, types: map<nat, Ty>, t: Ty, all: Defs, st: ScanState,
      e: Expr, a: Env, b: Env, v: Value, u: Value)
    requires e.Let? && Planned(params, plan, types, t, all, st, e, a.Keys) &&
      Comparable(ops, params, plan, types, st, a, b)
    requires DefsHold(ops, all, a) && DefsHold(ops, all, b)
    requires !Exits(params, plan, a) && !Exits(params, plan, b)
    requires var w := Walk(params, plan, st, e.value, false); w.Accepted? && (!w.dep ==> v == u)
    requires e.local in types && Eval(ops, e.value, a) == Ret(v) && Eval(ops, e.value, b) == Ret(u)
    requires TypeOf(v) == types[e.local] && TypeOf(u) == types[e.local]
    ensures var w := Walk(params, plan, st, e.value, false);
      var st1 := Recorded(w.st, w.dep, e.local, e.value);
      var a1, b1 := a[e.local := v], b[e.local := u];
      Comparable(ops, params, plan, types, st1, a1, b1) && DefsHold(ops, all, a1) && DefsHold(ops, all, b1)
      && a1.Keys == a.Keys + {e.local} && !Exits(params, plan, a1) && !Exits(params, plan, b1)
  {
    hide Walk, Typed, Guard, ScanBody, PrefixTail, ChainDefs, Comparable, DefsHold, EnvTyped, Eval, BoundOnce, Binders;
    var w := Walk(params, plan, st, e.value, false);
    LetBinds(all, e, st);
    ComparableTyped(ops, params, plan, types, st, a, b);
    ValueFramed(params, plan, st, e.value);
    ComparableFramed(ops, params, plan, types, st, w.st, Binders(e.value), a, b);
    ComparableBind(ops, params, plan, types, w.st, e.local, e.value, w.dep, a, v, b, u);
    BindDefinition(ops, all, a, e.local, e.value, v);
    BindDefinition(ops, all, b, e.local, e.value, u);
    ExitsBind(ops, params, plan, types, st, a, b, e.local, v, u);
  }

  // ----- whole runs -----

  function CounterOf(plan: Plan, vals: seq<Value>): I64 {
    if plan.counter < |vals| && vals[plan.counter].IntV? then vals[plan.counter].n else 0
  }

  predicate AtBound(plan: Plan, vals: seq<Value>) {
    if plan.descending then CounterOf(plan, vals) <= BoundValue(plan, vals)
        else CounterOf(plan, vals) >= BoundValue(plan, vals)
  }

  /** How many steps the counter is from its bound. */
  function Distance(plan: Plan, vals: seq<Value>): nat {
    if AtBound(plan, vals) then 0
    else if plan.descending then CounterOf(plan, vals) - BoundValue(plan, vals)
    else BoundValue(plan, vals) - CounterOf(plan, vals)
  }

  ghost predicate Accepted(params: seq<nat>, body: Expr, types: map<nat, Ty>, t: Ty, plan: Plan) {
    PlanOf(params, body, types) == Some(plan) && LoopTyped(params, body, types, t)
  }

  /** What a planned back-edge does to the parameters: the counter moves one step, as an
      exact integer, and only floats change besides. */
  ghost predicate Transition(params: seq<nat>, plan: Plan, types: map<nat, Ty>, vals: seq<Value>, next: seq<Value>) {
    && |vals| == |params| && !AtBound(plan, vals) && ValsTyped(params, types, next)
    && CounterOf(plan, next) == CounterOf(plan, vals) + StepOf(plan)
    && forall i :: 0 <= i < |params| && i != plan.counter && i !in plan.floats ==> next[i] == vals[i]
  }

  lemma AcceptedFacts(params: seq<nat>, body: Expr, types: map<nat, Ty>, t: Ty, plan: Plan)
    requires Accepted(params, body, types, t, plan)
    ensures PrefixOf(body, map[]).Prefix? && PrefixTail(body).If?
    ensures Planned(params, plan, types, t, PrefixOf(body, map[]).defs, Start(params, plan), body, ParamSet(params))
    ensures forall x :: x in PrefixOf(body, map[]).defs ==> x in Binders(body)
    ensures PlanTyped(params, types, plan)
  {
    var prefix := PrefixOf(body, map[]);
    TailOfPrefix(body, map[]);
    PrefixDefs(body, map[]);
    GuardShape(params, types, prefix.defs, prefix.last.cond, plan);
    FloatParamsAre(params, types, 0);
    assert Start(params, plan).deps.Keys == ParamSet(params);
  }

  /** The environment an iteration starts in satisfies what the scanner assumed. */
  ghost predicate Entry(ops: Interp, params: seq<nat>, body: Expr, types: map<nat, Ty>, plan: Plan,
      vals: seq<Value>, env: Env)
  {
    && |vals| == |params| && env.Keys == ParamSet(params) && EnvTyped(env, types, env.Keys)
    && Known(ops, Start(params, plan), env) && HasParams(params, plan, Start(params, plan), env)
    && PrefixOf(body, map[]).Prefix? && DefsHold(ops, PrefixOf(body, map[]).defs, env)
    && (Exits(params, plan, env) <==> AtBound(plan, vals))
    && forall i :: 0 <= i < |params| ==> params[i] in env && env[params[i]] == vals[i]
  }

  lemma EntryKnown(ops: Interp, params: seq<nat>, body: Expr, types: map<nat, Ty>, t: Ty, plan: Plan, vals: seq<Value>)
    requires Accepted(params, body, types, t, plan) && ValsTyped(params, types, vals)
    ensures Entry(ops, params, body, types, plan, vals, Bind(params, vals))
  {
    hide Planned, PlanOf, Bind, Eval, PrefixOf, Known, DefsHold, EnvTyped, Exits, AtBound, HasParams, Start, Typed,
      BoundOnce, PlanTyped;
    var env := Bind(params, vals);
    AcceptedFacts(params, body, types, t, plan);
    BindValues(params, vals);
    EntryTyped(params, types, vals, env);
    EntryParams(params, types, plan, vals, env);
    KnownAtStart(ops, params, plan, env);
    NoDefinitionsYet(ops, PrefixOf(body, map[]).defs, Binders(body), env);
  }

  lemma EntryParams(params: seq<nat>, types: map<nat, Ty>, plan: Plan, vals: seq<Value>, env: Env)
    requires PlanTyped(params, types, plan) && ValsTyped(params, types, vals) && env.Keys == ParamSet(params)
    requires forall i :: 0 <= i < |params| ==> params[i] in env && env[params[i]] == vals[i]
    ensures HasParams(params, plan, Start(params, plan), env)
    ensures Exits(params, plan, env) <==> AtBound(plan, vals)
  {
    assert TypeOf(vals[plan.counter]) == TInt;
    ExitsIsAtBound(params, plan, vals, env);
  }

  lemma ExitsIsAtBound(params: seq<nat>, plan: Plan, vals: seq<Value>, env: Env)
    requires plan.counter < |params| == |vals| && vals[plan.counter].IntV?
    requires plan.bound.Parameter? ==> plan.bound.index < |params|
    requires forall i :: 0 <= i < |params| ==> params[i] in env && env[params[i]] == vals[i]
    ensures Exits(params, plan, env) <==> AtBound(plan, vals)
  {
  }

  lemma KnownAtStart(ops: Interp, params: seq<nat>, plan: Plan, env: Env)
    requires env.Keys == ParamSet(params)
    ensures Known(ops, Start(params, plan), env)
    ensures forall i :: 0 <= i < |params| ==> params[i] in Start(params, plan).deps
  {
  }

  lemma NoDefinitionsYet(ops: Interp, defs: Defs, bound: set<nat>, env: Env)
    requires (forall x :: x in defs ==> x in bound) && bound !! env.Keys
    ensures DefsHold(ops, defs, env)
  {
  }

  lemma EntryTyped(params: seq<nat>, types: map<nat, Ty>, vals: seq<Value>, env: Env)
    requires ValsTyped(params, types, vals) && env.Keys == ParamSet(params)
    requires forall i :: 0 <= i < |params| ==> params[i] in env && env[params[i]] == vals[i]
    ensures EnvTyped(env, types, env.Keys)
  {
    forall x | x in env ensures HasType(types, x, TypeOf(env[x])) {
      var i :| 0 <= i < |params| && params[i] == x;
    }
  }

  lemma BackEdge(ops: Interp, params: seq<nat>, body: Expr, types: map<nat, Ty>, t: Ty, plan: Plan, vals: seq<Value>)
    requires Accepted(params, body, types, t, plan) && ValsTyped(params, types, vals)
    requires Iterate(ops, params, body, vals).Back?
    ensures Transition(params, plan, types, vals, Iterate(ops, params, body, vals).vals)
  {
    hide Planned, PlanOf, Bind, Typed, BoundOnce, PrefixOf, Guard, ScanBody, Known, DefsHold, HasParams, Steps,
      Transition, Eval, Exits, AtBound;
    var env := Bind(params, vals);
    AcceptedFacts(params, body, types, t, plan);
    EntryKnown(ops, params, body, types, t, plan, vals);
    TypeSafe(ops, body, types, params, true, t, env);
    assert Chained(ops, params, plan, types, t, PrefixOf(body, map[]).defs, Start(params, plan), body, env);
    ChainBack(ops, params, plan, types, t, PrefixOf(body, map[]).defs, Start(params, plan), body, env);
    StepsTransition(params, plan, types, env, vals, Eval(ops, body, env).vals);
  }

  lemma StepsTransition(params: seq<nat>, plan: Plan, types: map<nat, Ty>, env: Env, vals: seq<Value>, next: seq<Value>)
    requires Steps(params, plan, env, next) && |vals| == |params| && !AtBound(plan, vals)
    requires forall i :: 0 <= i < |params| ==> params[i] in env && env[params[i]] == vals[i]
    requires forall i :: 0 <= i < |next| ==> HasType(types, params[i], TypeOf(next[i]))
    ensures Transition(params, plan, types, vals, next)
  {
    assert FitsI64(CounterOf(plan, vals) + StepOf(plan));
  }

  /** Two iterations short of the bound that differ only in the counter loop together,
      with the same floats. */
  lemma SameCourse(ops: Interp, params: seq<nat>, body: Expr, types: map<nat, Ty>, t: Ty, plan: Plan,
      vals: seq<Value>, c: I64)
    requires Accepted(params, body, types, t, plan) && ValsTyped(params, types, vals)
    requires plan.counter < |vals| && !AtBound(plan, vals) && !AtBound(plan, vals[plan.counter := IntV(c)])
    requires Iterate(ops, params, body, vals).Back?
    ensures var o := Iterate(ops, params, body, vals[plan.counter := IntV(c)]);
      SameOutcome(params, plan, true, Iterate(ops, params, body, vals), o)
  {
    hide Planned, PlanOf, Bind, Typed, BoundOnce, PrefixOf, Guard, ScanBody, Known, DefsHold, SameOutcome, Eval,
      Exits, AtBound;
    var moved := vals[plan.counter := IntV(c)];
    var a, b := Bind(params, vals), Bind(params, moved);
    AcceptedFacts(params, body, types, t, plan);
    assert ValsTyped(params, types, moved);
    EntryKnown(ops, params, body, types, t, plan, vals);
    EntryKnown(ops, params, body, types, t, plan, moved);
    var st := Start(params, plan);
    forall x | x in a && x in st.deps && !st.deps[x] ensures a[x] == b[x] {
      var i :| 0 <= i < |params| && params[i] == x;
    }
    ChainIndependent(ops, params, plan, types, t, PrefixOf(body, map[]).defs, st, body, a, b);
  }

  lemma NoBackAtBound(ops: Interp, params: seq<nat>, body: Expr, types: map<nat, Ty>, t: Ty, plan: Plan,
      vals: seq<Value>)
    requires Accepted(params, body, types, t, plan) && ValsTyped(params, types, vals) && AtBound(plan, vals)
    ensures !Iterate(ops, params, body, vals).Back?
  {
    if Iterate(ops, params, body, vals).Back? {
      BackEdge(ops, params, body, types, t, plan, vals);
    }
  }

  /** The parameter types the planner checked. */
  ghost predicate PlanTyped(params: seq<nat>, types: map<nat, Ty>, plan: Plan) {
    && plan.counter < |params| && HasType(types, params[plan.counter], TInt)
    && (forall j :: j in plan.floats <==> 0 <= j < |params| && HasType(types, params[j], TFloat))
    && (plan.bound.Parameter? ==>
          plan.bound.index < |params| && plan.bound.index != plan.counter &&
            HasType(types, params[plan.bound.index], TInt))
  }

  lemma DistanceShrinks(params: seq<nat>, types: map<nat, Ty>, plan: Plan, vals: seq<Value>, next: seq<Value>)
    requires PlanTyped(params, types, plan) && Transition(params, plan, types, vals, next)
    ensures Distance(plan, next) + 1 == Distance(plan, vals) && BoundValue(plan, next) == BoundValue(plan, vals)
  {
  }

  lemma StableState(params: seq<nat>, types: map<nat, Ty>, plan: Plan, vals: seq<Value>, next: seq<Value>)
    requires PlanTyped(params, types, plan) && Transition(params, plan, types, vals, next) && SameBits(plan, vals, next)
    ensures |next| == |params| && next == vals[plan.counter := IntV(CounterOf(plan, next))]
    ensures next[plan.counter := IntV(BoundValue(plan, vals))] == vals[plan.counter := IntV(BoundValue(plan, vals))]
    ensures AtBound(plan, next) ==> next == vals[plan.counter := IntV(BoundValue(plan, vals))]
  {
    assert TypeOf(next[plan.counter]) == TInt;
    DistanceShrinks(params, types, plan, vals, next);
  }

  /** Once a back-edge repeats the float bits, every later iteration does, until the
      counter stands exactly at the bound. */
  lemma {:induction false} StableRun(ops: Interp, params: seq<nat>, body: Expr, types: map<nat, Ty>, t: Ty,
      plan: Plan, vals: seq<Value>, fuel: nat)
    requires Accepted(params, body, types, t, plan) && ValsTyped(params, types, vals) &&
      PlanTyped(params, types, plan) && |vals| == |params|
    requires Iterate(ops, params, body, vals).Back? && SameBits(plan, vals, Iterate(ops, params, body, vals).vals)
    requires fuel >= Distance(plan, vals)
    ensures var end := vals[plan.counter := IntV(BoundValue(plan, vals))];
      Loop(ops, params, body, vals, fuel) == Done(Iterate(ops, params, body, end)) &&
        !Iterate(ops, params, body, end).Back?
    decreases Distance(plan, vals)
  {
    hide Accepted, Iterate, AtBound, SameOutcome, Transition, ValsTyped, BoundValue, PlanTyped;
    BackEdge(ops, params, body, types, t, plan, vals);
    var next := Iterate(ops, params, body, vals).vals;
    StableState(params, types, plan, vals, next);
    DistanceShrinks(params, types, plan, vals, next);
    TransitionTyped(params, plan, types, vals, next);
    if AtBound(plan, next) {
      NoBackAtBound(ops, params, body, types, t, plan, next);
    } else {
      SameCourse(ops, params, body, types, t, plan, vals, CounterOf(plan, next));
      SameBitsAgain(params, types, plan, next, Iterate(ops, params, body, vals), Iterate(ops, params, body, next));
      StableRun(ops, params, body, types, t, plan, next, fuel - 1);
    }
  }

  lemma TransitionTyped(params: seq<nat>, plan: Plan, types: map<nat, Ty>, vals: seq<Value>, next: seq<Value>)
    requires Transition(params, plan, types, vals, next)
    ensures ValsTyped(params, types, next) && !AtBound(plan, vals) && |next| == |params|
  {
  }

  lemma SameBitsAgain(params: seq<nat>, types: map<nat, Ty>, plan: Plan, next: seq<Value>, p: Outcome, q: Outcome)
    requires PlanTyped(params, types, plan) && SameOutcome(params, plan, true, p, q) && p == Back(next)
    ensures q.Back? && SameBits(plan, next, q.vals)
  {
  }

  lemma PlannerTypes(params: seq<nat>, body: Expr, types: map<nat, Ty>, t: Ty, plan: Plan)
    requires Accepted(params, body, types, t, plan)
    ensures PlanTyped(params, types, plan) && plan.counter < |params|
  {
    AcceptedFacts(params, body, types, t, plan);
  }

  /** The jump lands where the remaining iterations would have ended. */
  lemma SkipStable(ops: Interp, params: seq<nat>, body: Expr, types: map<nat, Ty>, t: Ty, plan: Plan,
      vals: seq<Value>, fuel: nat)
    requires Accepted(params, body, types, t, plan) && ValsTyped(params, types, vals) && PlanTyped(params, types, plan)
    requires |vals| == |params| && plan.counter < |params| && 0 < fuel && fuel >= Distance(plan, vals)
    requires var o := Iterate(ops, params, body, vals);
      o.Back? && SameBits(plan, vals, o.vals) && Transition(params, plan, types, vals, o.vals)
    ensures Loop(ops, params, body, vals, fuel).Done?
    ensures SkipLoop(ops, params, body, plan, vals, fuel) == Loop(ops, params, body, vals, fuel)
  {
    hide *;
    var next := Iterate(ops, params, body, vals).vals;
    StableRun(ops, params, body, types, t, plan, vals, fuel);
    StableState(params, types, plan, vals, next);
    LoopUnfolds(ops, params, body, plan, vals, fuel);
    LoopUnfolds(ops, params, body, plan, next[plan.counter := IntV(BoundValue(plan, vals))], fuel - 1);
    assert Loop(ops, params, body, vals, fuel).Done?;
  }

  /** Skipping preserves meaning: for every planned loop and every arguments, running
      with the jump and running every iteration both finish, with the same value or the
      same trap, as soon as the fuel covers the distance to the bound. */
  lemma {:induction false} SkippingPreservesMeaning(ops: Interp, params: seq<nat>, body: Expr, types: map<nat, Ty>,
      t: Ty, plan: Plan, vals: seq<Value>, fuel: nat)
    requires Accepted(params, body, types, t, plan) && ValsTyped(params, types, vals) && fuel >= Distance(plan, vals)
    requires |vals| == |params|
    ensures plan.counter < |params| && Loop(ops, params, body, vals, fuel).Done?
    ensures SkipLoop(ops, params, body, plan, vals, fuel) == Loop(ops, params, body, vals, fuel)
    decreases fuel
  {
    hide *;
    PlannerTypes(params, body, types, t, plan);
    var o := Iterate(ops, params, body, vals);
    LoopUnfolds(ops, params, body, plan, vals, fuel);
    if o.Back? {
      NextState(ops, params, body, types, t, plan, vals);
      if SameBits(plan, vals, o.vals) {
        SkipStable(ops, params, body, types, t, plan, vals, fuel);
      } else {
        SkippingPreservesMeaning(ops, params, body, types, t, plan, o.vals, fuel - 1);
      }
    }
  }

  lemma NextState(ops: Interp, params: seq<nat>, body: Expr, types: map<nat, Ty>, t: Ty, plan: Plan, vals: seq<Value>)
    requires Accepted(params, body, types, t, plan) && ValsTyped(params, types, vals) && PlanTyped(params, types, plan)
    requires |vals| == |params| && Iterate(ops, params, body, vals).Back?
    ensures var next := Iterate(ops, params, body, vals).vals;
      Transition(params, plan, types, vals, next) && ValsTyped(params, types, next) && |next| == |params|
      && Distance(plan, next) + 1 == Distance(plan, vals)
  {
    hide *;
    var next := Iterate(ops, params, body, vals).vals;
    BackEdge(ops, params, body, types, t, plan, vals);
    DistanceShrinks(params, types, plan, vals, next);
    TransitionTyped(params, plan, types, vals, next);
  }

  lemma LoopUnfolds(ops: Interp, params: seq<nat>, body: Expr, plan: Plan, vals: seq<Value>, fuel: nat)
    requires |vals| == |params| && plan.counter < |params|
    ensures var o := Iterate(ops, params, body, vals);
      if !o.Back? then Loop(ops, params, body, vals, fuel) == Done(o) &&
          SkipLoop(ops, params, body, plan, vals, fuel) == Done(o)
      else |o.vals| == |params| && fuel > 0 ==>
        Loop(ops, params, body, vals, fuel) == Loop(ops, params, body, o.vals, fuel - 1) &&
        SkipLoop(ops, params, body, plan, vals, fuel) ==
          SkipLoop(ops, params, body, plan,
            if SameBits(plan, vals, o.vals) then o.vals[plan.counter := IntV(BoundValue(plan, vals))]
                else o.vals, fuel - 1)
  {
    hide Iterate, SameBits, BoundValue;
  }
}
