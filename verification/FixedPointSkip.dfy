/** Why a planned loop whose float state repeats may jump its counter to the bound. */
module FixedPointSkip {
  import opened Machine
  import opened Primitives
  import opened Core
  import opened FixedPointPlan

  // ----- well-typed scalar bodies -----

  /** Type checking, for the constructs the scanner admits. A back-edge appears only in
      tail position, with operands of the parameter types. */
  ghost predicate Typed(e: Expr, types: map<nat, Ty>, scope: set<nat>, params: seq<nat>, tail: bool, t: Ty)
    decreases e
  {
    match e
    case Local(x) => x in scope && HasType(types, x, t)
    case Lit(lit) => LitType(lit) == t
    case Error => true
    case Let(x, value, body) =>
      && x in types && Typed(value, types, scope, params, false, types[x])
      && Typed(body, types, scope + {x}, params, tail, t)
    case If(cond, thn, els) =>
      && Typed(cond, types, scope, params, false, TBool)
      && Typed(thn, types, scope, params, tail, t) && Typed(els, types, scope, params, tail, t)
    case Prim(op, args) =>
      Numeric(op) && exists ts :: TypedArgs(args, types, scope, params, ts) && NumericType(op, ts) == Some(t)
    case Recur(args) =>
      && tail && |args| == |params| && (forall i :: 0 <= i < |params| ==> params[i] in types)
      && TypedArgs(args, types, scope, params, seq(|args|, i requires 0 <= i < |args| => types[params[i]]))
    case Dup(_, body) => Typed(body, types, scope, params, tail, t)
    case Drop(_, body) => Typed(body, types, scope, params, tail, t)
    case _ => false
  }

  ghost predicate TypedArgs(args: seq<Expr>, types: map<nat, Ty>, scope: set<nat>, params: seq<nat>, ts: seq<Ty>)
    decreases args
  {
    |ts| == |args| && forall i :: 0 <= i < |args| ==> Typed(args[i], types, scope, params, false, ts[i])
  }

  ghost predicate EnvTyped(env: Env, types: map<nat, Ty>, scope: set<nat>) {
    env.Keys == scope && forall x :: x in env ==> HasType(types, x, TypeOf(env[x]))
  }

  ghost predicate OutcomeTyped(o: Outcome, types: map<nat, Ty>, params: seq<nat>, tail: bool, t: Ty) {
    match o
    case Ret(v) => TypeOf(v) == t
    case Back(vals) =>
      tail && |vals| == |params| && forall i :: 0 <= i < |vals| ==> HasType(types, params[i], TypeOf(vals[i]))
    case Trap => true
    case Stuck => false
  }

  lemma NumericTyped(ops: Interp, op: Prim, vals: seq<Value>, t: Ty)
    requires NumericType(op, Types(vals)) == Some(t)
    ensures var o := ApplyNumeric(ops, op, vals); o == Trap || (o.Ret? && TypeOf(o.v) == t)
    ensures op != IntDiv && op != IntRem ==> ApplyNumeric(ops, op, vals) != Trap
  {
  }

  lemma {:induction false} TypeSafe(ops: Interp, e: Expr, types: map<nat, Ty>, params: seq<nat>, tail: bool, t: Ty,
      env: Env)
    requires Typed(e, types, env.Keys, params, tail, t) && EnvTyped(env, types, env.Keys)
    ensures OutcomeTyped(Eval(ops, e, env), types, params, tail, t)
    decreases e, 0
  {
    match e
    case Let(x, value, body) =>
      TypeSafe(ops, value, types, params, false, types[x], env);
      var v := Eval(ops, value, env);
      if v.Ret? {
        assert env[x := v.v].Keys == env.Keys + {x};
        TypeSafe(ops, body, types, params, tail, t, env[x := v.v]);
      }
    case If(cond, thn, els) =>
      TypeSafe(ops, cond, types, params, false, TBool, env);
      TypeSafe(ops, thn, types, params, tail, t, env);
      TypeSafe(ops, els, types, params, tail, t, env);
    case Prim(op, args) =>
      var ts :| TypedArgs(args, types, env.Keys, params, ts) && NumericType(op, ts) == Some(t);
      TypeSafeArgs(ops, args, types, params, ts, env);
      var r := EvalArgs(ops, args, env);
      if r.Vals? {
        assert Types(r.vals) == ts;
        NumericTyped(ops, op, r.vals, t);
      }
    case Recur(args) =>
      var ts := seq(|args|, i requires 0 <= i < |args| => types[params[i]]);
      TypeSafeArgs(ops, args, types, params, ts, env);
    case Dup(_, body) => TypeSafe(ops, body, types, params, tail, t, env);
    case Drop(_, body) => TypeSafe(ops, body, types, params, tail, t, env);
    case _ =>
  }

  lemma {:induction false} TypeSafeArgs(ops: Interp, args: seq<Expr>, types: map<nat, Ty>, params: seq<nat>,
      ts: seq<Ty>, env: Env)
    requires TypedArgs(args, types, env.Keys, params, ts) && EnvTyped(env, types, env.Keys)
    ensures var r := EvalArgs(ops, args, env);
      r == Stop(Trap) || (r.Vals? && forall i :: 0 <= i < |args| ==> TypeOf(r.vals[i]) == ts[i])
    decreases args, 1
  {
    if args != [] {
      TypeSafe(ops, args[0], types, params, false, ts[0], env);
      assert TypedArgs(args[1..], types, env.Keys, params, ts[1..]) by {
        forall i | 0 <= i < |args[1..]| ensures Typed(args[1..][i], types, env.Keys, params, false, ts[1..][i]) {
          assert args[1..][i] == args[i + 1] && ts[1..][i] == ts[i + 1];
        }
      }
      TypeSafeArgs(ops, args[1..], types, params, ts[1..], env);
    }
  }

  // ----- resolving definitions -----

  /** Following definitions does not change what a term evaluates to. */
  lemma {:induction false} ResolveSame(ops: Interp, e: Expr, defs: Defs, fuel: nat, env: Env)
    requires DefsHold(ops, defs, env) && Eval(ops, e, env) != Stuck
    ensures Eval(ops, Resolve(e, defs, fuel), env) == Eval(ops, e, env)
    decreases fuel
  {
    if fuel > 0 {
      match e
      case Local(id) => if id in defs { ResolveSame(ops, defs[id], defs, fuel - 1, env); }
      case Dup(_, body) => ResolveSame(ops, body, defs, fuel - 1, env);
      case Drop(_, body) => ResolveSame(ops, body, defs, fuel - 1, env);
      case _ =>
    }
  }

  // ----- what the scanner's walk touches -----

  /** Only the locals in `bound` gained or changed an entry. */
  ghost predicate Framed(st: ScanState, st2: ScanState, bound: set<nat>) {
    && (forall x :: x in st.deps ==> x in st2.deps)
    && (forall x :: x in st2.deps && x !in bound ==> x in st.deps && st2.deps[x] == st.deps[x])
    && (forall x :: x in st2.defs && x !in bound ==> x in st.defs && st2.defs[x] == st.defs[x])
  }

  lemma FramedTrans(a: ScanState, b: ScanState, c: ScanState, p: set<nat>, q: set<nat>)
    requires Framed(a, b, p) && Framed(b, c, q)
    ensures Framed(a, c, p + q)
  {
  }

  lemma BudgetFramed(st: ScanState)
    requires st.budget > 0
    ensures Framed(st.(budget := st.budget - 1), st.(budget := st.budget - 1), {})
  {
  }

  /** A budget spent or a back-edge counted is no part of the frame. */
  lemma BudgetTrans(st: ScanState, st2: ScanState, bound: set<nat>)
    requires st.budget > 0 && Framed(st.(budget := st.budget - 1), st2, bound)
    ensures Framed(st, st2, bound)
  {
  }

  lemma {:induction false} LetFramed(params: seq<nat>, plan: Plan, st: ScanState, e: Expr, tail: bool)
    requires e.Let? && Walk(params, plan, st, e.value, false).Accepted?
    requires var w := Walk(params, plan, st, e.value, false);
      Walk(params, plan, Recorded(w.st, w.dep, e.local, e.value), e.body, tail).Accepted?
    ensures var w := Walk(params, plan, st, e.value, false);
      Framed(st, Walk(params, plan, Recorded(w.st, w.dep, e.local, e.value), e.body, tail).st, Binders(e))
    decreases e, 0, 0
  {
    hide Walk, Framed, Recorded;
    var w := Walk(params, plan, st, e.value, false);
    var st1 := Recorded(w.st, w.dep, e.local, e.value);
    WalkFramed(params, plan, st, e.value, false);
    RecordedFramed(st, w.st, w.dep, e.local, e.value, Binders(e.value));
    WalkFramed(params, plan, st1, e.body, tail);
    FramedTrans(st, st1, Walk(params, plan, st1, e.body, tail).st, Binders(e.value) + {e.local}, Binders(e.body));
    assert Binders(e) == Binders(e.value) + {e.local} + Binders(e.body);
  }

  lemma RecordedFramed(st: ScanState, st1: ScanState, dep: bool, local: nat, value: Expr, bound: set<nat>)
    requires Framed(st, st1, bound)
    ensures Framed(st, Recorded(st1, dep, local, value), bound + {local})
  {
  }

  lemma {:induction false} IfFramed(params: seq<nat>, plan: Plan, st: ScanState, e: Expr, tail: bool)
    requires e.If? && Walk(params, plan, st, e.cond, false).Accepted?
    requires var st1 := Walk(params, plan, st, e.cond, false).st;
      Walk(params, plan, st1, e.thn, tail).Accepted? &&
      Walk(params, plan, Walk(params, plan, st1, e.thn, tail).st, e.els, tail).Accepted?
    ensures var st2 := Walk(params, plan, Walk(params, plan, st, e.cond, false).st, e.thn, tail).st;
      Framed(st, Walk(params, plan, st2, e.els, tail).st, Binders(e))
    decreases e, 0, 0
  {
    hide Walk, Framed;
    var st1 := Walk(params, plan, st, e.cond, false).st;
    var st2 := Walk(params, plan, st1, e.thn, tail).st;
    WalkFramed(params, plan, st, e.cond, false);
    WalkFramed(params, plan, st1, e.thn, tail);
    WalkFramed(params, plan, st2, e.els, tail);
    FramedTrans(st, st1, st2, Binders(e.cond), Binders(e.thn));
    FramedTrans(st, st2, Walk(params, plan, st2, e.els, tail).st, Binders(e.cond) + Binders(e.thn), Binders(e.els));
  }

  lemma {:induction false} RecurFramed(params: seq<nat>, plan: Plan, st: ScanState, e: Expr)
    requires e.Recur? && |e.args| == |params| && WalkNext(params, plan, st, e, 0).Accepted?
    ensures var w := WalkNext(params, plan, st, e, 0); Framed(st, w.st.(recurs := w.st.recurs + 1), Binders(e))
    decreases e, 0, |e.args| + 1
  {
    hide Walk, WalkNext;
    WalkNextFramed(params, plan, st, e, 0);
    assert e.args[0..] == e.args;
  }

  lemma {:induction false} WalkFramed(params: seq<nat>, plan: Plan, st: ScanState, e: Expr, tail: bool)
    requires Walk(params, plan, st, e, tail).Accepted?
    ensures Framed(st, Walk(params, plan, st, e, tail).st, Binders(e))
    decreases e, 1, 0
  {
    hide Framed, ApplyNumeric, Numeric;
    var st0 := st.(budget := st.budget - 1);
    BudgetFramed(st);
    match e {
      case Let(_, _, _) => LetFramed(params, plan, st0, e, tail);
      case If(_, _, _) => IfFramed(params, plan, st0, e, tail);
      case Prim(_, args) => WalkArgsFramed(params, plan, st0, args);
      case Dup(_, body) => WalkFramed(params, plan, st0, body, tail);
      case Drop(_, body) => WalkFramed(params, plan, st0, body, tail);
      case Recur(args) => RecurFramed(params, plan, st0, e);
      case _ =>
    }
    BudgetTrans(st, Walk(params, plan, st, e, tail).st, Binders(e));
  }

  lemma {:induction false} WalkArgsFramed(params: seq<nat>, plan: Plan, st: ScanState, args: seq<Expr>)
    requires WalkArgs(params, plan, st, args).Accepted?
    ensures Framed(st, WalkArgs(params, plan, st, args).st, BindersIn(args))
    decreases args, 2, 0
  {
    if args != [] {
      WalkFramed(params, plan, st, args[0], false);
      var st1 := Walk(params, plan, st, args[0], false).st;
      WalkArgsFramed(params, plan, st1, args[1..]);
      FramedTrans(st, st1, WalkArgs(params, plan, st1, args[1..]).st, Binders(args[0]), BindersIn(args[1..]));
    }
  }

  lemma {:induction false} WalkNextFramed(params: seq<nat>, plan: Plan, st: ScanState, e: Expr, i: nat)
    requires e.Recur? && |e.args| == |params| && i <= |e.args|
    requires WalkNext(params, plan, st, e, i).Accepted?
    ensures Framed(st, WalkNext(params, plan, st, e, i).st, BindersIn(e.args[i..]))
    decreases e, 0, |e.args| - i
  {
    if i < |e.args| {
      assert e.args[i..][0] == e.args[i] && e.args[i..][1..] == e.args[i + 1..];
      if i != plan.counter && i in plan.floats {
        WalkFramed(params, plan, st, e.args[i], false);
        var st1 := Walk(params, plan, st, e.args[i], false).st;
        WalkNextFramed(params, plan, st1, e, i + 1);
        FramedTrans(st, st1, WalkNext(params, plan, st1, e, i + 1).st, Binders(e.args[i]), BindersIn(e.args[i + 1..]));
      } else {
        WalkNextFramed(params, plan, st, e, i + 1);
      }
    }
  }

  // ----- one environment: what the scanner's tables mean -----

  /** Everything in scope has been scanned, and recorded definitions hold. */
  ghost predicate Known(ops: Interp, st: ScanState, env: Env) {
    (forall x :: x in env ==> x in st.deps) && DefsHold(ops, st.defs, env)
  }

  lemma KnownFramed(ops: Interp, st: ScanState, st2: ScanState, bound: set<nat>, env: Env)
    requires Known(ops, st, env) && Framed(st, st2, bound) && bound !! st.deps.Keys
    ensures Known(ops, st2, env)
  {
  }

  lemma KnownBind(ops: Interp, st: ScanState, local: nat, value: Expr, dep: bool, env: Env, v: Value)
    requires Known(ops, st, env) && local !in env && Eval(ops, value, env) == Ret(v)
    ensures Known(ops, Recorded(st, dep, local, value), env[local := v])
  {
    BindDefinition(ops, st.defs, env, local, value, v);
  }

  function StepOf(plan: Plan): int {
    if plan.descending then -1 else 1
  }

  /** The counter moved by one, wrapping, and nothing but floats changed besides. */
  ghost predicate Steps(params: seq<nat>, plan: Plan, env: Env, vals: seq<Value>) {
    && |vals| == |params| && plan.counter < |params|
    && (forall i :: 0 <= i < |params| ==> params[i] in env)
    && env[params[plan.counter]].IntV?
    && vals[plan.counter] == IntV(Wrap(env[params[plan.counter]].n + StepOf(plan)))
    && forall i :: 0 <= i < |params| && i != plan.counter && i !in plan.floats ==> vals[i] == env[params[i]]
  }

  ghost predicate HasParams(params: seq<nat>, plan: Plan, st: ScanState, env: Env) {
    && plan.counter < |params|
    && (forall i :: 0 <= i < |params| ==> params[i] in env && params[i] in st.deps)
    && env[params[plan.counter]].IntV?
  }

  lemma CounterValue(ops: Interp, params: seq<nat>, plan: Plan, defs: Defs, arg: Expr, env: Env)
    requires plan.counter < |params| && params[plan.counter] in env && env[params[plan.counter]].IntV?
    requires CounterSteps(params, plan, defs, arg) && DefsHold(ops, defs, env) && Eval(ops, arg, env) != Stuck
    ensures Eval(ops, arg, env) == Ret(IntV(Wrap(env[params[plan.counter]].n + StepOf(plan))))
  {
    ResolveSame(ops, arg, defs, RESOLVE_STEPS, env);
    var count := Resolve(arg, defs, RESOLVE_STEPS);
    ArgsPointwise(ops, count.args, env);
    var r := EvalArgs(ops, count.args, env);
    TwoArgs(ops, count.args, env);
    ResolveSame(ops, count.args[0], defs, RESOLVE_STEPS, env);
    if Eval(ops, count.args[1], env) != Stuck {
      ResolveSame(ops, count.args[1], defs, RESOLVE_STEPS, env);
    }
  }

  lemma TwoArgs(ops: Interp, args: seq<Expr>, env: Env)
    requires |args| == 2 && EvalArgs(ops, args, env) != Stop(Stuck)
    ensures Eval(ops, args[0], env) != Stuck
    ensures Eval(ops, args[0], env).Ret? ==> Eval(ops, args[1], env) != Stuck
    ensures Eval(ops, args[0], env).Ret? && Eval(ops, args[1], env).Ret? ==>
      EvalArgs(ops, args, env) == Vals([Eval(ops, args[0], env).v, Eval(ops, args[1], env).v])
  {
    assert args[1..][0] == args[1] && args[1..][1..] == [];
    assert EvalArgs(ops, args[1..][1..], env) == Vals([]);
  }

  lemma BudgetKnown(ops: Interp, params: seq<nat>, plan: Plan, st: ScanState, env: Env)
    requires Known(ops, st, env) && HasParams(params, plan, st, env) && st.budget > 0
    ensures var st0 := st.(budget := st.budget - 1); Known(ops, st0, env) && HasParams(params, plan, st0, env)
  {
    hide DefsHold;
  }

  lemma HasParamsKept(params: seq<nat>, plan: Plan, st: ScanState, st2: ScanState, env: Env)
    requires HasParams(params, plan, st, env) && forall x :: x in st.deps ==> x in st2.deps
    ensures HasParams(params, plan, st2, env)
  {
  }

  lemma {:induction false} BackStepsIf(ops: Interp, params: seq<nat>, plan: Plan, st: ScanState, e: Expr,
      tail: bool, env: Env)
    requires e.If? && Walk(params, plan, st, e.cond, false).Accepted?
    requires var st1 := Walk(params, plan, st, e.cond, false).st;
      Walk(params, plan, st1, e.thn, tail).Accepted? &&
      Walk(params, plan, Walk(params, plan, st1, e.thn, tail).st, e.els, tail).Accepted?
    requires Eval(ops, e, env).Back? && Known(ops, st, env) && HasParams(params, plan, st, env)
    requires BoundOnce(e) && Binders(e) !! st.deps.Keys
    ensures Steps(params, plan, env, Eval(ops, e, env).vals)
    decreases e, 0
  {
    hide Known, Steps, HasParams, Walk;
    var st1 := Walk(params, plan, st, e.cond, false).st;
    var st2 := Walk(params, plan, st1, e.thn, tail).st;
    KnownBranches(ops, params, plan, st, e.cond, e.thn, tail, env);
    HasParamsKept(params, plan, st, st1, env);
    HasParamsKept(params, plan, st, st2, env);
    if Eval(ops, e.cond, env).v.b {
      BackSteps(ops, params, plan, st1, e.thn, tail, env);
    } else {
      BackSteps(ops, params, plan, st2, e.els, tail, env);
    }
  }

  /** Every accepted back-edge steps the counter by one. */
  lemma {:induction false} BackSteps(ops: Interp, params: seq<nat>, plan: Plan, st: ScanState, e: Expr, tail: bool,
      env: Env)
    requires Walk(params, plan, st, e, tail).Accepted? && Eval(ops, e, env).Back?
    requires Known(ops, st, env) && HasParams(params, plan, st, env) && BoundOnce(e) && Binders(e) !! st.deps.Keys
    ensures Steps(params, plan, env, Eval(ops, e, env).vals)
    decreases e, 1
  {
    hide Known, Steps, HasParams, ApplyNumeric, Numeric;
    var st0 := st.(budget := st.budget - 1);
    BudgetKnown(ops, params, plan, st, env);
    match e
    case Let(_, _, _) => BackStepsLet(ops, params, plan, st0, e, tail, env);
    case If(_, _, _) => BackStepsIf(ops, params, plan, st0, e, tail, env);
    case Dup(_, body) => BackSteps(ops, params, plan, st0, body, tail, env);
    case Drop(_, body) => BackSteps(ops, params, plan, st0, body, tail, env);
    case Recur(args) => BackStepsRecur(ops, params, plan, st0, e, env);
    case Prim(op, args) => NumericNeverBack(ops, op, args, env);
    case _ =>
  }

  lemma {:induction false} BackStepsLet(ops: Interp, params: seq<nat>, plan: Plan, st: ScanState, e: Expr,
      tail: bool, env: Env)
    requires e.Let? && Walk(params, plan, st, e.value, false).Accepted?
    requires var w := Walk(params, plan, st, e.value, false);
      Walk(params, plan, Recorded(w.st, w.dep, e.local, e.value), e.body,
        tail).Accepted?
    requires Eval(ops, e, env).Back? && Known(ops, st, env) && HasParams(params, plan, st, env) && BoundOnce(e) &&
      Binders(e) !! st.deps.Keys
    ensures Steps(params, plan, env, Eval(ops, e, env).vals)
    decreases e, 0
  {
    var w := Walk(params, plan, st, e.value, false);
    var v := Eval(ops, e.value, env).v;
    WalkFramed(params, plan, st, e.value, false);
    KnownFramed(ops, st, w.st, Binders(e.value), env);
    KnownBind(ops, w.st, e.local, e.value, w.dep, env, v);
    hide Known, Walk;
    BackSteps(ops, params, plan, Recorded(w.st, w.dep, e.local, e.value),
      e.body, tail, env[e.local := v]);
  }

  lemma BackStepsRecur(ops: Interp, params: seq<nat>, plan: Plan, st: ScanState, e: Expr, env: Env)
    requires e.Recur? && |e.args| == |params| && plan.counter < |params| && Eval(ops, e, env).Back?
    requires CounterSteps(params, plan, st.defs, e.args[plan.counter]) && WalkNext(params, plan, st, e, 0).Accepted?
    requires Known(ops, st, env) && HasParams(params, plan, st, env) && BoundOnce(e) && Binders(e) !! st.deps.Keys
    ensures Steps(params, plan, env, Eval(ops, e, env).vals)
  {
    ArgsPointwise(ops, e.args, env);
    CounterValue(ops, params, plan, st.defs, e.args[plan.counter], env);
    assert e.args[0..] == e.args;
    NextUnchanged(ops, params, plan, st, e, 0, env);
  }

  lemma KnownBranches(ops: Interp, params: seq<nat>, plan: Plan, st: ScanState, cond: Expr, thn: Expr, tail: bool,
      env: Env)
    requires Walk(params, plan, st, cond, false).Accepted? && Known(ops, st, env)
    requires Walk(params, plan, Walk(params, plan, st, cond, false).st, thn, tail).Accepted?
    requires BoundOnce(cond) && BoundOnce(thn) && Binders(cond) !! Binders(thn)
    requires Binders(cond) !! st.deps.Keys && Binders(thn) !! st.deps.Keys
    ensures var st1 := Walk(params, plan, st, cond, false).st;
      var st2 := Walk(params, plan, st1, thn, tail).st;
      && Known(ops, st1, env) && Known(ops, st2, env)
      && (forall x :: x in st.deps ==> x in st1.deps && x in st2.deps)
      && (forall x :: x in st1.deps ==> x in st.deps || x in Binders(cond))
      && (forall x :: x in st2.deps ==> x in st1.deps || x in Binders(thn))
  {
    var st1 := Walk(params, plan, st, cond, false).st;
    var st2 := Walk(params, plan, st1, thn, tail).st;
    WalkFramed(params, plan, st, cond, false);
    WalkFramed(params, plan, st1, thn, tail);
    hide Walk;
    KnownFramed(ops, st, st1, Binders(cond), env);
    KnownFramed(ops, st1, st2, Binders(thn), env);
  }

  lemma NumericNeverBack(ops: Interp, op: Prim, args: seq<Expr>, env: Env)
    requires Numeric(op)
    ensures !Eval(ops, Prim(op, args), env).Back?
  {
  }

  lemma {:induction false} NextUnchanged(ops: Interp, params: seq<nat>, plan: Plan, st: ScanState, e: Expr, i: nat,
      env: Env)
    requires e.Recur? && |e.args| == |params| && i <= |e.args| && WalkNext(params, plan, st, e, i).Accepted?
    requires Known(ops, st, env) && HasParams(params, plan, st, env)
    requires BoundOnceIn(e.args[i..]) && BindersIn(e.args[i..]) !! st.deps.Keys
    requires forall j :: 0 <= j < |e.args| ==> Eval(ops, e.args[j], env).Ret?
    ensures forall j :: i <= j < |params| && j != plan.counter && j !in plan.floats ==>
      Eval(ops, e.args[j], env) == Ret(env[params[j]])
    decreases |e.args| - i
  {
    if i < |e.args| {
      assert e.args[i..][0] == e.args[i] && e.args[i..][1..] == e.args[i + 1..];
      if i != plan.counter && i in plan.floats {
        var st1 := Walk(params, plan, st, e.args[i], false).st;
        WalkFramed(params, plan, st, e.args[i], false);
        KnownFramed(ops, st, st1, Binders(e.args[i]), env);
        NextUnchanged(ops, params, plan, st1, e, i + 1, env);
      } else {
        if i != plan.counter {
          ResolveSame(ops, e.args[i], st.defs, RESOLVE_STEPS, env);
        }
        NextUnchanged(ops, params, plan, st, e, i + 1, env);
      }
    }
  }

  // ----- two environments that differ where the scanner allows it -----

  /** The environments agree on every local the scanner marked counter-independent. */
  ghost predicate Agree(st: ScanState, a: Env, b: Env) {
    a.Keys == b.Keys && forall x :: x in a && x in st.deps && !st.deps[x] ==> a[x] == b[x]
  }

  ghost predicate SameOutcome(params: seq<nat>, plan: Plan, dep: bool, p: Outcome, q: Outcome) {
    match p
    case Trap => q == Trap
    case Ret(v) => q.Ret? && (!dep ==> q.v == v)
    case Back(vals) =>
      q.Back? && |vals| == |params| && |q.vals| == |params| &&
      forall i :: 0 <= i < |params| && i != plan.counter && i in plan.floats ==> vals[i] == q.vals[i]
    case Stuck => false
  }

  /** The hypotheses every step of the comparison carries along. */
  ghost predicate Comparable(ops: Interp, params: seq<nat>, plan: Plan, types: map<nat, Ty>, st: ScanState, a: Env,
      b: Env)
  {
    && EnvTyped(a, types, a.Keys) && EnvTyped(b, types, b.Keys)
    && Known(ops, st, a) && Known(ops, st, b)
    && HasParams(params, plan, st, a) && HasParams(params, plan, st, b)
    && Agree(st, a, b)
  }

  lemma ComparableFramed(ops: Interp, params: seq<nat>, plan: Plan, types: map<nat, Ty>, st: ScanState,
      st2: ScanState, bound: set<nat>, a: Env, b: Env)
    requires Comparable(ops, params, plan, types, st, a, b) && Framed(st, st2, bound) && bound !! st.deps.Keys
    ensures Comparable(ops, params, plan, types, st2, a, b)
  {
    KnownFramed(ops, st, st2, bound, a);
    KnownFramed(ops, st, st2, bound, b);
  }

  lemma TypedBind(env: Env, types: map<nat, Ty>, local: nat, v: Value)
    requires EnvTyped(env, types, env.Keys) && local !in env && HasType(types, local, TypeOf(v))
    ensures EnvTyped(env[local := v], types, env[local := v].Keys)
  {
  }

  lemma ComparableBind(ops: Interp, params: seq<nat>, plan: Plan, types: map<nat, Ty>, st: ScanState, local: nat,
      value: Expr, dep: bool, a: Env, v: Value, b: Env, w: Value)
    requires Comparable(ops, params, plan, types, st, a, b) && local !in a && local in types
    requires Eval(ops, value, a) == Ret(v) && Eval(ops, value, b) == Ret(w)
    requires TypeOf(v) == types[local] && TypeOf(w) == types[local] && (!dep ==> v == w)
    ensures Comparable(ops, params, plan, types, Recorded(st, dep, local, value),
                       a[local := v], b[local := w])
  {
    hide Known, DefsHold, Eval;
    KnownBind(ops, st, local, value, dep, a, v);
    KnownBind(ops, st, local, value, dep, b, w);
    TypedBind(a, types, local, v);
    TypedBind(b, types, local, w);
  }

  lemma IndependentLeaf(ops: Interp, params: seq<nat>, plan: Plan, types: map<nat, Ty>, t: Ty, st: ScanState,
      e: Expr, tail: bool, a: Env, b: Env)
    requires e.Local? || e.Lit? || e.Error?
    requires Walk(params, plan, st, e, tail).Accepted? && Comparable(ops, params, plan, types, st, a, b)
    requires Typed(e, types, a.Keys, params, tail, t)
    ensures SameOutcome(params, plan, Walk(params, plan, st, e, tail).dep, Eval(ops, e, a), Eval(ops, e, b))
  {
    hide Known, DefsHold, HasParams;
  }

  lemma ComparableTyped(ops: Interp, params: seq<nat>, plan: Plan, types: map<nat, Ty>, st: ScanState, a: Env, b: Env)
    requires Comparable(ops, params, plan, types, st, a, b)
    ensures EnvTyped(a, types, a.Keys) && EnvTyped(b, types, b.Keys) && a.Keys == b.Keys
    ensures forall x :: x in a ==> x in st.deps
  {
  }

  /** Two runs of a scanned term trap together, return together and loop together;
      what the scanner marked independent is the same in both. */
  lemma {:induction false} Independent(ops: Interp, params: seq<nat>, plan: Plan, types: map<nat, Ty>, t: Ty,
      st: ScanState, e: Expr, tail: bool, a: Env, b: Env)
    requires Walk(params, plan, st, e, tail).Accepted? && Comparable(ops, params, plan, types, st, a, b)
    requires Typed(e, types, a.Keys, params, tail, t) && BoundOnce(e) && Binders(e) !! st.deps.Keys
    ensures SameOutcome(params, plan, Walk(params, plan, st, e, tail).dep, Eval(ops, e, a), Eval(ops, e, b))
    decreases e, 1, 0
  {
    hide Comparable, SameOutcome, ApplyNumeric, Numeric;
    var st0 := st.(budget := st.budget - 1);
    ComparableBudget(ops, params, plan, types, st, a, b);
    match e
    case Let(_, _, _) => IndependentLet(ops, params, plan, types, t, st0, e, tail, a, b);
    case If(_, _, _) => IndependentIf(ops, params, plan, types, t, st0, e, tail, a, b);
    case Prim(_, _) => IndependentPrim(ops, params, plan, types, t, st0, e, tail, a, b);
    case Dup(_, body) => Independent(ops, params, plan, types, t, st0, body, tail, a, b);
    case Drop(_, body) => Independent(ops, params, plan, types, t, st0, body, tail, a, b);
    case Recur(_) => IndependentRecur(ops, params, plan, types, t, st0, e, tail, a, b);
    case _ => IndependentLeaf(ops, params, plan, types, t, st, e, tail, a, b);
  }

  lemma ComparableBudget(ops: Interp, params: seq<nat>, plan: Plan, types: map<nat, Ty>, st: ScanState, a: Env, b: Env)
    requires Comparable(ops, params, plan, types, st, a, b) && st.budget > 0
    ensures Comparable(ops, params, plan, types, st.(budget := st.budget - 1), a, b)
  {
  }

  lemma {:induction false} IndependentPrim(ops: Interp, params: seq<nat>, plan: Plan, types: map<nat, Ty>, t: Ty,
      st: ScanState, e: Expr, tail: bool, a: Env, b: Env)
    requires e.Prim? && Numeric(e.op) && Comparable(ops, params, plan, types, st, a, b)
    requires WalkArgs(params, plan, st, e.args).Accepted?
    requires !(WalkArgs(params, plan, st, e.args).dep && (e.op == IntDiv || e.op == IntRem))
    requires Typed(e, types, a.Keys, params, tail, t) && BoundOnce(e) && Binders(e) !! st.deps.Keys
    ensures SameOutcome(params, plan, WalkArgs(params, plan, st, e.args).dep, Eval(ops, e, a), Eval(ops, e, b))
    decreases e, 0, 0
  {
    var ts :| TypedArgs(e.args, types, a.Keys, params, ts) && NumericType(e.op, ts) == Some(t);
    hide Comparable, Typed, SameOutcome;
    IndependentArgs(ops, params, plan, types, ts, st, e.args, a, b);
    IndependentNumeric(ops, params, plan, e.op, t, WalkArgs(params, plan, st, e.args).dep,
                       EvalArgs(ops, e.args, a), EvalArgs(ops, e.args, b), ts);
  }

  lemma {:induction false} IndependentRecur(ops: Interp, params: seq<nat>, plan: Plan, types: map<nat, Ty>, t: Ty,
      st: ScanState, e: Expr, tail: bool, a: Env, b: Env)
    requires e.Recur? && |e.args| == |params| && plan.counter < |params| &&
      Comparable(ops, params, plan, types, st, a, b)
    requires CounterSteps(params, plan, st.defs, e.args[plan.counter]) && WalkNext(params, plan, st, e, 0).Accepted?
    requires Typed(e, types, a.Keys, params, tail, t) && BoundOnce(e) && Binders(e) !! st.deps.Keys
    ensures SameOutcome(params, plan, false, Eval(ops, e, a), Eval(ops, e, b))
    decreases e, 0, 2 * |e.args| + 1
  {
    assert e.args[0..] == e.args;
    IndependentNext(ops, params, plan, types, st, st, e, 0, a, b);
  }

  lemma IndependentNumeric(ops: Interp, params: seq<nat>, plan: Plan, op: Prim, t: Ty, dep: bool, p: ArgsOutcome,
      q: ArgsOutcome, ts: seq<Ty>)
    requires Numeric(op) && NumericType(op, ts) == Some(t) && SameArgs(dep, p, q, ts)
    requires !(dep && (op == IntDiv || op == IntRem))
    ensures SameOutcome(params, plan, dep, if p.Stop? then p.o else ApplyNumeric(ops, op, p.vals),
                        if q.Stop? then q.o else ApplyNumeric(ops, op, q.vals))
  {
    if p.Vals? {
      assert Types(p.vals) == ts && Types(q.vals) == ts;
      NumericTyped(ops, op, p.vals, t);
      NumericTyped(ops, op, q.vals, t);
    }
  }

  /** Both operand lists trap, or both have typed values, equal when independent. */
  ghost predicate SameArgs(dep: bool, p: ArgsOutcome, q: ArgsOutcome, ts: seq<Ty>) {
    || (p == Stop(Trap) && q == Stop(Trap))
    || (p.Vals? && q.Vals? && |p.vals| == |ts| && |q.vals| == |ts|
        && (forall i :: 0 <= i < |ts| ==> TypeOf(p.vals[i]) == ts[i] && TypeOf(q.vals[i]) == ts[i])
        && (!dep ==> p.vals == q.vals))
  }

  lemma {:induction false} IndependentArgs(ops: Interp, params: seq<nat>, plan: Plan, types: map<nat, Ty>,
      ts: seq<Ty>, st: ScanState, args: seq<Expr>, a: Env, b: Env)
    requires WalkArgs(params, plan, st, args).Accepted? && Comparable(ops, params, plan, types, st, a, b)
    requires TypedArgs(args, types, a.Keys, params, ts) && BoundOnceIn(args) && BindersIn(args) !! st.deps.Keys
    ensures SameArgs(WalkArgs(params, plan, st, args).dep, EvalArgs(ops, args, a), EvalArgs(ops, args, b), ts)
    decreases args, 2, 0
  {
    hide Walk, Typed, Eval, Comparable, EnvTyped, Framed, BoundOnce, Binders;
    if args != [] {
      var w := Walk(params, plan, st, args[0], false);
      ComparableTyped(ops, params, plan, types, st, a, b);
      Independent(ops, params, plan, types, ts[0], st, args[0], false, a, b);
      TypeSafe(ops, args[0], types, params, false, ts[0], a);
      TypeSafe(ops, args[0], types, params, false, ts[0], b);
      ValueFramed(params, plan, st, args[0]);
      ComparableFramed(ops, params, plan, types, st, w.st, Binders(args[0]), a, b);
      TypedTail(args, types, a.Keys, params, ts);
      IndependentArgs(ops, params, plan, types, ts[1..], w.st, args[1..], a, b);
      assert ts == [ts[0]] + ts[1..];
    }
  }

  lemma TypedTail(args: seq<Expr>, types: map<nat, Ty>, scope: set<nat>, params: seq<nat>, ts: seq<Ty>)
    requires TypedArgs(args, types, scope, params, ts) && args != []
    ensures TypedArgs(args[1..], types, scope, params, ts[1..])
  {
    forall i | 0 <= i < |args[1..]| ensures Typed(args[1..][i], types, scope, params, false, ts[1..][i]) {
      assert args[1..][i] == args[i + 1] && ts[1..][i] == ts[i + 1];
    }
  }

  lemma ValueFramed(params: seq<nat>, plan: Plan, st: ScanState, value: Expr)
    requires Walk(params, plan, st, value, false).Accepted?
    ensures var st1 := Walk(params, plan, st, value, false).st;
      Framed(st, st1, Binders(value)) && forall x :: x in st1.deps ==> x in st.deps || x in Binders(value)
  {
    hide Walk;
    WalkFramed(params, plan, st, value, false);
  }

  lemma {:induction false} IndependentLet(ops: Interp, params: seq<nat>, plan: Plan, types: map<nat, Ty>, t: Ty,
      st: ScanState, e: Expr, tail: bool, a: Env, b: Env)
    requires e.Let? && Comparable(ops, params, plan, types, st, a, b)
    requires Walk(params, plan, st, e.value, false).Accepted?
    requires var w := Walk(params, plan, st, e.value, false);
      Walk(params, plan, Recorded(w.st, w.dep, e.local, e.value), e.body,
        tail).Accepted?
    requires Typed(e, types, a.Keys, params, tail, t) && BoundOnce(e) && Binders(e) !! st.deps.Keys
    ensures var w := Walk(params, plan, st, e.value, false);
      SameOutcome(params, plan,
        Walk(params, plan, Recorded(w.st, w.dep, e.local, e.value), e.body,
          tail).dep,
        Eval(ops, e, a), Eval(ops, e, b))
    decreases e, 0, 0
  {
    hide Walk, Comparable, EnvTyped, Framed;
    var w := Walk(params, plan, st, e.value, false);
    ComparableTyped(ops, params, plan, types, st, a, b);
    Independent(ops, params, plan, types, types[e.local], st, e.value, false, a, b);
    TypeSafe(ops, e.value, types, params, false, types[e.local], a);
    TypeSafe(ops, e.value, types, params, false, types[e.local], b);
    var p, q := Eval(ops, e.value, a), Eval(ops, e.value, b);
    if p.Ret? {
      ValueFramed(params, plan, st, e.value);
      ComparableFramed(ops, params, plan, types, st, w.st, Binders(e.value), a, b);
      ComparableBind(ops, params, plan, types, w.st, e.local, e.value, w.dep, a, p.v, b, q.v);
      assert a[e.local := p.v].Keys == a.Keys + {e.local};
      Independent(ops, params, plan, types, t, Recorded(w.st, w.dep, e.local, e.value), e.body, tail,
        a[e.local := p.v], b[e.local := q.v]);
    }
  }

  lemma BranchesFramed(params: seq<nat>, plan: Plan, st: ScanState, cond: Expr, thn: Expr, tail: bool)
    requires Walk(params, plan, st, cond, false).Accepted?
    requires Walk(params, plan, Walk(params, plan, st, cond, false).st, thn, tail).Accepted?
    ensures var st1 := Walk(params, plan, st, cond, false).st;
      var st2 := Walk(params, plan, st1, thn, tail).st;
      && Framed(st, st1, Binders(cond)) && Framed(st1, st2, Binders(thn))
      && (forall x :: x in st1.deps ==> x in st.deps || x in Binders(cond))
      && (forall x :: x in st2.deps ==> x in st1.deps || x in Binders(thn))
  {
    hide Walk;
    var st1 := Walk(params, plan, st, cond, false).st;
    WalkFramed(params, plan, st, cond, false);
    WalkFramed(params, plan, st1, thn, tail);
  }

  lemma IfParts(e: Expr, types: map<nat, Ty>, scope: set<nat>, params: seq<nat>, tail: bool, t: Ty)
    requires e.If? && Typed(e, types, scope, params, tail, t) && BoundOnce(e)
    ensures Typed(e.cond, types, scope, params, false, TBool)
    ensures Typed(e.thn, types, scope, params, tail, t) && Typed(e.els, types, scope, params, tail, t)
    ensures BoundOnce(e.cond) && BoundOnce(e.thn) && BoundOnce(e.els)
    ensures Binders(e) == Binders(e.cond) + Binders(e.thn) + Binders(e.els)
    ensures Binders(e.cond) !! Binders(e.thn) && Binders(e.els) !! Binders(e.cond) + Binders(e.thn)
  {
  }

  lemma IfOutcome(ops: Interp, e: Expr, env: Env)
    requires e.If?
    ensures var c := Eval(ops, e.cond, env);
      Eval(ops, e, env) ==
        if c.Ret? && c.v.BoolV? then Eval(ops, if c.v.b then e.thn else e.els, env)
        else if c == Trap then Trap else Stuck
  {
  }

  lemma {:induction false} IndependentIf(ops: Interp, params: seq<nat>, plan: Plan, types: map<nat, Ty>, t: Ty,
      st: ScanState, e: Expr, tail: bool, a: Env, b: Env)
    requires e.If? && Comparable(ops, params, plan, types, st, a, b)
    requires Walk(params, plan, st, e.cond, false).Accepted? && !Walk(params, plan, st, e.cond, false).dep
    requires var st1 := Walk(params, plan, st, e.cond, false).st;
      Walk(params, plan, st1, e.thn, tail).Accepted? &&
      Walk(params, plan, Walk(params, plan, st1, e.thn, tail).st, e.els, tail).Accepted?
    requires Typed(e, types, a.Keys, params, tail, t) && BoundOnce(e) && Binders(e) !! st.deps.Keys
    ensures var st1 := Walk(params, plan, st, e.cond, false).st;
      var w := Walk(params, plan, st1, e.thn, tail);
      SameOutcome(params, plan, w.dep || Walk(params, plan, w.st, e.els, tail).dep, Eval(ops, e, a), Eval(ops, e, b))
    decreases e, 0, 0
  {
    hide Walk, Comparable, EnvTyped, Framed, Typed, BoundOnce, Binders, Eval;
    var st1 := Walk(params, plan, st, e.cond, false).st;
    var w := Walk(params, plan, st1, e.thn, tail);
    IfParts(e, types, a.Keys, params, tail, t);
    IfOutcome(ops, e, a);
    IfOutcome(ops, e, b);
    ComparableTyped(ops, params, plan, types, st, a, b);
    Independent(ops, params, plan, types, TBool, st, e.cond, false, a, b);
    TypeSafe(ops, e.cond, types, params, false, TBool, a);
    BranchesFramed(params, plan, st, e.cond, e.thn, tail);
    ComparableFramed(ops, params, plan, types, st, st1, Binders(e.cond), a, b);
    ComparableFramed(ops, params, plan, types, st1, w.st, Binders(e.thn), a, b);
    var c := Eval(ops, e.cond, a);
    if c.Ret? {
      if c.v.b {
        Independent(ops, params, plan, types, t, st1, e.thn, tail, a, b);
      } else {
        Independent(ops, params, plan, types, t, w.st, e.els, tail, a, b);
      }
    }
  }

  /** Both operand suffixes trap, or both have values that agree on the float state. */
  ghost predicate SameNext(plan: Plan, i: nat, p: ArgsOutcome, q: ArgsOutcome) {
    || (p == Stop(Trap) && q == Stop(Trap))
    || (p.Vals? && q.Vals? && |p.vals| == |q.vals| &&
        forall j :: 0 <= j < |p.vals| && i + j != plan.counter && i + j in plan.floats ==> p.vals[j] == q.vals[j])
  }

  /** The counter and the unchanged parameters are read without a trap. `origin` is
      the state in which the counter operand was checked. */
  lemma PlainOperand(ops: Interp, params: seq<nat>, plan: Plan, origin: ScanState, st: ScanState, e: Expr, i: nat,
      env: Env)
    requires e.Recur? && |e.args| == |params| && i < |e.args| && HasParams(params, plan, st, env)
    requires CounterSteps(params, plan, origin.defs, e.args[plan.counter])
    requires DefsHold(ops, origin.defs, env) && DefsHold(ops, st.defs, env) && Eval(ops, e.args[i], env) != Stuck
    requires i == plan.counter || Resolve(e.args[i], st.defs, RESOLVE_STEPS) == Local(params[i])
    ensures Eval(ops, e.args[i], env).Ret?
  {
    if i == plan.counter {
      CounterValue(ops, params, plan, origin.defs, e.args[i], env);
    } else {
      ResolveSame(ops, e.args[i], st.defs, RESOLVE_STEPS, env);
    }
  }

  lemma {:induction false} IndependentNext(ops: Interp, params: seq<nat>, plan: Plan, types: map<nat, Ty>,
      origin: ScanState, st: ScanState, e: Expr, i: nat, a: Env, b: Env)
    requires e.Recur? && |e.args| == |params| && i <= |e.args| && WalkNext(params, plan, st, e, i).Accepted?
    requires plan.counter < |params| && CounterSteps(params, plan, origin.defs, e.args[plan.counter])
    requires DefsHold(ops, origin.defs, a) && DefsHold(ops, origin.defs, b)
    requires Comparable(ops, params, plan, types, st, a, b) && Typed(e, types, a.Keys, params, true, TUnit)
    requires BoundOnceIn(e.args[i..]) && BindersIn(e.args[i..]) !! st.deps.Keys
    ensures SameNext(plan, i, EvalArgs(ops, e.args[i..], a), EvalArgs(ops, e.args[i..], b))
    decreases e, 0, 2 * (|e.args| - i)
  {
    hide Walk, Eval, BoundOnce, Binders, DefsHold, CounterSteps, Typed;
    if i < |e.args| {
      assert e.args[i..][0] == e.args[i] && e.args[i..][1..] == e.args[i + 1..];
      NextOperandTyped(ops, types, params, e, i, a);
      NextOperandTyped(ops, types, params, e, i, b);
      if i != plan.counter && i in plan.floats {
        var st1 := Walk(params, plan, st, e.args[i], false).st;
        IndependentFloat(ops, params, plan, types, st, e, i, a, b);
        IndependentNext(ops, params, plan, types, origin, st1, e, i + 1, a, b);
      } else {
        PlainOperand(ops, params, plan, origin, st, e, i, a);
        PlainOperand(ops, params, plan, origin, st, e, i, b);
        IndependentNext(ops, params, plan, types, origin, st, e, i + 1, a, b);
      }
      SameNextCons(ops, plan, e.args, i, a, b);
    }
  }

  /** A float operand is computed alike, and what the scanner knows still holds. */
  lemma {:induction false} IndependentFloat(ops: Interp, params: seq<nat>, plan: Plan, types: map<nat, Ty>,
      st: ScanState, e: Expr, i: nat, a: Env, b: Env)
    requires e.Recur? && |e.args| == |params| && i < |e.args| && i != plan.counter && i in plan.floats
    requires WalkNext(params, plan, st, e, i).Accepted?
    requires Comparable(ops, params, plan, types, st, a, b) && Typed(e, types, a.Keys, params, true, TUnit)
    requires BoundOnceIn(e.args[i..]) && BindersIn(e.args[i..]) !! st.deps.Keys
    ensures var w := Walk(params, plan, st, e.args[i], false);
      && w.Accepted? && WalkNext(params, plan, w.st, e, i + 1).Accepted? &&
        Comparable(ops, params, plan, types, w.st, a, b)
      && BoundOnceIn(e.args[i + 1..]) && BindersIn(e.args[i + 1..]) !! w.st.deps.Keys
    ensures var p, q := Eval(ops, e.args[i], a), Eval(ops, e.args[i], b); (p == Trap && q == Trap) || (p.Ret? && p == q)
    decreases e, 0, 2 * (|e.args| - i) - 1
  {
    assert e.args[i..][0] == e.args[i] && e.args[i..][1..] == e.args[i + 1..];
    var w := Walk(params, plan, st, e.args[i], false);
    NextOperandTyped(ops, types, params, e, i, a);
    hide Typed, DefsHold;
    Independent(ops, params, plan, types, types[params[i]], st, e.args[i], false, a, b);
    WalkFramed(params, plan, st, e.args[i], false);
    ComparableFramed(ops, params, plan, types, st, w.st, Binders(e.args[i]), a, b);
    hide Comparable;
  }

  lemma SameNextCons(ops: Interp, plan: Plan, args: seq<Expr>, i: nat, a: Env, b: Env)
    requires i < |args| && SameNext(plan, i + 1, EvalArgs(ops, args[i + 1..], a), EvalArgs(ops, args[i + 1..], b))
    requires var p, q := Eval(ops, args[i], a), Eval(ops, args[i], b);
      (p == Trap && q == Trap) || (p.Ret? && q.Ret? && (i != plan.counter && i in plan.floats ==> p == q))
    ensures SameNext(plan, i, EvalArgs(ops, args[i..], a), EvalArgs(ops, args[i..], b))
  {
    assert args[i..][0] == args[i] && args[i..][1..] == args[i + 1..];
    var p, q := EvalArgs(ops, args[i..], a), EvalArgs(ops, args[i..], b);
    if p.Vals? && q.Vals? {
      var r, u := EvalArgs(ops, args[i + 1..], a).vals, EvalArgs(ops, args[i + 1..], b).vals;
      forall j | 0 <= j < |p.vals| && i + j != plan.counter && i + j in plan.floats ensures p.vals[j] == q.vals[j] {
        if j > 0 {
          assert p.vals[j] == r[j - 1] && q.vals[j] == u[j - 1] && (i + 1) + (j - 1) == i + j;
        }
      }
    }
  }

  lemma NextOperandTyped(ops: Interp, types: map<nat, Ty>, params: seq<nat>, e: Expr, i: nat, env: Env)
    requires e.Recur? && i < |e.args| && Typed(e, types, env.Keys, params, true, TUnit) &&
      EnvTyped(env, types, env.Keys)
    ensures params[i] in types && Typed(e.args[i], types, env.Keys, params, false, types[params[i]])
    ensures Eval(ops, e.args[i], env).Ret? || Eval(ops, e.args[i], env) == Trap
  {
    TypeSafe(ops, e.args[i], types, params, false, types[params[i]], env);
  }
}
