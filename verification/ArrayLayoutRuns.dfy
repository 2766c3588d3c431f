/** Every iteration keeps the layout of the parameters found invariant. */
module ArrayLayoutRuns {
  import opened Machine
  import opened Core
  import opened CoreLoop
  import opened ArrayLayout

  /** The layout of a value, whatever it is made of. */
  type Layout = Value -> int

  /** Set, put and unique return an array laid out like their first operand. */
  ghost predicate Preserves(ops: Interp, layout: Layout) {
    forall op, vals :: KeepsLayout(op) && vals != [] && ops.node(PrimNode(op), vals).Some? ==>
      layout(ops.node(PrimNode(op), vals).value) == layout(vals[0])
  }

  /** Every recorded local in scope has the layout its parameter had on entry. */
  ghost predicate OriginsHold(layout: Layout, origins: map<nat, nat>, env: Env, entry: Env) {
    forall x :: x in origins && x in env ==> origins[x] in entry && layout(env[x]) == layout(entry[origins[x]])
  }

  lemma {:induction false} OriginSound(ops: Interp, layout: Layout, origins: map<nat, nat>, e: Expr, env: Env,
      entry: Env)
    requires Preserves(ops, layout) && OriginsHold(layout, origins, env, entry)
    requires Origin(origins, e).Some? && Eval(ops, e, env).Ret?
    ensures var p := Origin(origins, e).value; p in entry && layout(Eval(ops, e, env).v) == layout(entry[p])
    decreases e
  {
    match e
    case Prim(op, args) =>
      ArgsPointwise(ops, args, env);
      var vals := EvalArgs(ops, args, env).vals;
      OriginSound(ops, layout, origins, args[0], env, entry);
      assert ops.node(PrimNode(op), vals).Some?;
    case Dup(_, body) => OriginSound(ops, layout, origins, body, env, entry);
    case Drop(_, body) => OriginSound(ops, layout, origins, body, env, entry);
    case Local(_) =>
  }

  /** A scan only loses candidates and validity, and only records locals it binds. */
  ghost predicate Shrinks(st: State, r: State, binders: set<nat>) {
    && (r.valid ==> st.valid) && r.candidates <= st.candidates
    && (forall x :: x in r.origins && x !in binders ==> x in st.origins && r.origins[x] == st.origins[x])
  }

  lemma {:induction false} PassedShrinks(st: State, params: seq<nat>, args: seq<Expr>)
    requires |params| == |args|
    ensures var r := Passed(st, params, args);
      && r.candidates <= st.candidates && r.origins == st.origins && r.valid == st.valid
      && forall i :: 0 <= i < |params| && params[i] in r.candidates ==> Origin(st.origins, args[i]) == Some(params[i])
    decreases |params|
  {
    if params != [] {
      var st1 := if Origin(st.origins, args[0]) == Some(params[0]) then st
          else st.(candidates := st.candidates - {params[0]});
      PassedShrinks(st1, params[1..], args[1..]);
      var r := Passed(st, params, args);
      forall i | 0 <= i < |params| && params[i] in r.candidates ensures Origin(st.origins, args[i]) == Some(params[i]) {
        if i > 0 { assert params[1..][i - 1] == params[i] && args[1..][i - 1] == args[i]; }
      }
    }
  }

  lemma ShrinksThen(a: State, b: State, c: State, s: set<nat>, t: set<nat>)
    requires Shrinks(a, b, s) && Shrinks(b, c, t)
    ensures Shrinks(a, c, s + t)
  {
  }

  lemma ShrinksSelf(st: State, bound: set<nat>)
    ensures Shrinks(st, st, bound) && Shrinks(st, st.(valid := false), bound)
  {
  }

  lemma {:induction false} WalkShrinks(params: seq<nat>, st: State, e: Expr)
    ensures Shrinks(st, Walk(params, st, e), Binders(e))
    decreases e, 2
  {
    hide WalkNode;
    if st.budget > 0 { NodeShrinks(params, st.(budget := st.budget - 1), e); }
  }

  lemma {:induction false} NodeShrinks(params: seq<nat>, st: State, e: Expr)
    ensures Shrinks(st, WalkNode(params, st, e), Binders(e))
    decreases e, 1
  {
    hide Walk, WalkAll, Shrinks, Passed, AfterLet;
    ShrinksSelf(st, Binders(e));
    match e
    case Let(local, value, body) => LetShrinks(params, st, e);
    case If(cond, thn, els) => IfShrinks(params, st, e);
    case Recur(args) => RecurShrinks(params, st, args);
    case Reset(value, _, body) =>
      WalkShrinks(params, st, value);
      WalkShrinks(params, Walk(params, st, value), body);
      ShrinksThen(st, Walk(params, st, value), WalkNode(params, st, e), Binders(value), Binders(body));
    case Prim(_, args) => WalkAllShrinks(params, st, args);
    case Foreign(_, args) => WalkAllShrinks(params, st, args);
    case MakeData(_, args) => WalkAllShrinks(params, st, args);
    case App(func, args) =>
      WalkShrinks(params, st, func);
      WalkAllShrinks(params, Walk(params, st, func), args);
      ShrinksThen(st, Walk(params, st, func), WalkNode(params, st, e), Binders(func), BindersIn(args));
    case DataTag(base) => WalkShrinks(params, st, base);
    case DataField(base, _) => WalkShrinks(params, st, base);
    case Dup(_, body) => WalkShrinks(params, st, body);
    case Drop(_, body) => WalkShrinks(params, st, body);
    case FreeReuse(_, body) => WalkShrinks(params, st, body);
    case _ =>
  }

  lemma {:induction false} LetShrinks(params: seq<nat>, st: State, e: Expr)
    requires e.Let?
    ensures Shrinks(st, WalkNode(params, st, e), Binders(e))
    decreases e, 0
  {
    hide Walk, Origin;
    var st1 := Walk(params, st, e.value);
    WalkShrinks(params, st, e.value);
    WalkShrinks(params, AfterLet(st1, e.local, e.value), e.body);
  }

  lemma {:induction false} IfShrinks(params: seq<nat>, st: State, e: Expr)
    requires e.If?
    ensures Shrinks(st, WalkNode(params, st, e), Binders(e))
    decreases e, 0
  {
    hide Walk;
    var st1 := Walk(params, st, e.cond);
    var st2 := Walk(params, st1, e.thn);
    WalkShrinks(params, st, e.cond);
    WalkShrinks(params, st1, e.thn);
    WalkShrinks(params, st2.(origins := st1.origins), e.els);
  }

  lemma RecurShrinks(params: seq<nat>, st: State, args: seq<Expr>)
    ensures Shrinks(st, WalkNode(params, st, Recur(args)), BindersIn(args))
  {
    hide Passed;
    if |args| == |params| { PassedShrinks(st.(backedge := true), params, args); }
  }

  lemma {:induction false} WalkAllShrinks(params: seq<nat>, st: State, args: seq<Expr>)
    ensures Shrinks(st, WalkAll(params, st, args), BindersIn(args))
    decreases args, 3
  {
    if args != [] {
      WalkShrinks(params, st, args[0]);
      WalkAllShrinks(params, Walk(params, st, args[0]), args[1..]);
    }
  }

  /** What a back-edge hands the final candidates. */
  ghost predicate LayoutsPassed(layout: Layout, params: seq<nat>, candidates: set<nat>, entry: Env, vals: seq<Value>) {
    |vals| == |params| && forall i :: 0 <= i < |params| && params[i] in candidates ==>
      params[i] in entry && layout(vals[i]) == layout(entry[params[i]])
  }

  lemma OriginsFramed(layout: Layout, a: map<nat, nat>, b: map<nat, nat>, env: Env, entry: Env, bound: set<nat>)
    requires OriginsHold(layout, a, env, entry) && bound !! env.Keys
    requires forall x :: x in b && x !in bound ==> x in a && b[x] == a[x]
    ensures OriginsHold(layout, b, env, entry)
  {
  }

  /** What is still trusted at the end was trusted here. */
  ghost predicate Trusted(st: State, last: State) {
    last.valid && st.valid && last.candidates <= st.candidates
  }

  lemma TrustedBefore(st: State, r: State, last: State, bound: set<nat>)
    requires Shrinks(st, r, bound) && Trusted(r, last)
    ensures Trusted(st, last)
  {
  }

  /** Every back-edge of a scanned term passes the candidates that survive the whole scan
      values laid out as their parameters were on entry. */
  lemma {:induction false} BackEdgeKeeps(ops: Interp, layout: Layout, params: seq<nat>, st: State, e: Expr,
      env: Env, entry: Env, last: State)
    requires Preserves(ops, layout) && OriginsHold(layout, st.origins, env, entry)
    requires BoundOnce(e) && Binders(e) !! env.Keys && Eval(ops, e, env).Back? && Trusted(Walk(params, st, e), last)
    ensures LayoutsPassed(layout, params, last.candidates, entry, Eval(ops, e, env).vals)
    decreases e, 1
  {
    hide Preserves, LayoutsPassed, OriginsHold, ApplyNumeric, Numeric, Passed, AfterLet;
    var st0 := st.(budget := st.budget - 1);
    match e
    case Let(_, _, _) => LetBackEdge(ops, layout, params, st0, e, env, entry, last);
    case If(_, _, _) => IfBackEdge(ops, layout, params, st0, e, env, entry, last);
    case Recur(args) => RecurKeeps(ops, layout, params, st0.(backedge := true), args, env, entry, last);
    case Reset(value, _, body) =>
      var st1 := Walk(params, st0, value);
      ValueKeeps(layout, params, st0, value, env, entry);
      BackEdgeKeeps(ops, layout, params, st1, body, env, entry, last);
    case Dup(_, body) => BackEdgeKeeps(ops, layout, params, st0, body, env, entry, last);
    case Drop(_, body) => BackEdgeKeeps(ops, layout, params, st0, body, env, entry, last);
    case FreeReuse(_, body) => BackEdgeKeeps(ops, layout, params, st0, body, env, entry, last);
    case _ =>
  }

  lemma ValueKeeps(layout: Layout, params: seq<nat>, st: State, value: Expr, env: Env, entry: Env)
    requires OriginsHold(layout, st.origins, env, entry) && Binders(value) !! env.Keys
    ensures OriginsHold(layout, Walk(params, st, value).origins, env, entry)
  {
    hide Walk, OriginsHold;
    WalkShrinks(params, st, value);
    OriginsFramed(layout, st.origins, Walk(params, st, value).origins, env, entry, Binders(value));
  }

  lemma {:induction false} LetBackEdge(ops: Interp, layout: Layout, params: seq<nat>, st: State, e: Expr, env: Env,
      entry: Env, last: State)
    requires e.Let? && Preserves(ops, layout) && OriginsHold(layout, st.origins, env, entry)
    requires BoundOnce(e) && Binders(e) !! env.Keys && Eval(ops, e, env).Back?
    requires Trusted(WalkNode(params, st, e), last)
    ensures LayoutsPassed(layout, params, last.candidates, entry, Eval(ops, e, env).vals)
    decreases e, 0
  {
    hide Preserves, LayoutsPassed, OriginsHold, AfterLet, Walk;
    var st1, v := Walk(params, st, e.value), Eval(ops, e.value, env).v;
    ValueKeeps(layout, params, st, e.value, env, entry);
    LetKeeps(ops, layout, st1, e.local, e.value, env, entry);
    BackEdgeKeeps(ops, layout, params, AfterLet(st1, e.local, e.value), e.body, env[e.local := v], entry, last);
  }

  lemma {:induction false} IfBackEdge(ops: Interp, layout: Layout, params: seq<nat>, st: State, e: Expr, env: Env,
      entry: Env, last: State)
    requires e.If? && Preserves(ops, layout) && OriginsHold(layout, st.origins, env, entry)
    requires BoundOnce(e) && Binders(e) !! env.Keys && Eval(ops, e, env).Back?
    requires Trusted(WalkNode(params, st, e), last)
    ensures LayoutsPassed(layout, params, last.candidates, entry, Eval(ops, e, env).vals)
    decreases e, 0
  {
    hide Preserves, LayoutsPassed, OriginsHold, Walk, Shrinks;
    var st1 := Walk(params, st, e.cond);
    var st2 := Walk(params, st1, e.thn).(origins := st1.origins);
    ValueKeeps(layout, params, st, e.cond, env, entry);
    WalkShrinks(params, st2, e.els);
    TrustedBefore(st2, Walk(params, st2, e.els), last, Binders(e.els));
    BackEdgeKeeps(ops, layout, params, if Eval(ops, e.cond, env).v.b then st1 else st2,
      if Eval(ops, e.cond, env).v.b then e.thn else e.els, env, entry, last);
  }

  lemma LetKeeps(ops: Interp, layout: Layout, st: State, local: nat, value: Expr, env: Env, entry: Env)
    requires Preserves(ops, layout) && OriginsHold(layout, st.origins, env, entry) && Eval(ops, value, env).Ret?
    ensures OriginsHold(layout, AfterLet(st, local, value).origins, env[local := Eval(ops, value, env).v], entry)
  {
    hide Preserves, Eval;
    if Origin(st.origins, value).Some? { OriginSound(ops, layout, st.origins, value, env, entry); }
  }

  lemma RecurKeeps(ops: Interp, layout: Layout, params: seq<nat>, st: State, args: seq<Expr>, env: Env, entry: Env,
      last: State)
    requires Preserves(ops, layout) && OriginsHold(layout, st.origins, env, entry) && Eval(ops, Recur(args), env).Back?
    requires |args| == |params| && Trusted(Passed(st, params, args), last)
    ensures LayoutsPassed(layout, params, last.candidates, entry, Eval(ops, Recur(args), env).vals)
  {
    PassedShrinks(st, params, args);
    ArgsPointwise(ops, args, env);
    forall i | 0 <= i < |params| && params[i] in last.candidates
      ensures params[i] in entry && layout(Eval(ops, Recur(args), env).vals[i]) == layout(entry[params[i]])
    {
      OriginSound(ops, layout, st.origins, args[i], env, entry);
    }
  }

  /** The loop values after some number of iterations, if it has not ended before. */
  function After(ops: Interp, params: seq<nat>, body: Expr, vals: seq<Value>, iterations: nat): Option<seq<Value>>
    requires |vals| == |params|
    ensures var r := After(ops, params, body, vals, iterations); r.Some? ==> |r.value| == |params|
    decreases iterations
  {
    if iterations == 0 then Some(vals)
    else match Iterate(ops, params, body, vals)
      case Back(next) => if |next| == |params| then After(ops, params, body, next, iterations - 1) else None
      case _ => None
  }

  lemma OneIteration(ops: Interp, layout: Layout, params: seq<nat>, body: Expr, vals: seq<Value>)
    requires Preserves(ops, layout) && Distinct(params) && BoundOnce(body) && Binders(body) !! ParamSet(params)
    requires |vals| == |params| && Iterate(ops, params, body, vals).Back? && Invariant(params, body) != {}
    ensures var next := Iterate(ops, params, body, vals).vals;
      && |next| == |params|
      && forall i :: 0 <= i < |params| && params[i] in Invariant(params, body) ==> layout(next[i]) == layout(vals[i])
  {
    BindValues(params, vals);
    var env := Bind(params, vals);
    BackEdgeKeeps(ops, layout, params, Start(params), body, env, env, Walk(params, Start(params), body));
  }

  /** Across all iterations every invariant parameter keeps the layout it came in with. */
  lemma {:induction false} LayoutsKept(ops: Interp, layout: Layout, params: seq<nat>, body: Expr, vals: seq<Value>,
      iterations: nat, i: nat)
    requires Preserves(ops, layout) && Distinct(params) && BoundOnce(body) && Binders(body) !! ParamSet(params)
    requires |vals| == |params| && i < |params| && params[i] in Invariant(params, body)
    requires After(ops, params, body, vals, iterations).Some?
    ensures layout(After(ops, params, body, vals, iterations).value[i]) == layout(vals[i])
    decreases iterations
  {
    if iterations > 0 {
      OneIteration(ops, layout, params, body, vals);
      LayoutsKept(ops, layout, params, body, Iterate(ops, params, body, vals).vals, iterations - 1, i);
    }
  }
}
