/** Counted loops whose float state ignores the counter: the scanner that finds them. */
module FixedPointPlan {
  import opened Machine
  import opened Primitives
  import opened Core

  datatype Bound = Parameter(index: nat) | Literal(n: I64)

  datatype Plan = Plan(counter: nat, bound: Bound, descending: bool, floats: seq<nat>)

  datatype ScanState = ScanState(deps: map<nat, bool>, defs: Defs, budget: nat, recurs: nat)

  /** Whether the scanned term may depend on the counter, and the state after it. */
  datatype Walked = Accepted(dep: bool, st: ScanState) | Rejected

  /** Follows local definitions and reference-count wrappers, at most `fuel` steps. */
  function Resolve(e: Expr, defs: Defs, fuel: nat): Expr
    decreases fuel
  {
    if fuel == 0 then e
    else match e
      case Local(id) => if id in defs then Resolve(defs[id], defs, fuel - 1) else e
      case Dup(_, body) => Resolve(body, defs, fuel - 1)
      case Drop(_, body) => Resolve(body, defs, fuel - 1)
      case _ => e
  }

  const RESOLVE_STEPS: nat := 32
  const WALK_BUDGET: nat := 256

  /** What is known of a local once its value is scanned. */
  function Recorded(st: ScanState, dep: bool, local: nat, value: Expr): ScanState {
    st.(deps := st.deps[local := dep], defs := st.defs[local := value])
  }

  function Walk(params: seq<nat>, plan: Plan, st: ScanState, e: Expr, tail: bool): Walked
    decreases e, 2, 0
  {
    if st.budget == 0 then Rejected else WalkNode(params, plan, st.(budget := st.budget - 1), e, tail)
  }

  function WalkNode(params: seq<nat>, plan: Plan, st: ScanState, e: Expr, tail: bool): Walked
    decreases e, 1, 0
  {
    match e
    case Local(id) => if id in st.deps then Accepted(st.deps[id], st) else Rejected
    case Lit(lit) => if ScalarLit(lit) then Accepted(false, st) else Rejected
    case Error => Accepted(false, st)
    case Let(local, value, body) =>
      (match Walk(params, plan, st, value, false)
       case Accepted(dep, st1) =>
         Walk(params, plan, Recorded(st1, dep, local, value), body, tail)
       case Rejected => Rejected)
    case If(cond, thn, els) =>
      (match Walk(params, plan, st, cond, false)
       case Accepted(false, st1) =>
         (match Walk(params, plan, st1, thn, tail)
          case Accepted(a, st2) =>
            (match Walk(params, plan, st2, els, tail)
             case Accepted(b, st3) => Accepted(a || b, st3)
             case Rejected => Rejected)
          case Rejected => Rejected)
       case _ => Rejected)
    case Prim(op, args) =>
      if !Numeric(op) then Rejected
      else (match WalkArgs(params, plan, st, args)
            case Accepted(dep, st1) =>
              if dep && (op == IntDiv || op == IntRem) then Rejected else Accepted(dep, st1)
            case Rejected => Rejected)
    case Dup(_, body) => Walk(params, plan, st, body, tail)
    case Drop(_, body) => Walk(params, plan, st, body, tail)
    case Recur(args) =>
      if tail && |args| == |params| && plan.counter < |args| &&
          CounterSteps(params, plan, st.defs, args[plan.counter]) then
        (match WalkNext(params, plan, st, e, 0)
         case Accepted(_, st1) => Accepted(false, st1.(recurs := st1.recurs + 1))
         case Rejected => Rejected)
      else Rejected
    case _ => Rejected
  }

  function WalkArgs(params: seq<nat>, plan: Plan, st: ScanState, args: seq<Expr>): Walked
    decreases args, 1
  {
    if args == [] then Accepted(false, st)
    else match Walk(params, plan, st, args[0], false)
      case Accepted(d, st1) =>
        (match WalkArgs(params, plan, st1, args[1..])
         case Accepted(ds, st2) => Accepted(d || ds, st2)
         case Rejected => Rejected)
      case Rejected => Rejected
  }

  /** The next counter is the counter plus or minus one. */
  predicate CounterSteps(params: seq<nat>, plan: Plan, defs: Defs, arg: Expr)
    requires plan.counter < |params|
  {
    var count := Resolve(arg, defs, RESOLVE_STEPS);
    && count.Prim? && count.op == (if plan.descending then IntSub else IntAdd) && |count.args| == 2
    && Resolve(count.args[0], defs, RESOLVE_STEPS) == Local(params[plan.counter])
    && Resolve(count.args[1], defs, RESOLVE_STEPS) == Lit(IntLit(1))
  }

  /** The back-edge operands from `i` on: floats independent of the counter, other
      parameters unchanged. */
  function WalkNext(params: seq<nat>, plan: Plan, st: ScanState, e: Expr, i: nat): Walked
    requires e.Recur? && |e.args| == |params| && i <= |e.args|
    decreases e, 0, |e.args| - i
  {
    if i == |e.args| then Accepted(false, st)
    else if i == plan.counter then WalkNext(params, plan, st, e, i + 1)
    else if i in plan.floats then
      match Walk(params, plan, st, e.args[i], false)
      case Accepted(false, st1) => WalkNext(params, plan, st1, e, i + 1)
      case _ => Rejected
    else if Resolve(e.args[i], st.defs, RESOLVE_STEPS) == Local(params[i]) then WalkNext(params, plan, st, e, i + 1)
    else Rejected
  }

  // ----- the whole plan -----

  datatype Prefix = Prefix(defs: Defs, last: Expr) | TooLong

  /** The leading lets of a body. */
  function PrefixOf(e: Expr, defs: Defs): Prefix {
    match e
    case Let(local, value, body) => if |defs| >= 256 then TooLong else PrefixOf(body, defs[local := value])
    case _ => Prefix(defs, e)
  }

  function IndexOf(params: seq<nat>, p: nat): (r: Option<nat>)
    ensures r.Some? ==> r.value < |params| && params[r.value] == p
    ensures r.None? <==> p !in params
  {
    if params == [] then None
    else if params[0] == p then Some(0)
    else match IndexOf(params[1..], p)
      case Some(i) => Some(i + 1)
      case None => None
  }

  function FloatParams(params: seq<nat>, types: map<nat, Ty>, i: nat): seq<nat>
    requires i <= |params|
    decreases |params| - i
  {
    if i == |params| then []
    else (if params[i] in types && types[params[i]] == TFloat then [i] else []) + FloatParams(params, types, i + 1)
  }

  predicate HasType(types: map<nat, Ty>, p: nat, t: Ty) {
    p in types && types[p] == t
  }

  predicate ScalarParams(params: seq<nat>, types: map<nat, Ty>) {
    |params| <= 10 && forall i :: 0 <= i < |params| ==>
      HasType(types, params[i], TInt) || HasType(types, params[i], TFloat)
  }

  /** The counter and bound of the terminal comparison. */
  function Guard(params: seq<nat>, types: map<nat, Ty>, defs: Defs, cond: Expr): Option<Plan> {
    var cond := Resolve(cond, defs, RESOLVE_STEPS);
    if !(cond.Prim? && (cond.op == IntGe || cond.op == IntLe) && |cond.args| == 2) then None
    else
      var left := Resolve(cond.args[0], defs, RESOLVE_STEPS);
      var right := Resolve(cond.args[1], defs, RESOLVE_STEPS);
      if !left.Local? then None
      else
        var counter := IndexOf(params, left.id);
        var bound :=
          match right
          case Local(p) =>
            if p == left.id then None
            else (match IndexOf(params, p) case Some(i) => Some(Parameter(i)) case None => None)
          case Lit(IntLit(n)) => Some(Literal(n))
          case _ => None;
        if counter.None? || bound.None? then None
        else if !HasType(types, params[counter.value], TInt) then None
        else if bound.value.Parameter? && !HasType(types, params[bound.value.index], TInt) then None
        else
          var floats := FloatParams(params, types, 0);
          if floats == [] then None
          else Some(Plan(counter.value, bound.value, cond.op == IntLe, floats))
  }

  /** The prefix values are scanned in order, then both branches. */
  function ScanBody(params: seq<nat>, plan: Plan, st: ScanState, e: Expr): Walked
    decreases e
  {
    match e
    case Let(local, value, body) =>
      (match Walk(params, plan, st, value, false)
       case Accepted(dep, st1) =>
         ScanBody(params, plan, Recorded(st1, dep, local, value), body)
       case Rejected => Rejected)
    case If(_, thn, els) =>
      (match Walk(params, plan, st, thn, false)
       case Accepted(_, st1) => Walk(params, plan, st1, els, true)
       case Rejected => Rejected)
    case _ => Rejected
  }

  function ParamDeps(params: seq<nat>, counter: nat): map<nat, bool> {
    map p | p in params :: counter < |params| && params[counter] == p
  }

  function Start(params: seq<nat>, plan: Plan): ScanState {
    ScanState(ParamDeps(params, plan.counter), map[], WALK_BUDGET, 0)
  }

  function PlanOf(params: seq<nat>, body: Expr, types: map<nat, Ty>): Option<Plan> {
    if !ScalarParams(params, types) then None
    else
      var prefix := PrefixOf(body, map[]);
      if prefix.TooLong? || !prefix.last.If? then None
      else
        var plan := Guard(params, types, prefix.defs, prefix.last.cond);
        if plan.None? then None
        else match ScanBody(params, plan.value, Start(params, plan.value), body)
          case Accepted(_, st) => if st.recurs > 0 then plan else None
          case Rejected => None
  }

  // ----- the scanner as the compiler runs it -----

  method ResolveSteps(e: Expr, defs: Defs) returns (r: Expr)
    ensures r == Resolve(e, defs, RESOLVE_STEPS)
  {
    r := e;
    var step := 0;
    while step < RESOLVE_STEPS
      invariant step <= RESOLVE_STEPS
      invariant Resolve(e, defs, RESOLVE_STEPS) == Resolve(r, defs, RESOLVE_STEPS - step)
    {
      match r {
        case Local(id) =>
          if id !in defs { return; }
          r := defs[id];
        case Dup(_, body) => r := body;
        case Drop(_, body) => r := body;
        case _ => return;
      }
      step := step + 1;
    }
  }

  class Scan {
    const params: seq<nat>
    const plan: Plan
    var deps: map<nat, bool>
    var defs: Defs
    var budget: nat
    var recurs: nat

    function State(): ScanState
      reads this
    {
      ScanState(deps, defs, budget, recurs)
    }

    constructor (params: seq<nat>, plan: Plan)
      ensures this.params == params && this.plan == plan && State() == Start(params, plan)
    {
      this.params, this.plan := params, plan;
      deps, defs, budget, recurs := ParamDeps(params, plan.counter), map[], WALK_BUDGET, 0;
    }

    ghost predicate Agrees(r: Option<bool>, want: Walked)
      reads this
    {
      if r.Some? then want == Accepted(r.value, State()) else want.Rejected?
    }

    method Visit(e: Expr, tail: bool) returns (r: Option<bool>)
      modifies this
      ensures Agrees(r, Walk(params, plan, old(State()), e, tail))
      decreases e, 2, 0
    {
      hide WalkNode;
      if budget == 0 {
        return None;
      }
      budget := budget - 1;
      r := VisitNode(e, tail);
    }

    method VisitNode(e: Expr, tail: bool) returns (r: Option<bool>)
      modifies this
      ensures Agrees(r, WalkNode(params, plan, old(State()), e, tail))
      decreases e, 1, 0
    {
      hide Walk, WalkNext, WalkArgs, CounterSteps;
      match e
      case Local(id) => r := if id in deps then Some(deps[id]) else None;
      case Lit(lit) => r := if ScalarLit(lit) then Some(false) else None;
      case Error => r := Some(false);
      case Let(local, value, body) =>
        var dep := Visit(value, false);
        if dep.None? { return None; }
        deps := deps[local := dep.value];
        defs := defs[local := value];
        r := Visit(body, tail);
      case If(cond, thn, els) =>
        var c := Visit(cond, false);
        if c.None? || c.value { return None; }
        var a := Visit(thn, tail);
        if a.None? { return None; }
        var b := Visit(els, tail);
        if b.None? { return None; }
        r := Some(a.value || b.value);
      case Prim(op, args) =>
        if !Numeric(op) { return None; }
        var dep := VisitArgs(args);
        if dep.None? || (dep.value && (op == IntDiv || op == IntRem)) { return None; }
        r := dep;
      case Dup(_, body) => r := Visit(body, tail);
      case Drop(_, body) => r := Visit(body, tail);
      case Recur(args) =>
        if !(tail && |args| == |params| && plan.counter < |args|) { return None; }
        r := VisitBackEdge(e);
      case _ => r := None;
    }

    method VisitArgs(args: seq<Expr>) returns (r: Option<bool>)
      modifies this
      ensures Agrees(r, WalkArgs(params, plan, old(State()), args))
      decreases args, 1
    {
      if args == [] {
        return Some(false);
      }
      var d := Visit(args[0], false);
      if d.None? { return None; }
      var ds := VisitArgs(args[1..]);
      if ds.None? { return None; }
      r := Some(d.value || ds.value);
    }

    method VisitBackEdge(e: Expr) returns (r: Option<bool>)
      requires e.Recur? && |e.args| == |params| && plan.counter < |e.args|
      modifies this
      ensures Agrees(r, WalkNode(params, plan, old(State()), e, true))
      decreases e, 0, 1
    {
      var steps := VisitCounter(e.args[plan.counter]);
      if !steps { return None; }
      var ok := VisitNext(e);
      if !ok { return None; }
      recurs := recurs + 1;
      r := Some(false);
    }

    method VisitCounter(arg: Expr) returns (r: bool)
      requires plan.counter < |params|
      ensures r == CounterSteps(params, plan, defs, arg)
    {
      var count := ResolveSteps(arg, defs);
      if !(count.Prim? && count.op == (if plan.descending then IntSub else IntAdd) && |count.args| == 2) {
        return false;
      }
      var a := ResolveSteps(count.args[0], defs);
      var b := ResolveSteps(count.args[1], defs);
      r := a == Local(params[plan.counter]) && b == Lit(IntLit(1));
    }

    method VisitNext(e: Expr) returns (ok: bool)
      requires e.Recur? && |e.args| == |params|
      modifies this
      ensures Agrees(if ok then Some(false) else None, WalkNext(params, plan, old(State()), e, 0))
      decreases e, 0, 0
    {
      var i := 0;
      while i < |e.args|
        invariant 0 <= i <= |e.args|
        invariant WalkNext(params, plan, old(State()), e, 0) == WalkNext(params, plan, State(), e, i)
      {
        if i != plan.counter {
          if i in plan.floats {
            var d := Visit(e.args[i], false);
            if d.None? || d.value { return false; }
          } else {
            var same := ResolveSteps(e.args[i], defs);
            if same != Local(params[i]) { return false; }
          }
        }
        i := i + 1;
      }
      ok := true;
    }
  }

  method FindPlan(params: seq<nat>, body: Expr, types: map<nat, Ty>) returns (r: Option<Plan>)
    ensures r == PlanOf(params, body, types)
  {
    hide Walk, Guard, ScanBody, Start;
    if !ScalarParams(params, types) {
      return None;
    }
    var prefix := body;
    var defs: Defs := map[];
    while prefix.Let?
      invariant PrefixOf(body, map[]) == PrefixOf(prefix, defs)
      decreases prefix
    {
      if |defs| >= 256 { return None; }
      defs, prefix := defs[prefix.local := prefix.value], prefix.body;
    }
    if !prefix.If? {
      return None;
    }
    var plan := Guard(params, types, defs, prefix.cond);
    if plan.None? {
      return None;
    }
    TailOfPrefix(body, map[]);
    var found := FindsBackEdge(params, plan.value, body);
    r := if found then plan else None;
  }

  /** Scans the prefix values, then both branches. */
  method FindsBackEdge(params: seq<nat>, plan: Plan, body: Expr) returns (found: bool)
    requires PrefixTail(body).If?
    ensures var w := ScanBody(params, plan, Start(params, plan), body); found <==> w.Accepted? && w.st.recurs > 0
  {
    hide Walk, Start;
    var scan := new Scan(params, plan);
    var rest := body;
    while rest.Let?
      invariant ScanBody(params, plan, Start(params, plan), body) == ScanBody(params, plan, scan.State(), rest)
      invariant PrefixTail(rest) == PrefixTail(body)
      decreases rest
    {
      var dep := scan.Visit(rest.value, false);
      if dep.None? { return false; }
      scan.deps := scan.deps[rest.local := dep.value];
      scan.defs := scan.defs[rest.local := rest.value];
      rest := rest.body;
    }
    var a := scan.Visit(rest.thn, false);
    if a.None? { return false; }
    var b := scan.Visit(rest.els, true);
    found := b.Some? && scan.recurs > 0;
  }

  /** What follows the leading lets. */
  function PrefixTail(e: Expr): Expr {
    match e
    case Let(_, _, body) => PrefixTail(body)
    case _ => e
  }

  lemma {:induction false} TailOfPrefix(e: Expr, defs: Defs)
    ensures PrefixOf(e, defs).Prefix? ==> PrefixOf(e, defs).last == PrefixTail(e)
  {
    if e.Let? && |defs| < 256 {
      TailOfPrefix(e.body, defs[e.local := e.value]);
    }
  }
}
