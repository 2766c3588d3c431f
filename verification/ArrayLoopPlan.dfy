/** Loops that update one initially unique numeric array in place: the scan that
    accepts them. */
module ArrayLoopPlan {
  import opened Machine
  import opened Primitives
  import opened Core

  /** As much of a type as the scan looks at. */
  datatype ATy = ScalarTy(id: nat) | ArrayTy(elem: ATy) | OpaqueTy(id: nat)

  type Types = map<nat, ATy>

  /** The type each node of the representation carries. */
  type NodeTy = Expr -> ATy

  predicate Scalar(t: ATy) {
    t.ScalarTy?
  }

  predicate ScalarLocal(types: Types, x: nat) {
    x in types && Scalar(types[x])
  }

  datatype State = State(aliases: set<nat>, writes: nat, budget: nat)

  datatype Walked = Accepted(st: State) | Rejected

  const WALK_BUDGET: nat := 256

  /** Whether a term yields the buffer held by a known alias. */
  predicate ArrayResult(aliases: set<nat>, e: Expr) {
    match e
    case Local(x) => x in aliases
    case Prim(op, args) => op == ArraySet && |args| > 0 && ArrayResult(aliases, args[0])
    case Let(_, _, body) => ArrayResult(aliases, body)
    case Drop(_, body) => ArrayResult(aliases, body)
    case Dup(_, body) => ArrayResult(aliases, body)
    case _ => false
  }

  datatype Context = Context(types: Types, ty: NodeTy, position: nat, arity: nat)

  function Walk(cx: Context, st: State, e: Expr, arrayValue: bool): Walked
    decreases e, 1, 0
  {
    if st.budget == 0 then Rejected
    else
      var st := st.(budget := st.budget - 1);
      match e
      case Local(x) =>
        if x in st.aliases then (if arrayValue then Accepted(st) else Rejected)
        else if Scalar(if x in cx.types then cx.types[x] else cx.ty(e)) then Accepted(st) else Rejected
      case Lit(lit) => if ScalarLit(lit) then Accepted(st) else Rejected
      case Error => Accepted(st)
      case Let(local, value, body) =>
        (match Walk(cx, st, value, true)
         case Accepted(st1) => Walk(cx, AfterValue(st1, local, value), body, arrayValue)
         case Rejected => Rejected)
      case If(cond, thn, els) =>
        (match Walk(cx, st, cond, false)
         case Accepted(st1) =>
           (match Walk(cx, st1, thn, arrayValue)
            case Accepted(st2) => Walk(cx, st2, els, arrayValue)
            case Rejected => Rejected)
         case Rejected => Rejected)
      case Prim(op, args) =>
        if op == ArrayLength || op == ArrayGet || op == ArraySet then
          if |args| == 0 || !ArrayResult(st.aliases, args[0]) then Rejected
          else
            (match Walk(cx, st, args[0], true)
             case Accepted(st1) =>
               if op == ArraySet && !arrayValue then Rejected
               else WalkAll(cx, if op == ArraySet then st1.(writes := st1.writes + 1) else st1, args[1..])
             case Rejected => Rejected)
        else if Scalar(cx.ty(e)) then WalkAll(cx, st, args) else Rejected
      case Dup(x, body) =>
        if x !in st.aliases && ScalarLocal(cx.types, x) then Walk(cx, st, body, arrayValue) else Rejected
      case Drop(x, body) =>
        if x !in st.aliases && ScalarLocal(cx.types, x) then Walk(cx, st, body, arrayValue) else Rejected
      case Recur(args) => if |args| == cx.arity then WalkNext(cx, st, e, 0) else Rejected
      case _ => Rejected
  }

  function AfterValue(st: State, local: nat, value: Expr): State {
    if ArrayResult(st.aliases, value) then st.(aliases := st.aliases + {local}) else st
  }

  /** Operands that must be scalars. */
  function WalkAll(cx: Context, st: State, args: seq<Expr>): Walked
    decreases args, 2, 0
  {
    if args == [] then Accepted(st)
    else match Walk(cx, st, args[0], false)
      case Accepted(st1) => WalkAll(cx, st1, args[1..])
      case Rejected => Rejected
  }

  /** Back-edge operands from `i` on: the buffer in its position, scalars elsewhere. */
  function WalkNext(cx: Context, st: State, e: Expr, i: nat): Walked
    requires e.Recur? && i <= |e.args|
    decreases e, 0, |e.args| - i
  {
    if i == |e.args| then Accepted(st)
    else if i == cx.position && !ArrayResult(st.aliases, e.args[i]) then Rejected
    else match Walk(cx, st, e.args[i], i == cx.position)
      case Accepted(st1) => WalkNext(cx, st1, e, i + 1)
      case Rejected => Rejected
  }

  // ----- the plan -----

  datatype Plan = Plan(root: nat, aliases: set<nat>)

  /** The positions of the array parameters. */
  function ArrayParams(params: seq<nat>, types: Types): seq<nat> {
    if params == [] then []
    else
      var n := |params| - 1;
      ArrayParams(params[..n], types) + (if params[n] in types && types[params[n]].ArrayTy? then [n] else [])
  }

  function PlanOf(params: seq<nat>, body: Expr, types: Types, ty: NodeTy): Option<Plan> {
    var arrays := ArrayParams(params, types);
    if |arrays| != 1 || arrays[0] >= |params| then None
    else
      var root := params[arrays[0]];
      if !(root in types && types[root].ArrayTy? && Scalar(types[root].elem) && ty(body) == types[root]) then None
      else if exists i :: 0 <= i < |params| && params[i] != root && !ScalarLocal(types, params[i]) then None
      else
        match Walk(Context(types, ty, arrays[0], |params|), State({root}, 0, WALK_BUDGET), body, true)
        case Accepted(st) => if st.writes == 0 then None else Some(Plan(root, st.aliases))
        case Rejected => None
  }

  // ----- the scan as the compiler runs it -----

  class Scan {
    const cx: Context
    var aliases: set<nat>
    var writes: nat
    var budget: nat

    function Now(): State
      reads this
    {
      State(aliases, writes, budget)
    }

    constructor (cx: Context, root: nat)
      ensures this.cx == cx && Now() == State({root}, 0, WALK_BUDGET)
    {
      this.cx := cx;
      aliases, writes, budget := {root}, 0, WALK_BUDGET;
    }

    ghost predicate Agrees(ok: bool, want: Walked)
      reads this
    {
      if ok then want == Accepted(Now()) else want.Rejected?
    }

    method Visit(e: Expr, arrayValue: bool) returns (ok: bool)
      modifies this
      ensures Agrees(ok, Walk(cx, old(Now()), e, arrayValue))
      decreases e, 1
    {
      if budget == 0 {
        return false;
      }
      budget := budget - 1;
      match e
      case Local(x) =>
        ok := if x in aliases then arrayValue else Scalar(if x in cx.types then cx.types[x] else cx.ty(e));
      case Lit(lit) => ok := ScalarLit(lit);
      case Error => ok := true;
      case Let(local, value, body) =>
        ok := Visit(value, true);
        if !ok { return; }
        if ArrayResult(aliases, value) {
          aliases := aliases + {local};
        }
        ok := Visit(body, arrayValue);
      case If(cond, thn, els) =>
        ok := Visit(cond, false);
        if !ok { return; }
        ok := Visit(thn, arrayValue);
        if !ok { return; }
        ok := Visit(els, arrayValue);
      case Prim(op, args) =>
        if op == ArrayLength || op == ArrayGet || op == ArraySet {
          if |args| == 0 || !ArrayResult(aliases, args[0]) { return false; }
          ok := Visit(args[0], true);
          if !ok { return; }
          if op == ArraySet {
            if !arrayValue { return false; }
            writes := writes + 1;
          }
          ok := VisitAll(args[1..]);
        } else {
          if !Scalar(cx.ty(e)) { return false; }
          ok := VisitAll(args);
        }
      case Dup(x, body) =>
        if x in aliases || !ScalarLocal(cx.types, x) { return false; }
        ok := Visit(body, arrayValue);
      case Drop(x, body) =>
        if x in aliases || !ScalarLocal(cx.types, x) { return false; }
        ok := Visit(body, arrayValue);
      case Recur(args) =>
        if |args| != cx.arity { return false; }
        ok := VisitNext(e);
      case _ => ok := false;
    }

    method VisitAll(args: seq<Expr>) returns (ok: bool)
      modifies this
      ensures Agrees(ok, WalkAll(cx, old(Now()), args))
      decreases args, 2
    {
      if args == [] {
        return true;
      }
      ok := Visit(args[0], false);
      if !ok { return; }
      ok := VisitAll(args[1..]);
    }

    method VisitNext(e: Expr) returns (ok: bool)
      requires e.Recur?
      modifies this
      ensures Agrees(ok, WalkNext(cx, old(Now()), e, 0))
      decreases e, 0
    {
      var i := 0;
      while i < |e.args|
        invariant 0 <= i <= |e.args|
        invariant WalkNext(cx, old(Now()), e, 0) == WalkNext(cx, Now(), e, i)
      {
        if i == cx.position && !ArrayResult(aliases, e.args[i]) { return false; }
        ok := Visit(e.args[i], i == cx.position);
        if !ok { return; }
        i := i + 1;
      }
      ok := true;
    }
  }

  method FindPlan(params: seq<nat>, body: Expr, types: Types, ty: NodeTy) returns (r: Option<Plan>)
    ensures r == PlanOf(params, body, types, ty)
  {
    var arrays: seq<nat> := [];
    for i := 0 to |params|
      invariant arrays == ArrayParams(params[..i], types)
    {
      assert params[..i + 1][..i] == params[..i];
      if params[i] in types && types[params[i]].ArrayTy? {
        arrays := arrays + [i];
      }
    }
    assert params[..|params|] == params;
    if |arrays| != 1 || arrays[0] >= |params| {
      return None;
    }
    var root := params[arrays[0]];
    if !(root in types && types[root].ArrayTy? && Scalar(types[root].elem) && ty(body) == types[root]) {
      return None;
    }
    if exists i :: 0 <= i < |params| && params[i] != root && !ScalarLocal(types, params[i]) {
      return None;
    }
    var scan := new Scan(Context(types, ty, arrays[0], |params|), root);
    var ok := scan.Visit(body, true);
    r := if !ok || scan.writes == 0 then None else Some(Plan(root, scan.aliases));
  }
}
