/** Maintaining an affine bound across iterations instead of recomputing the
    subtraction: the rewritten loop computes what the original computes. */
module AffineLoop {
  import opened Machine
  import opened Primitives
  import opened Core
  import opened CoreLoop
  import opened AffinePlan

  // ----- the nodes of a body -----

  ghost predicate Closed(nodes: seq<Expr>) {
    forall e, c :: e in nodes && c in Children(e) ==> c in nodes
  }

  lemma {:induction false} PendingVisited(pending: seq<Expr>)
    ensures forall e :: e in pending ==> e in Nodes(pending)
    decreases SizeAll(pending)
  {
    if pending != [] {
      var n := |pending| - 1;
      NextNode(pending);
      PendingVisited(pending[..n] + Children(pending[n]));
      forall e | e in pending ensures e in Nodes(pending) {
        if e != pending[n] { assert e in pending[..n]; }
      }
    }
  }

  lemma {:induction false} NodesClosed(pending: seq<Expr>)
    ensures Closed(Nodes(pending))
    decreases SizeAll(pending)
  {
    if pending != [] {
      var n := |pending| - 1;
      NextNode(pending);
      var more := pending[..n] + Children(pending[n]);
      NodesClosed(more);
      PendingVisited(more);
    }
  }

  lemma {:induction false} LetIsDefined(params: seq<nat>, nodes: seq<Expr>, e: Expr)
    requires Walkable(params, nodes) && e in nodes && e.Let?
    ensures e.local in Definitions(nodes) && Definitions(nodes)[e.local] == e.value
  {
    var n := |nodes| - 1;
    if nodes[n] != e {
      assert e in nodes[..n];
      LetIsDefined(params, nodes[..n], e);
    }
  }

  lemma {:induction false} RecurIsCalled(nodes: seq<Expr>, e: Expr)
    requires e in nodes && e.Recur?
    ensures e.args in Calls(nodes)
  {
    var n := |nodes| - 1;
    if nodes[n] != e {
      assert e in nodes[..n];
      RecurIsCalled(nodes[..n], e);
    }
  }

  lemma {:induction false} NoJoin(params: seq<nat>, nodes: seq<Expr>, e: Expr)
    requires Walkable(params, nodes) && e in nodes
    ensures !e.Join?
  {
    var n := |nodes| - 1;
    if nodes[n] != e {
      assert e in nodes[..n];
      NoJoin(params, nodes[..n], e);
    }
  }

  // ----- what the planner's tables mean -----

  /** `v` is `x + k` in wrapping arithmetic; a value that is no integer is unchanged. */
  predicate Shifted(v: Value, x: Value, k: I64) {
    v == if x.IntV? then IntV(Wrap(x.n + k)) else x
  }

  /** A term with a known offset evaluates to that parameter plus that constant. */
  lemma {:induction false} OffsetSound(ops: Interp, e: Expr, params: seq<nat>, defs: Defs, depth: nat, env: Env,
      v: Value)
    requires Offset(e, params, defs, depth).Some? && Eval(ops, e, env) == Ret(v) && DefsHold(ops, defs, env)
    ensures var r := Offset(e, params, defs, depth).value;
      r.0 in env && r.0 in params && Shifted(v, env[r.0], r.1)
    decreases depth, 1
  {
    hide *;
    PeelSame(ops, e, env);
    var d := PeelRc(e);
    if d.Local? {
      OffsetLocal(ops, e, params, defs, depth, env, v);
      if d.id !in params {
        OffsetSound(ops, defs[d.id], params, defs, depth - 1, env, v);
      }
    } else {
      OffsetPair(e, params, defs, depth);
      OffsetPairSound(ops, d, params, defs, depth - 1, env, v);
    }
  }

  lemma OffsetLocal(ops: Interp, e: Expr, params: seq<nat>, defs: Defs, depth: nat, env: Env, v: Value)
    requires Offset(e, params, defs, depth).Some? && PeelRc(e).Local?
    requires Eval(ops, PeelRc(e), env) == Ret(v) && DefsHold(ops, defs, env)
    ensures var x := PeelRc(e).id;
      if x in params then x in env && Offset(e, params, defs, depth) == Some((x, 0)) && Shifted(v, env[x], 0)
      else && x in defs && depth > 0 && Offset(e, params, defs, depth) == Offset(defs[x], params, defs, depth - 1)
           && Eval(ops, defs[x], env) == Ret(v)
  {
  }

  predicate AddsLiteral(e: Expr) {
    e.Prim? && (e.op == IntAdd || e.op == IntSub) && |e.args| == 2 && e.args[1].Lit? && e.args[1].lit.IntLit?
  }

  function Added(e: Expr): I64
    requires AddsLiteral(e)
  {
    if e.op == IntSub then Wrap(0 - e.args[1].lit.n) else e.args[1].lit.n
  }

  lemma OffsetPair(e: Expr, params: seq<nat>, defs: Defs, depth: nat)
    requires Offset(e, params, defs, depth).Some? && !PeelRc(e).Local?
    ensures AddsLiteral(PeelRc(e)) && depth > 0 && Offset(PeelRc(e).args[0], params, defs, depth - 1).Some?
    ensures var base := Offset(PeelRc(e).args[0], params, defs, depth - 1).value;
      Offset(e, params, defs, depth).value == (base.0, Wrap(base.1 + Added(PeelRc(e))))
  {
    hide Wrap;
  }

  lemma {:induction false} OffsetPairSound(ops: Interp, e: Expr, params: seq<nat>, defs: Defs, depth: nat,
      env: Env, v: Value)
    requires AddsLiteral(e) && Offset(e.args[0], params, defs, depth).Some?
    requires Eval(ops, e, env) == Ret(v) && DefsHold(ops, defs, env)
    ensures var r := Offset(e.args[0], params, defs, depth).value;
      r.0 in env && r.0 in params && Shifted(v, env[r.0], Wrap(r.1 + Added(e)))
    decreases depth, 2
  {
    hide ApplyNumeric, Shifted, DefsHold, Wrap, Offset;
    PairApplied(ops, e, env);
    var x, r := Eval(ops, e.args[0], env).v, Offset(e.args[0], params, defs, depth).value;
    OffsetSound(ops, e.args[0], params, defs, depth, env, x);
    AddConstant(ops, e.op, x, e.args[1].lit.n, r.1, env[r.0], v);
  }

  /** Adding a literal to `x + k`, in wrapping arithmetic. */
  lemma AddConstant(ops: Interp, op: Prim, a: Value, right: I64, k: I64, x: Value, v: Value)
    requires op == IntAdd || op == IntSub
    requires Shifted(a, x, k) && ApplyNumeric(ops, op, [a, IntV(right)]) == Ret(v)
    ensures x.IntV? && Shifted(v, x, Wrap(k + if op == IntSub then Wrap(0 - right) else right))
  {
    hide Wrap, ApplyNumeric;
    AddInts(ops, op, a, right, v);
    Reassociate(x.n as int, k as int, right as int);
  }

  lemma AddInts(ops: Interp, op: Prim, a: Value, right: I64, v: Value)
    requires (op == IntAdd || op == IntSub) && ApplyNumeric(ops, op, [a, IntV(right)]) == Ret(v)
    ensures a.IntV? && v == IntV(if op == IntSub then Wrap(a.n - right) else Wrap(a.n + right))
  {
    hide Wrap;
    assert Types([a, IntV(right)])[0] == TypeOf(a);
  }

  lemma Reassociate(n: int, c: int, r: int)
    ensures Wrap(Wrap(n + c) + r) == Wrap(n + Wrap(c + r))
    ensures Wrap(Wrap(n + c) - r) == Wrap(n + Wrap(c + Wrap(0 - r)))
  {
    hide Wrap;
    WrapSum(n + c, r);
    WrapSum(c + r, n);
    WrapSum(n + c, -r);
    WrapSum(0 - r, c);
    WrapSum(c - r, n);
  }

  lemma PairApplied(ops: Interp, e: Expr, env: Env)
    requires e.Prim? && Numeric(e.op) && |e.args| == 2 && Eval(ops, e, env).Ret?
    ensures Eval(ops, e.args[0], env).Ret? && Eval(ops, e.args[1], env).Ret?
    ensures ApplyNumeric(ops, e.op, [Eval(ops, e.args[0], env).v, Eval(ops, e.args[1], env).v]) == Eval(ops, e, env)
  {
    hide ApplyNumeric;
    PlainPair(ops, e.args, env);
  }

  lemma PlainPair(ops: Interp, args: seq<Expr>, env: Env)
    requires |args| == 2 && EvalArgs(ops, args, env).Vals?
    ensures Eval(ops, args[0], env).Ret? && Eval(ops, args[1], env).Ret?
    ensures EvalArgs(ops, args, env) == Vals([Eval(ops, args[0], env).v, Eval(ops, args[1], env).v])
  {
    ArgsPointwise(ops, args, env);
  }

  /** The back-edge that a run took, and the environment it was taken in. */
  lemma {:induction false} BackEdge(ops: Interp, params: seq<nat>, nodes: seq<Expr>, e: Expr, env: Env)
      returns (args: seq<Expr>, at: Env)
    requires Walkable(params, nodes) && Closed(nodes) && e in nodes
    requires Eval(ops, e, env).Back? && DefsHold(ops, Definitions(nodes), env)
    requires BoundOnce(e) && Binders(e) !! env.Keys
    ensures Recur(args) in nodes && EvalArgs(ops, args, at) == Vals(Eval(ops, e, env).vals)
    ensures Extends(env, at) && DefsHold(ops, Definitions(nodes), at)
    decreases e
  {
    match e
    case Let(local, value, body) =>
      var v := Eval(ops, value, env).v;
      LetIsDefined(params, nodes, e);
      BindDefinition(ops, Definitions(nodes), env, local, value, v);
      assert value in Children(e) && body in Children(e);
      args, at := BackEdge(ops, params, nodes, body, env[local := v]);
    case If(cond, thn, els) =>
      assert thn in Children(e) && els in Children(e);
      args, at := BackEdge(ops, params, nodes, if Eval(ops, cond, env).v.b then thn else els, env);
    case Dup(_, body) => assert body in Children(e); args, at := BackEdge(ops, params, nodes, body, env);
    case Drop(_, body) => assert body in Children(e); args, at := BackEdge(ops, params, nodes, body, env);
    case FreeReuse(_, body) => assert body in Children(e); args, at := BackEdge(ops, params, nodes, body, env);
    case Reset(value, _, body) => assert body in Children(e); args, at := BackEdge(ops, params, nodes, body, env);
    case Recur(a) => args, at := a, env;
    case _ =>
      NoJoin(params, nodes, e);
      args, at := [], env;
      assert false;
  }

  /** What the planner knows of one predicate. */
  ghost predicate Meaning(params: seq<nat>, nodes: seq<Expr>, p: Predicate, c: nat, i: nat)
    requires Walkable(params, nodes) && Calls(nodes) != []
  {
    CallsHaveArity(params, nodes);
    var defs := Definitions(nodes);
    && c < |params| && params[c] == p.counter && StepOf(params, defs, Calls(nodes), c) == Some(p.step)
    && i < |params| && params[i] == p.invariant_ && StepOf(params, defs, Calls(nodes), i) == Some(0)
    && p.difference in defs
    && PeelRc(defs[p.difference]) ==
       Prim(IntSub, if p.sum then [Local(p.operand), Local(p.invariant_)] else [Local(p.invariant_), Local(p.operand)])
  }

  lemma {:induction false} StepsMean(params: seq<nat>, defs: Defs, calls: seq<seq<Expr>>, n: nat, x: nat)
      returns (i: nat)
    requires n <= |params| && |calls| > 0 && forall k :: 0 <= k < |calls| ==> |calls[k]| == |params|
    requires x in StepsTo(params, defs, calls, n)
    ensures i < n && params[i] == x && StepOf(params, defs, calls, i) == Some(StepsTo(params, defs, calls, n)[x])
  {
    if params[n - 1] == x && StepOf(params, defs, calls, n - 1).Some? {
      i := n - 1;
    } else {
      i := StepsMean(params, defs, calls, n - 1, x);
    }
  }

  lemma CandidateMeans(nodes: seq<Expr>, steps: map<nat, I64>, difference: nat, counter: nat, p: Predicate)
    requires Candidate(nodes, steps, difference, counter) == Some(p)
    ensures p.counter in steps && steps[p.counter] == p.step && p.invariant_ in steps && steps[p.invariant_] == 0
    ensures p.difference in Definitions(nodes) && PeelRc(Definitions(nodes)[p.difference]) ==
      Prim(IntSub, if p.sum then [Local(p.operand), Local(p.invariant_)] else [Local(p.invariant_), Local(p.operand)])
  {
    hide Definitions, UseCount;
    var value := PeelRc(Definitions(nodes)[difference]);
    assert value.args == [value.args[0], value.args[1]];
  }

  lemma {:induction false} FoundMeans(params: seq<nat>, nodes: seq<Expr>, n: nat, p: Predicate) returns (c: nat, i: nat)
    requires Walkable(params, nodes) && Calls(nodes) != [] && n <= |nodes|
    requires forall k :: 0 <= k < |Calls(nodes)| ==> |Calls(nodes)[k]| == |params|
    requires p in FoundTo(nodes, StepsTo(params, Definitions(nodes), Calls(nodes), |params|), n)
    ensures Meaning(params, nodes, p, c, i)
  {
    hide Candidate, StepsTo, Walkable, Calls, Definitions;
    var steps := StepsTo(params, Definitions(nodes), Calls(nodes), |params|);
    if p in FoundTo(nodes, steps, n - 1) {
      c, i := FoundMeans(params, nodes, n - 1, p);
    } else {
      var a, b := nodes[n - 1].args[0].id, nodes[n - 1].args[1].id;
      if Candidate(nodes, steps, a, b) == Some(p) {
        CandidateMeans(nodes, steps, a, b, p);
      } else {
        CandidateMeans(nodes, steps, b, a, p);
      }
      c := StepsMean(params, Definitions(nodes), Calls(nodes), |params|, p.counter);
      i := StepsMean(params, Definitions(nodes), Calls(nodes), |params|, p.invariant_);
    }
  }

  /** Every back-edge advances a parameter by its step. */
  lemma StepSound(ops: Interp, params: seq<nat>, nodes: seq<Expr>, e: Expr, env: Env, c: nat, step: I64)
    requires Walkable(params, nodes) && Closed(nodes) && e in nodes && Calls(nodes) != []
    requires forall k :: 0 <= k < |Calls(nodes)| ==> |Calls(nodes)[k]| == |params|
    requires Eval(ops, e, env).Back? && DefsHold(ops, Definitions(nodes), env) && BoundOnce(e) && Binders(e) !! env.Keys
    requires c < |params| && params[c] in env && env[params[c]].IntV?
    requires StepOf(params, Definitions(nodes), Calls(nodes), c) == Some(step)
    ensures var next := Eval(ops, e, env).vals;
      |next| == |params| && next[c] == IntV(Wrap(env[params[c]].n + step))
  {
    hide StepOf, Eval, DefsHold, Walkable, Closed, Calls;
    var args, at := BackEdge(ops, params, nodes, e, env);
    RecurIsCalled(nodes, Recur(args));
    var k :| 0 <= k < |Calls(nodes)| && Calls(nodes)[k] == args;
    StepOfAll(params, Definitions(nodes), Calls(nodes), c, step, k);
    ArgsPointwise(ops, args, at);
    OffsetSound(ops, args[c], params, Definitions(nodes), OFFSET_DEPTH, at, Eval(ops, e, env).vals[c]);
  }

  lemma StepOfAll(params: seq<nat>, defs: Defs, calls: seq<seq<Expr>>, c: nat, step: I64, k: nat)
    requires c < |params| && k < |calls| && forall j :: 0 <= j < |calls| ==> |calls[j]| == |params|
    requires StepOf(params, defs, calls, c) == Some(step)
    ensures Offset(calls[k][c], params, defs, OFFSET_DEPTH) == Some((params[c], step))
  {
    hide Offset;
  }

  // ----- the rewritten body -----

  /** A predicate with the local that holds its maintained bound. */
  datatype Tracked = Tracked(p: Predicate, bound: nat)

  function Find(tracked: seq<Tracked>, a: nat, b: nat): Option<Tracked> {
    if tracked == [] then None
    else
      var t := tracked[0];
      if (a == t.p.difference && b == t.p.counter) || (b == t.p.difference && a == t.p.counter) then Some(t)
      else Find(tracked[1..], a, b)
  }

  function Rewrite(tracked: seq<Tracked>, e: Expr): Expr
    decreases e, 0
  {
    match e
    case Prim(op, args) =>
      if op == Eq && |args| == 2 && args[0].Local? && args[1].Local? then
        match Find(tracked, args[0].id, args[1].id)
        case Some(t) => Prim(Eq, [Local(t.p.operand), Local(t.bound)])
        case None => e
      else Prim(op, RewriteAll(tracked, args))
    case Let(local, value, body) => Let(local, Rewrite(tracked, value), Rewrite(tracked, body))
    case If(cond, thn, els) => If(Rewrite(tracked, cond), Rewrite(tracked, thn), Rewrite(tracked, els))
    case Recur(args) => Recur(RewriteAll(tracked, args))
    case App(func, args) => App(Rewrite(tracked, func), RewriteAll(tracked, args))
    case MakeData(tag, args) => MakeData(tag, RewriteAll(tracked, args))
    case Foreign(symbol, args) => Foreign(symbol, RewriteAll(tracked, args))
    case DataTag(base) => DataTag(Rewrite(tracked, base))
    case DataField(base, index) => DataField(Rewrite(tracked, base), index)
    case Dup(local, body) => Dup(local, Rewrite(tracked, body))
    case Drop(local, body) => Drop(local, Rewrite(tracked, body))
    case FreeReuse(token, body) => FreeReuse(token, Rewrite(tracked, body))
    case Reset(value, token, body) => Reset(Rewrite(tracked, value), token, Rewrite(tracked, body))
    case _ => e
  }

  function RewriteAll(tracked: seq<Tracked>, args: seq<Expr>): (r: seq<Expr>)
    ensures |r| == |args|
    decreases args, 1
  {
    if args == [] then [] else [Rewrite(tracked, args[0])] + RewriteAll(tracked, args[1..])
  }

  function BoundOf(p: Predicate, inv: I64, counter: I64): I64 {
    if p.sum then Wrap(inv + counter) else Wrap(inv - counter)
  }

  /** The maintained bound of one predicate is what its equality compares with. */
  ghost predicate Holds(defs: Defs, t: Tracked, env: Env, big: Env) {
    && t.p.counter in env && env[t.p.counter].IntV? && t.p.invariant_ in env && env[t.p.invariant_].IntV?
    && t.bound in big && big[t.bound] == IntV(BoundOf(t.p, env[t.p.invariant_].n, env[t.p.counter].n))
    && t.p.difference in defs
    && PeelRc(defs[t.p.difference]) ==
       Prim(IntSub, if t.p.sum then [Local(t.p.operand), Local(t.p.invariant_)]
         else [Local(t.p.invariant_), Local(t.p.operand)])
  }

  ghost predicate AllHold(defs: Defs, tracked: seq<Tracked>, env: Env, big: Env) {
    forall i :: 0 <= i < |tracked| ==> Holds(defs, tracked[i], env, big)
  }

  lemma {:induction false} FindIn(tracked: seq<Tracked>, a: nat, b: nat)
    requires Find(tracked, a, b).Some?
    ensures var t := Find(tracked, a, b).value;
      t in tracked && ((a == t.p.difference && b == t.p.counter) || (b == t.p.difference && a == t.p.counter))
  {
    var t := tracked[0];
    if !((a == t.p.difference && b == t.p.counter) || (b == t.p.difference && a == t.p.counter)) {
      FindIn(tracked[1..], a, b);
    }
  }

  lemma DifferenceValue(ops: Interp, a: nat, b: nat, env: Env)
    requires Eval(ops, Prim(IntSub, [Local(a), Local(b)]), env).Ret?
    ensures a in env && b in env && env[a].IntV? && env[b].IntV?
    ensures Eval(ops, Prim(IntSub, [Local(a), Local(b)]), env) == Ret(IntV(Wrap(env[a].n - env[b].n)))
  {
    var args := [Local(a), Local(b)];
    PlainPair(ops, args, env);
    SubInts(ops, env[a], env[b]);
  }

  lemma SubInts(ops: Interp, x: Value, y: Value)
    requires ApplyNumeric(ops, IntSub, [x, y]).Ret?
    ensures x.IntV? && y.IntV? && ApplyNumeric(ops, IntSub, [x, y]) == Ret(IntV(Wrap(x.n - y.n)))
  {
    hide Wrap;
    assert Types([x, y])[0] == TypeOf(x) && Types([x, y])[1] == TypeOf(y);
  }

  /** Equality with the counter, turned into equality with the bound. */
  lemma BoundEquality(p: Predicate, operand: I64, inv: I64, counter: I64)
    ensures Wrap(if p.sum then operand - inv else inv - operand) == counter <==> operand == BoundOf(p, inv, counter)
  {
    if p.sum {
      WrapResidue(operand - inv, counter);
      WrapResidue(operand, inv + counter);
    } else {
      WrapResidue(inv - operand, counter);
      WrapResidue(operand, inv - counter);
      assert (inv - operand) - counter == -(operand - (inv - counter));
      NegatedResidue(operand - (inv - counter));
    }
  }

  /** `difference == counter` holds exactly when the operand equals the bound. */
  lemma PredicateMeaning(ops: Interp, defs: Defs, t: Tracked, env: Env, big: Env)
    requires Holds(defs, t, env, big) && DefsHold(ops, defs, env) && t.p.difference in env
    ensures env[t.p.difference].IntV? && t.p.operand in env && env[t.p.operand].IntV?
    ensures env[t.p.difference].n == env[t.p.counter].n <==> env[t.p.operand].n == big[t.bound].n
  {
    var p := t.p;
    PeelSame(ops, defs[p.difference], env);
    var left, right := if p.sum then p.operand else p.invariant_, if p.sum then p.invariant_ else p.operand;
    DifferenceValue(ops, left, right, env);
    BoundEquality(p, env[p.operand].n, env[p.invariant_].n, env[p.counter].n);
  }

  lemma NegatedResidue(n: int)
    ensures (-n) % TWO_64 == 0 <==> n % TWO_64 == 0
  {
    var k := n / TWO_64;
    var j := (-n) / TWO_64;
  }

  lemma AllHoldBind(defs: Defs, tracked: seq<Tracked>, env: Env, big: Env, local: nat, v: Value)
    requires AllHold(defs, tracked, env, big) && local !in env && forall t :: t in tracked ==> t.bound != local
    ensures AllHold(defs, tracked, env[local := v], big[local := v])
  {
    forall i | 0 <= i < |tracked| ensures Holds(defs, tracked[i], env[local := v], big[local := v]) {
      assert Holds(defs, tracked[i], env, big) && tracked[i] in tracked;
    }
  }

  /** What every step of the comparison carries along. */
  ghost predicate Ready(ops: Interp, params: seq<nat>, nodes: seq<Expr>, tracked: seq<Tracked>, e: Expr, env: Env,
      big: Env)
  {
    && Walkable(params, nodes) && Closed(nodes) && e in nodes
    && DefsHold(ops, Definitions(nodes), env) && Extends(env, big) && AllHold(Definitions(nodes), tracked, env, big)
    && BoundOnce(e) && Binders(e) !! env.Keys && forall t :: t in tracked ==> t.bound !in Binders(e)
  }

  lemma ReadyChild(ops: Interp, params: seq<nat>, nodes: seq<Expr>, tracked: seq<Tracked>, e: Expr, c: Expr,
      env: Env, big: Env)
    requires Ready(ops, params, nodes, tracked, e, env, big) && c in Children(e)
    ensures Ready(ops, params, nodes, tracked, c, env, big)
  {
    hide Walkable, DefsHold, AllHold, Extends;
    ChildOnce(e, c);
  }

  lemma ChildOnce(e: Expr, c: Expr)
    requires c in Children(e) && BoundOnce(e)
    ensures BoundOnce(c) && Binders(c) <= Binders(e)
  {
    var args := Operands(e);
    if c in args {
      var i :| 0 <= i < |args| && args[i] == c;
      OperandChild(e, i);
    }
  }

  /** The rewritten term evaluates to the same outcome. */
  lemma {:induction false} RewriteSame(ops: Interp, params: seq<nat>, nodes: seq<Expr>, tracked: seq<Tracked>,
      e: Expr, env: Env, big: Env)
    requires Ready(ops, params, nodes, tracked, e, env, big) && Eval(ops, e, env) != Stuck
    ensures Eval(ops, Rewrite(tracked, e), big) == Eval(ops, e, env)
    decreases e, 2, 0
  {
    if e.Local? {
      return;
    }
    hide Ready;
    match e
    case Let(_, _, _) => RewriteLet(ops, params, nodes, tracked, e, env, big);
    case If(_, _, _) => RewriteIf(ops, params, nodes, tracked, e, env, big);
    case Prim(op, args) =>
      if op == Eq && |args| == 2 && args[0].Local? && args[1].Local? {
        RewriteEq(ops, params, nodes, tracked, e, env, big);
      } else {
        RewriteOperands(ops, params, nodes, tracked, e, env, big);
      }
    case Recur(_) => RewriteOperands(ops, params, nodes, tracked, e, env, big);
    case MakeData(_, _) => RewriteOperands(ops, params, nodes, tracked, e, env, big);
    case Foreign(_, _) => RewriteOperands(ops, params, nodes, tracked, e, env, big);
    case App(func, args) =>
      assert func in Children(e) && args[0..] == args;
      ReadyChild(ops, params, nodes, tracked, e, func, env, big);
      RewriteSame(ops, params, nodes, tracked, func, env, big);
      if Eval(ops, func, env).Ret? { RewriteArgs(ops, params, nodes, tracked, e, 0, env, big); }
    case DataTag(_) => RewriteBase(ops, params, nodes, tracked, e, env, big);
    case DataField(_, _) => RewriteBase(ops, params, nodes, tracked, e, env, big);
    case Dup(_, body) =>
      ReadyChild(ops, params, nodes, tracked, e, body, env, big);
      RewriteSame(ops, params, nodes, tracked, body, env, big);
    case Drop(_, body) =>
      ReadyChild(ops, params, nodes, tracked, e, body, env, big);
      RewriteSame(ops, params, nodes, tracked, body, env, big);
    case FreeReuse(_, body) =>
      ReadyChild(ops, params, nodes, tracked, e, body, env, big);
      RewriteSame(ops, params, nodes, tracked, body, env, big);
    case Reset(value, _, body) =>
      ReadyChild(ops, params, nodes, tracked, e, value, env, big);
      ReadyChild(ops, params, nodes, tracked, e, body, env, big);
      RewriteSame(ops, params, nodes, tracked, value, env, big);
      if Eval(ops, value, env).Ret? { RewriteSame(ops, params, nodes, tracked, body, env, big); }
    case MakeClosure(_, captures) =>
      ReadyExtends(ops, params, nodes, tracked, e, env, big);
      WeakenLookup(env, big, captures);
    case _ =>
  }

  lemma {:induction false} RewriteBase(ops: Interp, params: seq<nat>, nodes: seq<Expr>, tracked: seq<Tracked>,
      e: Expr, env: Env, big: Env)
    requires e.DataTag? || e.DataField?
    requires Ready(ops, params, nodes, tracked, e, env, big) && Eval(ops, e, env) != Stuck
    ensures Eval(ops, Rewrite(tracked, e), big) == Eval(ops, e, env)
    decreases e, 1, 0
  {
    hide Ready;
    ReadyChild(ops, params, nodes, tracked, e, e.base, env, big);
    RewriteSame(ops, params, nodes, tracked, e.base, env, big);
  }

  lemma {:induction false} RewriteIf(ops: Interp, params: seq<nat>, nodes: seq<Expr>, tracked: seq<Tracked>,
      e: Expr, env: Env, big: Env)
    requires e.If? && Ready(ops, params, nodes, tracked, e, env, big) && Eval(ops, e, env) != Stuck
    ensures Eval(ops, Rewrite(tracked, e), big) == Eval(ops, e, env)
    decreases e, 1, 0
  {
    hide Ready;
    ReadyChild(ops, params, nodes, tracked, e, e.cond, env, big);
    ReadyChild(ops, params, nodes, tracked, e, e.thn, env, big);
    ReadyChild(ops, params, nodes, tracked, e, e.els, env, big);
    RewriteSame(ops, params, nodes, tracked, e.cond, env, big);
    var c := Eval(ops, e.cond, env);
    if c.Ret? && c.v.BoolV? {
      RewriteSame(ops, params, nodes, tracked, if c.v.b then e.thn else e.els, env, big);
    }
  }

  lemma {:induction false} RewriteOperands(ops: Interp, params: seq<nat>, nodes: seq<Expr>, tracked: seq<Tracked>,
      e: Expr, env: Env, big: Env)
    requires e.Prim? || e.Recur? || e.MakeData? || e.Foreign?
    requires e.Prim? ==> !(e.op == Eq && |e.args| == 2 && e.args[0].Local? && e.args[1].Local?)
    requires Ready(ops, params, nodes, tracked, e, env, big) && Eval(ops, e, env) != Stuck
    ensures Eval(ops, Rewrite(tracked, e), big) == Eval(ops, e, env)
    decreases e, 1, 0
  {
    hide Ready, ApplyNumeric;
    assert e.args[0..] == e.args;
    RewriteArgs(ops, params, nodes, tracked, e, 0, env, big);
  }

  lemma ReadyExtends(ops: Interp, params: seq<nat>, nodes: seq<Expr>, tracked: seq<Tracked>, e: Expr, env: Env,
      big: Env)
    requires Ready(ops, params, nodes, tracked, e, env, big)
    ensures Extends(env, big)
  {
  }

  lemma {:induction false} RewriteLet(ops: Interp, params: seq<nat>, nodes: seq<Expr>, tracked: seq<Tracked>,
      e: Expr, env: Env, big: Env)
    requires e.Let? && Ready(ops, params, nodes, tracked, e, env, big) && Eval(ops, e, env) != Stuck
    ensures Eval(ops, Rewrite(tracked, e), big) == Eval(ops, e, env)
    decreases e, 0, 0
  {
    assert e.value in Children(e) && e.body in Children(e);
    ReadyChild(ops, params, nodes, tracked, e, e.value, env, big);
    RewriteSame(ops, params, nodes, tracked, e.value, env, big);
    var v := Eval(ops, e.value, env);
    if v.Ret? {
      LetIsDefined(params, nodes, e);
      BindDefinition(ops, Definitions(nodes), env, e.local, e.value, v.v);
      AllHoldBind(Definitions(nodes), tracked, env, big, e.local, v.v);
      hide AllHold, DefsHold, Walkable;
      RewriteSame(ops, params, nodes, tracked, e.body, env[e.local := v.v], big[e.local := v.v]);
    }
  }

  lemma HoldsOf(defs: Defs, tracked: seq<Tracked>, t: Tracked, env: Env, big: Env)
    requires AllHold(defs, tracked, env, big) && t in tracked
    ensures Holds(defs, t, env, big)
  {
  }

  /** Both locals of a compared pair have values, and they are integers. */
  lemma FoundSame(ops: Interp, defs: Defs, t: Tracked, a: nat, b: nat, env: Env, big: Env)
    requires Holds(defs, t, env, big) && DefsHold(ops, defs, env) && Extends(env, big)
    requires (a == t.p.difference && b == t.p.counter) || (b == t.p.difference && a == t.p.counter)
    requires Eval(ops, Prim(Eq, [Local(a), Local(b)]), env) != Stuck
    ensures Eval(ops, Prim(Eq, [Local(t.p.operand), Local(t.bound)]), big) ==
      Eval(ops, Prim(Eq, [Local(a), Local(b)]), env)
  {
    hide ApplyNumeric, DefsHold, Holds;
    LocalsBound(ops, a, b, env);
    PredicateMeaning(ops, defs, t, env, big);
    HoldsBound(defs, t, env, big);
    LocalPair(ops, t.p.operand, t.bound, big);
    LocalPair(ops, a, b, env);
  }

  lemma HoldsBound(defs: Defs, t: Tracked, env: Env, big: Env)
    requires Holds(defs, t, env, big)
    ensures t.p.counter in env && env[t.p.counter].IntV? && t.bound in big && big[t.bound].IntV?
  {
  }

  lemma LocalsBound(ops: Interp, a: nat, b: nat, env: Env)
    requires Eval(ops, Prim(Eq, [Local(a), Local(b)]), env) != Stuck
    ensures a in env && b in env
  {
    var one, both := [Local(b)], [Local(a), Local(b)];
    assert one[0] == Local(b) && one[1..] == [] && both[0] == Local(a) && both[1..] == one;
    assert EvalArgs(ops, [], env) == Vals([]);
    assert EvalArgs(ops, one, env) == if b in env then Vals([env[b]] + []) else Stop(Stuck);
    assert EvalArgs(ops, both, env) ==
      if a in env && b in env then Vals([env[a]] + ([env[b]] + [])) else Stop(Stuck);
  }

  lemma RewriteEq(ops: Interp, params: seq<nat>, nodes: seq<Expr>, tracked: seq<Tracked>, e: Expr, env: Env, big: Env)
    requires e.Prim? && e.op == Eq && |e.args| == 2 && e.args[0].Local? && e.args[1].Local?
    requires Ready(ops, params, nodes, tracked, e, env, big) && Eval(ops, e, env) != Stuck
    ensures Eval(ops, Rewrite(tracked, e), big) == Eval(ops, e, env)
  {
    hide DefsHold, AllHold, Walkable, Definitions, ApplyNumeric;
    var a, b := e.args[0].id, e.args[1].id;
    assert e.args == [Local(a), Local(b)];
    match Find(tracked, a, b)
    case None => Weaken(ops, e, env, big);
    case Some(t) =>
      FindIn(tracked, a, b);
      HoldsOf(Definitions(nodes), tracked, t, env, big);
      FoundSame(ops, Definitions(nodes), t, a, b, env, big);
  }

  /** Equality of two integer locals. */
  lemma LocalPair(ops: Interp, a: nat, b: nat, env: Env)
    requires a in env && b in env && env[a].IntV? && env[b].IntV?
    ensures Eval(ops, Prim(Eq, [Local(a), Local(b)]), env) == Ret(BoolV(env[a].n == env[b].n))
  {
    var args := [Local(a), Local(b)];
    assert args[1..] == [Local(b)];
    assert EvalArgs(ops, [Local(b)][1..], env) == Vals([]);
    assert EvalArgs(ops, [Local(b)], env) == Vals([env[b]]);
    assert [env[a]] + [env[b]] == [env[a], env[b]];
    assert EvalArgs(ops, args, env) == Vals([env[a], env[b]]);
    assert Types([env[a], env[b]]) == [TInt, TInt];
  }

  function Operands(e: Expr): seq<Expr> {
    match e
    case Prim(_, args) => args
    case Recur(args) => args
    case MakeData(_, args) => args
    case Foreign(_, args) => args
    case App(_, args) => args
    case _ => []
  }

  lemma {:induction false} RewriteArgs(ops: Interp, params: seq<nat>, nodes: seq<Expr>, tracked: seq<Tracked>,
      e: Expr, i: nat, env: Env, big: Env)
    requires Ready(ops, params, nodes, tracked, e, env, big) && i <= |Operands(e)|
    requires EvalArgs(ops, Operands(e)[i..], env) != Stop(Stuck)
    ensures EvalArgs(ops, RewriteAll(tracked, Operands(e)[i..]), big) == EvalArgs(ops, Operands(e)[i..], env)
    decreases e, 0, |Operands(e)| - i
  {
    var args := Operands(e);
    if i < |args| {
      assert args[i..][0] == args[i] && args[i..][1..] == args[i + 1..];
      OperandChild(e, i);
      ReadyChild(ops, params, nodes, tracked, e, args[i], env, big);
      RewriteSame(ops, params, nodes, tracked, args[i], env, big);
      var rewritten := RewriteAll(tracked, args[i..]);
      assert rewritten[1..] == RewriteAll(tracked, args[i + 1..]);
      if Eval(ops, args[i], env).Ret? {
        RewriteArgs(ops, params, nodes, tracked, e, i + 1, env, big);
      }
    }
  }

  lemma OperandChild(e: Expr, i: nat)
    requires i < |Operands(e)|
    ensures Operands(e)[i] in Children(e) && Operands(e)[i] < e
    ensures BoundOnce(e) ==> BoundOnce(Operands(e)[i])
    ensures Binders(Operands(e)[i]) <= Binders(e)
  {
    ArgBinders(Operands(e), i);
  }

  // ----- whole runs -----

  /** The interpretation of opaque operations may differ from iteration to iteration. */
  type Runtime = nat -> Interp

  function Run(runtime: Runtime, params: seq<nat>, body: Expr, vals: seq<Value>, k: nat, fuel: nat): Final
    requires |vals| == |params|
    decreases fuel
  {
    match Iterate(runtime(k), params, body, vals)
    case Back(next) =>
      if |next| != |params| then Done(Stuck)
      else if fuel == 0 then OutOfFuel else Run(runtime, params, body, next, k + 1, fuel - 1)
    case o => Done(o)
  }

  function BoundLocals(tracked: seq<Tracked>): (r: seq<nat>)
    ensures |r| == |tracked|
    ensures forall i :: 0 <= i < |tracked| ==> r[i] == tracked[i].bound
  {
    seq(|tracked|, i requires 0 <= i < |tracked| => tracked[i].bound)
  }

  function IntVals(ns: seq<I64>): (r: seq<Value>)
    ensures |r| == |ns|
    ensures forall i :: 0 <= i < |ns| ==> r[i] == IntV(ns[i])
  {
    seq(|ns|, i requires 0 <= i < |ns| => IntV(ns[i]))
  }

  /** Each bound moves by its step, negated for a difference. */
  function Advance(tracked: seq<Tracked>, bounds: seq<I64>): (r: seq<I64>)
    requires |bounds| == |tracked|
    ensures |r| == |bounds|
    ensures forall i :: 0 <= i < |bounds| ==>
      r[i] == Wrap(bounds[i] + if tracked[i].p.sum then tracked[i].p.step else Wrap(0 - tracked[i].p.step))
  {
    seq(|bounds|, i requires 0 <= i < |bounds| =>
      Wrap(bounds[i] + if tracked[i].p.sum then tracked[i].p.step else Wrap(0 - tracked[i].p.step)))
  }

  function BigEnv(params: seq<nat>, vals: seq<Value>, tracked: seq<Tracked>, bounds: seq<I64>): Env
    requires |vals| == |params| && |bounds| == |tracked|
  {
    Bind(params + BoundLocals(tracked), vals + IntVals(bounds))
  }

  /** The rewritten loop carries one more variable for each predicate. */
  function RunRewritten(runtime: Runtime, params: seq<nat>, body: Expr, tracked: seq<Tracked>, vals: seq<Value>,
      bounds: seq<I64>, k: nat, fuel: nat): Final
    requires |vals| == |params| && |bounds| == |tracked|
    decreases fuel
  {
    match Eval(runtime(k), Rewrite(tracked, body), BigEnv(params, vals, tracked, bounds))
    case Back(next) =>
      if |next| != |params| then Done(Stuck)
      else if fuel == 0 then OutOfFuel
      else RunRewritten(runtime, params, body, tracked, next, Advance(tracked, bounds), k + 1, fuel - 1)
    case o => Done(o)
  }

  /** Every tracked predicate was planned, and the new locals are distinct and fresh. */
  ghost predicate Tracking(params: seq<nat>, body: Expr, tracked: seq<Tracked>) {
    && (forall t :: t in tracked ==> t.p in PlanOf(params, body) && t.bound !in Binders(body))
    && Distinct(params + BoundLocals(tracked))
    && BoundOnce(body) && Binders(body) !! ParamSet(params)
  }

  function ValueOf(params: seq<nat>, vals: seq<Value>, x: nat): Value
    requires |vals| == |params|
  {
    if x in Bind(params, vals) then Bind(params, vals)[x] else UnitV
  }

  /** The maintained bounds are the ones the predicates compare with. */
  ghost predicate Maintained(params: seq<nat>, tracked: seq<Tracked>, vals: seq<Value>, bounds: seq<I64>)
    requires |vals| == |params|
  {
    |bounds| == |tracked| && forall i :: 0 <= i < |tracked| ==>
      var p := tracked[i].p;
      && ValueOf(params, vals, p.counter).IntV? && ValueOf(params, vals, p.invariant_).IntV?
      && bounds[i] == BoundOf(p, ValueOf(params, vals, p.invariant_).n, ValueOf(params, vals, p.counter).n)
  }

  lemma AdvanceBound(p: Predicate, inv: I64, counter: I64)
    ensures BoundOf(p, inv, Wrap(counter + p.step)) ==
      Wrap(BoundOf(p, inv, counter) + if p.sum then p.step else Wrap(0 - p.step))
  {
    var i: int, c: int, s: int := inv, counter, p.step;
    hide Wrap;
    if p.sum {
      WrapSum(i + c, s);
      WrapSum(c + s, i);
    } else {
      WrapSum(i - c, Wrap(0 - s) as int);
      WrapSum(0 - s, i - c);
      WrapDifference(i, c + s);
    }
  }

  lemma WrapDifference(a: int, b: int)
    ensures Wrap(a - Wrap(b)) == Wrap(a - b)
  {
    WrapDiffers(b);
    WrapResidue(a - Wrap(b), a - b);
    NegatedResidue(Wrap(b) - b);
    assert (a - Wrap(b)) - (a - b) == -(Wrap(b) - b);
  }

  lemma PlanWalkable(params: seq<nat>, body: Expr, p: Predicate) returns (c: nat, i: nat)
    requires p in PlanOf(params, body)
    ensures var nodes := Nodes([body]);
      && Walkable(params, nodes) && Calls(nodes) != [] && Closed(nodes) && body in nodes
      && (forall k :: 0 <= k < |Calls(nodes)| ==> |Calls(nodes)[k]| == |params|)
      && Meaning(params, nodes, p, c, i)
  {
    var nodes := Nodes([body]);
    CallsHaveArity(params, nodes);
    NodesClosed([body]);
    PendingVisited([body]);
    hide StepsTo;
    c, i := FoundMeans(params, nodes, |nodes|, p);
  }

  lemma EnvAtEntry(params: seq<nat>, body: Expr, tracked: seq<Tracked>, vals: seq<Value>, bounds: seq<I64>)
    requires |vals| == |params| && Tracking(params, body, tracked) && Maintained(params, tracked, vals, bounds)
    ensures var env, big := Bind(params, vals), BigEnv(params, vals, tracked, bounds);
      && Extends(env, big) && env.Keys == ParamSet(params)
      && forall i :: 0 <= i < |tracked| ==> tracked[i].bound in big && big[tracked[i].bound] == IntV(bounds[i])
  {
    hide Bind, PlanOf;
    ParamsDistinct(params, tracked);
    BindValues(params, vals);
    BindMore(params, vals, BoundLocals(tracked), IntVals(bounds));
  }

  lemma BindMore(params: seq<nat>, vals: seq<Value>, extra: seq<nat>, extraVals: seq<Value>)
    requires |vals| == |params| && |extra| == |extraVals| && Distinct(params + extra) && Distinct(params)
    ensures var env, big := Bind(params, vals), Bind(params + extra, vals + extraVals);
      Extends(env, big) && forall i :: 0 <= i < |extra| ==> extra[i] in big && big[extra[i]] == extraVals[i]
  {
    hide Distinct;
    var env, big := Bind(params, vals), Bind(params + extra, vals + extraVals);
    BindValues(params, vals);
    hide Bind;
    forall x | x in env ensures x in big && big[x] == env[x] {
      var i :| 0 <= i < |params| && params[i] == x;
      BindFirst(params, vals, extra, extraVals, i);
    }
    forall i | 0 <= i < |extra| ensures extra[i] in big && big[extra[i]] == extraVals[i] {
      BindLast(params, vals, extra, extraVals, i);
    }
  }

  lemma BindFirst(params: seq<nat>, vals: seq<Value>, extra: seq<nat>, extraVals: seq<Value>, i: nat)
    requires |vals| == |params| && |extra| == |extraVals| && Distinct(params + extra) && Distinct(params) &&
      i < |params|
    ensures params[i] in Bind(params, vals) && params[i] in Bind(params + extra, vals + extraVals)
    ensures Bind(params, vals)[params[i]] == vals[i] == Bind(params + extra, vals + extraVals)[params[i]]
  {
    hide Bind, Distinct;
    BindAt(params, vals, i);
    BindAt(params + extra, vals + extraVals, i);
  }

  lemma BindLast(params: seq<nat>, vals: seq<Value>, extra: seq<nat>, extraVals: seq<Value>, i: nat)
    requires |vals| == |params| && |extra| == |extraVals| && Distinct(params + extra) && i < |extra|
    ensures extra[i] in Bind(params + extra, vals + extraVals) &&
      Bind(params + extra, vals + extraVals)[extra[i]] == extraVals[i]
  {
    hide Bind, Distinct;
    BindAt(params + extra, vals + extraVals, |params| + i);
  }

  lemma HoldsAtEntry(params: seq<nat>, body: Expr, tracked: seq<Tracked>, vals: seq<Value>, bounds: seq<I64>, j: nat)
    requires |vals| == |params| && Tracking(params, body, tracked) && Maintained(params, tracked, vals, bounds)
    requires j < |tracked|
    ensures Holds(Definitions(Nodes([body])), tracked[j], Bind(params, vals), BigEnv(params, vals, tracked, bounds))
  {
    hide PlanOf, Nodes, Walkable, Bind, BigEnv, StepOf, Distinct, Definitions, Calls;
    EnvAtEntry(params, body, tracked, vals, bounds);
    assert tracked[j] in tracked;
    var c, i := PlanWalkable(params, body, tracked[j].p);
    assert ValueOf(params, vals, tracked[j].p.counter).IntV?;
  }

  lemma ReadyAtEntry(ops: Interp, params: seq<nat>, body: Expr, tracked: seq<Tracked>, vals: seq<Value>,
      bounds: seq<I64>)
    requires |vals| == |params| && Tracking(params, body, tracked) && Maintained(params, tracked, vals, bounds) &&
      tracked != []
    ensures Ready(ops, params, Nodes([body]), tracked, body, Bind(params, vals), BigEnv(params, vals, tracked, bounds))
  {
    hide PlanOf, Nodes, Walkable, Bind, BigEnv, Distinct, Holds, Closed, DefsHold;
    EnvAtEntry(params, body, tracked, vals, bounds);
    var env, big := Bind(params, vals), BigEnv(params, vals, tracked, bounds);
    forall j | 0 <= j < |tracked| ensures Holds(Definitions(Nodes([body])), tracked[j], env, big) {
      HoldsAtEntry(params, body, tracked, vals, bounds, j);
    }
    assert tracked[0] in tracked;
    var c, i := PlanWalkable(params, body, tracked[0].p);
    NothingDefined(ops, body, env);
  }

  lemma {:induction false} NodesBinders(pending: seq<Expr>)
    ensures forall e :: e in Nodes(pending) ==> Binders(e) <= BindersIn(pending)
    decreases SizeAll(pending)
  {
    if pending != [] {
      var n := |pending| - 1;
      NextNode(pending);
      var more := pending[..n] + Children(pending[n]);
      NodesBinders(more);
      BindersAppend(pending[..n], Children(pending[n]));
      BindersAppend(pending[..n], [pending[n]]);
      assert pending == pending[..n] + [pending[n]] && [pending[n]][1..] == [];
      ChildBinders(pending[n]);
    }
  }

  lemma {:induction false} BindersAppend(xs: seq<Expr>, ys: seq<Expr>)
    ensures BindersIn(xs + ys) == BindersIn(xs) + BindersIn(ys)
    decreases |xs|
  {
    if xs == [] {
      assert xs + ys == ys;
    } else {
      assert (xs + ys)[0] == xs[0] && (xs + ys)[1..] == xs[1..] + ys;
      BindersAppend(xs[1..], ys);
    }
  }

  lemma ChildBinders(e: Expr)
    ensures BindersIn(Children(e)) <= Binders(e)
  {
    match e
    case Let(_, value, body) => BindersPair(value, body);
    case Reset(value, _, body) => BindersPair(value, body);
    case If(cond, thn, els) =>
      BindersPair(thn, els);
      assert [cond, thn, els][1..] == [thn, els];
    case App(func, args) => assert ([func] + args)[1..] == args;
    case DataTag(base) => assert [base][1..] == [];
    case DataField(base, _) => assert [base][1..] == [];
    case Dup(_, body) => assert [body][1..] == [];
    case Drop(_, body) => assert [body][1..] == [];
    case FreeReuse(_, body) => assert [body][1..] == [];
    case _ =>
  }

  lemma BindersPair(a: Expr, b: Expr)
    ensures BindersIn([a, b]) == Binders(a) + Binders(b)
  {
    assert [a, b][1..] == [b] && [b][1..] == [];
    assert BindersIn([b]) == Binders(b);
  }

  lemma {:induction false} DefinedByLet(nodes: seq<Expr>, x: nat)
    requires x in Definitions(nodes)
    ensures exists e :: e in nodes && e.Let? && e.local == x
  {
    var n := |nodes| - 1;
    if !(nodes[n].Let? && nodes[n].local == x) {
      DefinedByLet(nodes[..n], x);
      var e :| e in nodes[..n] && e.Let? && e.local == x;
      assert e in nodes;
    }
  }

  /** Before the first let no definition is in scope. */
  lemma NothingDefined(ops: Interp, body: Expr, env: Env)
    requires Binders(body) !! env.Keys
    ensures DefsHold(ops, Definitions(Nodes([body])), env)
  {
    forall x | x in Definitions(Nodes([body])) ensures x !in env {
      DefinedByLet(Nodes([body]), x);
      NodesBinders([body]);
      assert [body][1..] == [] && BindersIn([body]) == Binders(body);
      var e :| e in Nodes([body]) && e.Let? && e.local == x;
    }
  }

  /** One iteration: the same outcome, and the bounds still hold at the back-edge. */
  lemma IterationSame(ops: Interp, params: seq<nat>, body: Expr, tracked: seq<Tracked>, vals: seq<Value>,
      bounds: seq<I64>)
    requires |vals| == |params| && Tracking(params, body, tracked) && Maintained(params, tracked, vals, bounds) &&
      tracked != []
    requires Iterate(ops, params, body, vals) != Stuck
    ensures var o := Iterate(ops, params, body, vals);
      && Eval(ops, Rewrite(tracked, body), BigEnv(params, vals, tracked, bounds)) == o
      && (o.Back? ==> |o.vals| == |params| && Maintained(params, tracked, o.vals, Advance(tracked, bounds)))
  {
    ReadyAtEntry(ops, params, body, tracked, vals, bounds);
    RewriteSame(ops, params, Nodes([body]), tracked, body, Bind(params, vals), BigEnv(params, vals, tracked, bounds));
    var o := Iterate(ops, params, body, vals);
    if o.Back? {
      hide Ready, PlanOf, BigEnv, Eval, Maintained, Tracking;
      assert tracked[0] in tracked;
      NextArity(ops, params, body, tracked, vals);
      NextMaintained(ops, params, body, tracked, vals, bounds);
    }
  }

  lemma NextArity(ops: Interp, params: seq<nat>, body: Expr, tracked: seq<Tracked>, vals: seq<Value>)
    requires |vals| == |params| && Tracking(params, body, tracked) && tracked != [] &&
      Iterate(ops, params, body, vals).Back?
    ensures |Iterate(ops, params, body, vals).vals| == |params|
  {
    assert tracked[0] in tracked;
    hide PlanOf, Bind, Nodes;
    var c, i := PlanWalkable(params, body, tracked[0].p);
    ParamsDistinct(params, tracked);
    BindValues(params, vals);
    NothingDefined(ops, body, Bind(params, vals));
    var args, at := BackEdge(ops, params, Nodes([body]), body, Bind(params, vals));
    RecurIsCalled(Nodes([body]), Recur(args));
  }

  lemma ParamsDistinct(params: seq<nat>, tracked: seq<Tracked>)
    requires Distinct(params + BoundLocals(tracked))
    ensures Distinct(params)
  {
    var all := params + BoundLocals(tracked);
    forall i, j | 0 <= i < j < |params| ensures params[i] != params[j] {
      assert all[i] == params[i] && all[j] == params[j];
    }
  }

  lemma NextMaintained(ops: Interp, params: seq<nat>, body: Expr, tracked: seq<Tracked>, vals: seq<Value>,
      bounds: seq<I64>)
    requires |vals| == |params| && Tracking(params, body, tracked) && Maintained(params, tracked, vals, bounds)
    requires Iterate(ops, params, body, vals).Back? && |Iterate(ops, params, body, vals).vals| == |params|
    ensures Maintained(params, tracked, Iterate(ops, params, body, vals).vals, Advance(tracked, bounds))
  {
    hide PlanOf, Bind, Nodes, Eval, StepOf, BoundOf;
    var next := Iterate(ops, params, body, vals).vals;
    ParamsDistinct(params, tracked);
    forall j | 0 <= j < |tracked|
      ensures var p := tracked[j].p;
        && ValueOf(params, next, p.counter).IntV? && ValueOf(params, next, p.invariant_).IntV?
        && Advance(tracked, bounds)[j] == BoundOf(p, ValueOf(params, next, p.invariant_).n,
          ValueOf(params, next, p.counter).n)
    {
      assert tracked[j] in tracked;
      NextOne(ops, params, body, tracked[j].p, vals);
      AdvanceBound(tracked[j].p, ValueOf(params, vals, tracked[j].p.invariant_).n,
        ValueOf(params, vals, tracked[j].p.counter).n);
    }
  }

  lemma NextOne(ops: Interp, params: seq<nat>, body: Expr, p: Predicate, vals: seq<Value>)
    requires |vals| == |params| && p in PlanOf(params, body) && Distinct(params)
    requires BoundOnce(body) && Binders(body) !! ParamSet(params)
    requires Iterate(ops, params, body, vals).Back? && |Iterate(ops, params, body, vals).vals| == |params|
    requires ValueOf(params, vals, p.counter).IntV? && ValueOf(params, vals, p.invariant_).IntV?
    ensures var next := Iterate(ops, params, body, vals).vals;
      && ValueOf(params, next, p.counter) == IntV(Wrap(ValueOf(params, vals, p.counter).n + p.step))
      && ValueOf(params, next, p.invariant_) == ValueOf(params, vals, p.invariant_)
  {
    hide PlanOf, Bind, Nodes, Eval, StepOf;
    var nodes := Nodes([body]);
    var env := Bind(params, vals);
    var c, i := PlanWalkable(params, body, p);
    BindValues(params, vals);
    BindValues(params, Iterate(ops, params, body, vals).vals);
    NothingDefined(ops, body, env);
    StepSound(ops, params, nodes, body, env, c, p.step);
    StepSound(ops, params, nodes, body, env, i, 0);
  }

  /** The rewritten loop and the original one finish alike after any number of
      iterations, from any arguments at which the bounds start right. */
  lemma {:induction false} RewritingPreservesRuns(runtime: Runtime, params: seq<nat>, body: Expr,
      tracked: seq<Tracked>, vals: seq<Value>, bounds: seq<I64>, k: nat, fuel: nat)
    requires |vals| == |params| && |bounds| == |tracked| && tracked != []
    requires Tracking(params, body, tracked) && Maintained(params, tracked, vals, bounds)
    requires Run(runtime, params, body, vals, k, fuel) != Done(Stuck)
    ensures RunRewritten(runtime, params, body, tracked, vals, bounds, k, fuel) ==
      Run(runtime, params, body, vals, k, fuel)
    decreases fuel
  {
    hide Tracking, Maintained, Iterate, Eval, Rewrite, BigEnv;
    IterationSame(runtime(k), params, body, tracked, vals, bounds);
    var o := Iterate(runtime(k), params, body, vals);
    if o.Back? && fuel > 0 {
      RewritingPreservesRuns(runtime, params, body, tracked, o.vals, Advance(tracked, bounds), k + 1, fuel - 1);
    }
  }
}
