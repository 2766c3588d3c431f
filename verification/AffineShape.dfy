/** Which comparisons are reported: a description of the loop body by what occurs in it,
    without the walk's worklist and tables, that every reported predicate meets and that is
    reported whenever fewer than four are. */
module AffineShape {
  import opened Machine
  import opened Primitives
  import opened Core
  import opened CoreLoop
  import opened AffinePlan

  // ----- what occurs in a term -----

  datatype Query =
    | AnyNode | InnerLoop | OtherArity(arity: nat) | Is(node: Expr) | Binds(local: nat) | UsesOf(local: nat)

  /** What a node itself counts for. */
  function Own(q: Query, e: Expr): nat {
    match q
    case AnyNode => 1
    case InnerLoop => if e.Join? then 1 else 0
    case OtherArity(arity) => if e.Recur? && |e.args| != arity then 1 else 0
    case Is(node) => if e == node then 1 else 0
    case Binds(x) => if e.Let? && e.local == x then 1 else 0
    case UsesOf(x) => OwnUses(e, x)
  }

  /** The count over a term and everything inside it. */
  function Occurs(q: Query, e: Expr): nat
    decreases Size(e), 1
  {
    ChildrenSize(e);
    Own(q, e) + OccursIn(q, Children(e))
  }

  function OccursIn(q: Query, es: seq<Expr>): nat
    decreases SizeAll(es), 2
  {
    if es == [] then 0
    else LastSize(es); OccursIn(q, es[..|es| - 1]) + Occurs(q, es[|es| - 1])
  }

  lemma LastSize(es: seq<Expr>)
    requires es != []
    ensures SizeAll(es) == SizeAll(es[..|es| - 1]) + Size(es[|es| - 1]) && Size(es[|es| - 1]) > 0
  {
  }

  ghost predicate Has(body: Expr, e: Expr) {
    Occurs(Is(e), body) > 0
  }

  /** Some let in the body binds `x` to `v`. */
  ghost predicate Defines(body: Expr, x: nat, v: Expr) {
    exists rest :: Has(body, Let(x, v, rest))
  }

  /** A body the walk completes: small, without inner loops, every back-edge passing every
      parameter, every local bound at most once. */
  ghost predicate Scannable(params: seq<nat>, body: Expr) {
    && Occurs(AnyNode, body) <= 512 && Occurs(InnerLoop, body) == 0 && Occurs(OtherArity(|params|), body) == 0
    && forall x :: Occurs(Binds(x), body) <= 1
  }

  predicate AddsLiteral(op: Prim, args: seq<Expr>) {
    (op == IntAdd || op == IntSub) && |args| == 2 && args[1].Lit? && args[1].lit.IntLit?
  }

  /** The term is parameter `x` plus the wrapping constant `k`, through at most `depth` steps. */
  ghost predicate Adds(params: seq<nat>, body: Expr, e: Expr, depth: nat, x: nat, k: I64)
    decreases depth, 0
  {
    depth > 0 &&
    match PeelRc(e)
    case Local(y) =>
      if y in params then x == y && k == 0
      else exists v :: Defines(body, y, v) && Adds(params, body, v, depth - 1, x, k)
    case Prim(op, args) =>
      AddsLiteral(op, args) && AddsMore(params, body, args[0], depth - 1, x, k, op, args[1].lit.n)
    case _ => false
  }

  /** `e` is the parameter plus a constant to which the literal is added, or taken from. */
  ghost predicate AddsMore(params: seq<nat>, body: Expr, e: Expr, depth: nat, x: nat, k: I64, op: Prim, n: I64)
    decreases depth, 1
  {
    exists base: I64 :: Adds(params, body, e, depth, x, base) && k == Wrap(if op == IntAdd then base + n else base - n)
  }

  /** There is a back-edge, and every one adds `k` to parameter `x`. */
  ghost predicate StepsBy(params: seq<nat>, body: Expr, x: nat, k: I64) {
    && (exists args :: Has(body, Recur(args)))
    && exists i :: 0 <= i < |params| && params[i] == x &&
         forall args :: Has(body, Recur(args)) ==> i < |args| && Adds(params, body, args[i], 8, x, k)
  }

  ghost predicate Compares(body: Expr, a: nat, b: nat) {
    Has(body, Prim(Eq, [Local(a), Local(b)])) || Has(body, Prim(Eq, [Local(b), Local(a)]))
  }

  /** Which operand of the difference stays: the right one if both do. */
  ghost predicate Splits(params: seq<nat>, body: Expr, left: nat, right: nat, p: Predicate) {
    if StepsBy(params, body, right, 0) then p.operand == left && p.invariant_ == right && p.sum
    else StepsBy(params, body, left, 0) && p.operand == right && p.invariant_ == left && !p.sum
  }

  /** A difference used nowhere else, one of whose operands stays, and a counter that steps. */
  ghost predicate Advances(params: seq<nat>, body: Expr, p: Predicate) {
    && StepsBy(params, body, p.counter, p.step) && p.step != 0
    && Occurs(UsesOf(p.difference), body) == 1
    && exists v, left, right :: IsDifference(body, p.difference, v, left, right) && Splits(params, body, left, right, p)
  }

  ghost predicate IsDifference(body: Expr, x: nat, v: Expr, left: nat, right: nat) {
    Defines(body, x, v) && PeelRc(v) == Prim(IntSub, [Local(left), Local(right)])
  }

  /** The comparison of such a difference with its counter. */
  ghost predicate Qualifies(params: seq<nat>, body: Expr, p: Predicate) {
    Scannable(params, body) && Compares(body, p.difference, p.counter) && Advances(params, body, p)
  }

  // ----- the walk meets every node once -----

  function Sum(q: Query, nodes: seq<Expr>): nat {
    if nodes == [] then 0 else Sum(q, nodes[..|nodes| - 1]) + Own(q, nodes[|nodes| - 1])
  }

  lemma {:induction false} SumCons(q: Query, e: Expr, nodes: seq<Expr>)
    ensures Sum(q, [e] + nodes) == Own(q, e) + Sum(q, nodes)
    decreases |nodes|
  {
    var all := [e] + nodes;
    if nodes == [] {
      assert all[..0] == [];
    } else {
      SumCons(q, e, nodes[..|nodes| - 1]);
      assert all[..|all| - 1] == [e] + nodes[..|nodes| - 1];
    }
  }

  lemma {:induction false} OccursAppend(q: Query, xs: seq<Expr>, ys: seq<Expr>)
    ensures OccursIn(q, xs + ys) == OccursIn(q, xs) + OccursIn(q, ys)
    decreases |ys|
  {
    hide Occurs;
    if ys == [] {
      assert xs + ys == xs;
    } else {
      OccursAppend(q, xs, ys[..|ys| - 1]);
      assert (xs + ys)[..|xs + ys| - 1] == xs + ys[..|ys| - 1];
    }
  }

  lemma {:induction false} NodesSum(q: Query, pending: seq<Expr>)
    ensures Sum(q, Nodes(pending)) == OccursIn(q, pending)
    decreases SizeAll(pending)
  {
    hide Nodes, Own, Sum;
    if pending == [] {
      NoNodes(q);
    } else {
      var n := |pending| - 1;
      var e := pending[n];
      NextNode(pending);
      var more := pending[..n] + Children(e);
      NodesSum(q, more);
      SumCons(q, e, Nodes(more));
      OccursAppend(q, pending[..n], Children(e));
    }
  }

  lemma NoNodes(q: Query)
    ensures Nodes([]) == [] && Sum(q, []) == 0
  {
  }

  lemma BodySum(q: Query, body: Expr)
    ensures Sum(q, Nodes([body])) == Occurs(q, body)
  {
    hide Nodes, Sum, Occurs;
    NodesSum(q, [body]);
    assert [body][..0] == [];
    assert OccursIn(q, []) == 0;
  }

  lemma {:induction false} SumMember(nodes: seq<Expr>, e: Expr)
    ensures Sum(Is(e), nodes) > 0 <==> e in nodes
  {
    if nodes != [] {
      var n := |nodes| - 1;
      SumMember(nodes[..n], e);
      assert nodes == nodes[..n] + [nodes[n]];
    }
  }

  lemma HasMember(body: Expr, e: Expr)
    ensures Has(body, e) <==> e in Nodes([body])
  {
    hide Nodes, Occurs, Sum;
    BodySum(Is(e), body);
    SumMember(Nodes([body]), e);
  }

  lemma {:induction false} SumUses(nodes: seq<Expr>, x: nat)
    ensures Sum(UsesOf(x), nodes) == UseCount(nodes, x)
  {
    hide OwnUses;
    if nodes != [] { SumUses(nodes[..|nodes| - 1], x); }
  }

  lemma {:induction false} SumLength(nodes: seq<Expr>)
    ensures Sum(AnyNode, nodes) == |nodes|
  {
    if nodes != [] { SumLength(nodes[..|nodes| - 1]); }
  }

  lemma {:induction false} SumBinds(nodes: seq<Expr>, x: nat)
    ensures Sum(Binds(x), nodes) > 0 <==> x in Definitions(nodes)
  {
    if nodes != [] { SumBinds(nodes[..|nodes| - 1], x); }
  }

  /** The walk completes exactly on the bodies described. */
  lemma {:induction false} WalkableExact(params: seq<nat>, nodes: seq<Expr>)
    ensures Walkable(params, nodes) <==>
      && Sum(AnyNode, nodes) <= 512 && Sum(InnerLoop, nodes) == 0 && Sum(OtherArity(|params|), nodes) == 0
      && forall x :: Sum(Binds(x), nodes) <= 1
  {
    if nodes != [] {
      hide Definitions;
      var n := |nodes| - 1;
      WalkableExact(params, nodes[..n]);
      SumLength(nodes[..n]);
      SumLength(nodes);
      if nodes[n].Let? { SumBinds(nodes[..n], nodes[n].local); }
      forall x ensures Sum(Binds(x), nodes) == Sum(Binds(x), nodes[..n]) + Own(Binds(x), nodes[n]) {}
    } else {
      assert forall x :: Sum(Binds(x), []) == 0;
    }
  }

  lemma ScannableExact(params: seq<nat>, body: Expr)
    ensures Walkable(params, Nodes([body])) <==> Scannable(params, body)
  {
    hide Nodes, Occurs, Sum, Walkable;
    WalkableExact(params, Nodes([body]));
    BodySum(AnyNode, body);
    BodySum(InnerLoop, body);
    BodySum(OtherArity(|params|), body);
    forall x ensures Sum(Binds(x), Nodes([body])) == Occurs(Binds(x), body) { BodySum(Binds(x), body); }
  }

  lemma {:induction false} DefinitionsAre(params: seq<nat>, nodes: seq<Expr>, x: nat, v: Expr)
    requires Walkable(params, nodes)
    ensures x in Definitions(nodes) && Definitions(nodes)[x] == v <==> exists rest :: Let(x, v, rest) in nodes
  {
    if nodes != [] {
      var n := |nodes| - 1;
      var before := nodes[..n];
      DefinitionsAre(params, before, x, v);
      assert nodes == before + [nodes[n]];
      if rest :| Let(x, v, rest) in before { SumMemberBinds(before, x, v, rest); }
      if nodes[n].Let? && nodes[n].local == x {
        assert nodes[n] == Let(x, nodes[n].value, nodes[n].body);
      }
    }
  }

  lemma {:induction false} SumMemberBinds(nodes: seq<Expr>, x: nat, v: Expr, rest: Expr)
    requires Let(x, v, rest) in nodes
    ensures x in Definitions(nodes)
  {
    var n := |nodes| - 1;
    if nodes[n] != Let(x, v, rest) {
      assert nodes == nodes[..n] + [nodes[n]];
      SumMemberBinds(nodes[..n], x, v, rest);
    }
  }

  lemma DefinesExact(params: seq<nat>, body: Expr, x: nat, v: Expr)
    requires Scannable(params, body)
    ensures var defs := Definitions(Nodes([body])); x in defs && defs[x] == v <==> Defines(body, x, v)
  {
    hide Nodes, Definitions, Has, Scannable, Walkable;
    var nodes := Nodes([body]);
    ScannableExact(params, body);
    DefinitionsAre(params, nodes, x, v);
    forall rest ensures Has(body, Let(x, v, rest)) <==> Let(x, v, rest) in nodes { HasMember(body, Let(x, v, rest)); }
  }

  // ----- offsets and steps -----

  lemma {:induction false} OffsetExact(params: seq<nat>, body: Expr, e: Expr, depth: nat, x: nat, k: I64)
    requires Scannable(params, body)
    ensures Offset(e, params, Definitions(Nodes([body])), depth) == Some((x, k)) <==>
      Adds(params, body, e, depth, x, k)
    decreases depth, 1
  {
    hide Scannable, Nodes, Definitions, Defines, PeelRc, AddsMore, Wrap;
    var defs := Definitions(Nodes([body]));
    if depth > 0 {
      match PeelRc(e)
      case Local(y) =>
        if y !in params {
          if y in defs {
            DefinesExact(params, body, y, defs[y]);
            OffsetExact(params, body, defs[y], depth - 1, x, k);
          }
          forall v | Defines(body, y, v) ensures y in defs && defs[y] == v { DefinesExact(params, body, y, v); }
        }
      case Prim(op, args) => if |args| == 2 { BaseExact(params, body, e, depth, x, k); }
      case _ =>
    }
  }

  lemma OffsetPrim(e: Expr, params: seq<nat>, defs: Defs, depth: nat)
    requires depth > 0 && PeelRc(e).Prim? && |PeelRc(e).args| == 2
    ensures var op, args := PeelRc(e).op, PeelRc(e).args;
      var base := Offset(args[0], params, defs, depth - 1);
      Offset(e, params, defs, depth) ==
        if AddsLiteral(op, args) && base.Some? then
          Some((base.value.0, Wrap(base.value.1 + if op == IntSub then Wrap(0 - args[1].lit.n) else args[1].lit.n)))
        else None
  {
    hide Wrap;
  }

  lemma AddsPrim(params: seq<nat>, body: Expr, e: Expr, depth: nat, x: nat, k: I64)
    requires depth > 0 && PeelRc(e).Prim? && |PeelRc(e).args| == 2
    ensures var op, args := PeelRc(e).op, PeelRc(e).args;
      Adds(params, body, e, depth, x, k) <==>
      AddsLiteral(op, args) && AddsMore(params, body, args[0], depth - 1, x, k, op, args[1].lit.n)
  {
    hide AddsMore, Defines;
  }

  lemma {:induction false} BaseExact(params: seq<nat>, body: Expr, e: Expr, depth: nat, x: nat, k: I64)
    requires Scannable(params, body) && depth > 0 && PeelRc(e).Prim? && |PeelRc(e).args| == 2
    ensures Offset(e, params, Definitions(Nodes([body])), depth) == Some((x, k)) <==>
      Adds(params, body, e, depth, x, k)
    decreases depth, 0
  {
    hide Scannable, Nodes, Definitions, Offset, Adds, PeelRc, Wrap;
    var op, args, defs, below := PeelRc(e).op, PeelRc(e).args, Definitions(Nodes([body])), depth - 1;
    OffsetPrim(e, params, defs, depth);
    AddsPrim(params, body, e, depth, x, k);
    var base := Offset(args[0], params, defs, below);
    if base.Some? { OffsetExact(params, body, args[0], below, base.value.0, base.value.1); }
    forall b: I64 | Adds(params, body, args[0], below, x, b) ensures base == Some((x, b)) {
      OffsetExact(params, body, args[0], below, x, b);
    }
    if AddsLiteral(op, args) && base.Some? { Negated(base.value.1, args[1].lit.n); }
  }

  /** Adding the wrapped negation subtracts. */
  lemma Negated(b: I64, n: I64)
    ensures Wrap(b + Wrap(0 - n)) == Wrap(b - n)
  {
    WrapSum(0 - n, b);
  }

  lemma {:induction false} CallsAre(nodes: seq<Expr>, args: seq<Expr>)
    ensures args in Calls(nodes) <==> Recur(args) in nodes
  {
    if nodes != [] {
      var n := |nodes| - 1;
      CallsAre(nodes[..n], args);
      assert nodes == nodes[..n] + [nodes[n]];
    }
  }

  lemma BackEdgesAre(body: Expr, args: seq<Expr>)
    ensures args in Calls(Nodes([body])) <==> Has(body, Recur(args))
  {
    hide Nodes, Calls, Has;
    CallsAre(Nodes([body]), args);
    HasMember(body, Recur(args));
  }

  /** The steps of the first `n` parameters. */
  lemma {:induction false} StepsToAre(params: seq<nat>, defs: Defs, calls: seq<seq<Expr>>, n: nat, x: nat, k: I64)
    requires n <= |params| && |calls| > 0 && Distinct(params)
    requires forall c :: 0 <= c < |calls| ==> |calls[c]| == |params|
    ensures var steps := StepsTo(params, defs, calls, n);
      x in steps && steps[x] == k <==>
      exists i :: 0 <= i < n && params[i] == x && StepOf(params, defs, calls, i) == Some(k)
    decreases n
  {
    hide StepOf;
    if n > 0 {
      StepsToAre(params, defs, calls, n - 1, x, k);
      var steps, before := StepsTo(params, defs, calls, n), StepsTo(params, defs, calls, n - 1);
      if params[n - 1] == x {
        StepsFresh(params, defs, calls, n - 1, x);
      }
    }
  }

  lemma {:induction false} StepsFresh(params: seq<nat>, defs: Defs, calls: seq<seq<Expr>>, n: nat, x: nat)
    requires n <= |params| && |calls| > 0 && forall i :: 0 <= i < n ==> params[i] != x
    requires forall c :: 0 <= c < |calls| ==> |calls[c]| == |params|
    ensures x !in StepsTo(params, defs, calls, n)
    decreases n
  {
    if n > 0 { StepsFresh(params, defs, calls, n - 1, x); }
  }

  ghost predicate AllCalls(params: seq<nat>, defs: Defs, calls: seq<seq<Expr>>, i: nat, x: nat, k: I64)
    requires forall c :: 0 <= c < |calls| ==> |calls[c]| == |params|
  {
    i < |params| && forall args :: args in calls ==> Offset(args[i], params, defs, 8) == Some((x, k))
  }

  lemma StepOfIs(params: seq<nat>, defs: Defs, calls: seq<seq<Expr>>, i: nat, k: I64)
    requires i < |params| && |calls| > 0 && forall c :: 0 <= c < |calls| ==> |calls[c]| == |params|
    ensures StepOf(params, defs, calls, i) == Some(k) <==> AllCalls(params, defs, calls, i, params[i], k)
  {
    hide Offset;
    if AllCalls(params, defs, calls, i, params[i], k) {
      forall c | 0 <= c < |calls| ensures Offset(calls[c][i], params, defs, 8) == Some((params[i], k)) {
        assert calls[c] in calls;
      }
    }
  }

  /** The steps the walk finds are those every back-edge makes. */
  lemma StepsExact(params: seq<nat>, body: Expr, x: nat, k: I64)
    requires Distinct(params) && Scannable(params, body) && Calls(Nodes([body])) != []
    requires forall c :: 0 <= c < |Calls(Nodes([body]))| ==> |Calls(Nodes([body]))[c]| == |params|
    ensures var nodes := Nodes([body]);
      var steps := StepsTo(params, Definitions(nodes), Calls(nodes), |params|);
      x in steps && steps[x] == k <==> StepsBy(params, body, x, k)
  {
    hide Nodes, Definitions, Calls, Scannable, Offset, Adds, Has, StepsTo, StepOf;
    var nodes := Nodes([body]);
    var defs, calls := Definitions(nodes), Calls(nodes);
    StepsToAre(params, defs, calls, |params|, x, k);
    assert calls[0] in calls;
    BackEdgesAre(body, calls[0]);
    forall i | 0 <= i < |params| ensures StepOf(params, defs, calls, i) == Some(k) <==>
        AllCalls(params, defs, calls, i, params[i], k)
    {
      StepOfIs(params, defs, calls, i, k);
    }
    forall args ensures args in calls <==> Has(body, Recur(args)) { BackEdgesAre(body, args); }
    forall args, i | args in calls && 0 <= i < |params|
      ensures Offset(args[i], params, defs, 8) == Some((x, k)) <==> Adds(params, body, args[i], 8, x, k)
    {
      OffsetExact(params, body, args[i], 8, x, k);
    }
  }

  // ----- what is reported -----

  /** What the walk computes of a body it completes. */
  ghost predicate Tables(params: seq<nat>, body: Expr, nodes: seq<Expr>, steps: map<nat, I64>) {
    && Scannable(params, body) && nodes == Nodes([body])
    && forall x, k :: x in steps && steps[x] == k <==> StepsBy(params, body, x, k)
  }

  lemma CandidateExact(params: seq<nat>, body: Expr, nodes: seq<Expr>, steps: map<nat, I64>, d: nat, c: nat,
      p: Predicate)
    requires Tables(params, body, nodes, steps)
    ensures Candidate(nodes, steps, d, c) == Some(p) <==>
      p.difference == d && p.counter == c && Advances(params, body, p)
  {
    hide Nodes, Candidate, Tables, Advances;
    CandidateNames(nodes, steps, d, c);
    if Candidate(nodes, steps, d, c) == Some(p) {
      CandidateAdvances(params, body, nodes, steps, d, c, p);
    }
    if p.difference == d && p.counter == c && Advances(params, body, p) {
      AdvancesCandidate(params, body, nodes, steps, p);
    }
  }

  lemma StepIs(params: seq<nat>, body: Expr, nodes: seq<Expr>, steps: map<nat, I64>, x: nat, k: I64)
    requires Tables(params, body, nodes, steps)
    ensures x in steps && steps[x] == k <==> StepsBy(params, body, x, k)
  {
  }

  lemma UsesAre(params: seq<nat>, body: Expr, nodes: seq<Expr>, steps: map<nat, I64>, x: nat)
    requires Tables(params, body, nodes, steps)
    ensures UseCount(nodes, x) == Occurs(UsesOf(x), body)
  {
    BodySum(UsesOf(x), body);
    SumUses(nodes, x);
  }

  lemma CandidateAdvances(params: seq<nat>, body: Expr, nodes: seq<Expr>, steps: map<nat, I64>, d: nat, c: nat,
      p: Predicate)
    requires Tables(params, body, nodes, steps) && Candidate(nodes, steps, d, c) == Some(p)
    ensures p.difference == d && p.counter == c && Advances(params, body, p)
  {
    hide Nodes, StepsBy, Occurs, Definitions, Defines, UseCount, PeelRc, Tables;
    var v := Definitions(nodes)[d];
    var value := PeelRc(v);
    var left, right := value.args[0].id, value.args[1].id;
    TablesScan(params, body, nodes, steps);
    UsesAre(params, body, nodes, steps, d);
    DefinesExact(params, body, d, v);
    StepIs(params, body, nodes, steps, c, steps[c]);
    StepIs(params, body, nodes, steps, right, 0);
    StepIs(params, body, nodes, steps, left, 0);
    assert value == Prim(IntSub, [Local(left), Local(right)]);
    assert IsDifference(body, d, v, left, right) && Splits(params, body, left, right, p);
  }

  lemma TablesScan(params: seq<nat>, body: Expr, nodes: seq<Expr>, steps: map<nat, I64>)
    requires Tables(params, body, nodes, steps)
    ensures Scannable(params, body) && nodes == Nodes([body])
  {
    hide Nodes, Scannable, StepsBy;
  }

  lemma AdvancesCandidate(params: seq<nat>, body: Expr, nodes: seq<Expr>, steps: map<nat, I64>, p: Predicate)
    requires Tables(params, body, nodes, steps) && Advances(params, body, p)
    ensures Candidate(nodes, steps, p.difference, p.counter) == Some(p)
  {
    hide Nodes, StepsBy, Occurs, Definitions, Defines, UseCount, PeelRc, Tables;
    var v, left, right :| IsDifference(body, p.difference, v, left, right) && Splits(params, body, left, right, p);
    TablesScan(params, body, nodes, steps);
    UsesAre(params, body, nodes, steps, p.difference);
    DefinesExact(params, body, p.difference, v);
    StepIs(params, body, nodes, steps, p.counter, p.step);
    StepIs(params, body, nodes, steps, right, 0);
    StepIs(params, body, nodes, steps, left, 0);
  }

  predicate ComparesLocals(e: Expr, a: nat, b: nat) {
    e == Prim(Eq, [Local(a), Local(b)]) || e == Prim(Eq, [Local(b), Local(a)])
  }

  predicate Confirms(nodes: seq<Expr>, steps: map<nat, I64>, e: Expr, p: Predicate) {
    ComparesLocals(e, p.difference, p.counter) && Candidate(nodes, steps, p.difference, p.counter) == Some(p)
  }

  /** Some node among the first `n` compares the predicate's locals, and the tables confirm it. */
  ghost predicate Confirmed(nodes: seq<Expr>, steps: map<nat, I64>, n: nat, p: Predicate)
    requires n <= |nodes|
  {
    exists i :: 0 <= i < n && Confirms(nodes, steps, nodes[i], p)
  }

  lemma CandidateNames(nodes: seq<Expr>, steps: map<nat, I64>, d: nat, c: nat)
    ensures var p := Candidate(nodes, steps, d, c); p.Some? ==> p.value.difference == d && p.value.counter == c
  {
    hide Definitions, UseCount, PeelRc;
  }

  /** What one node adds. */
  lemma ComparedExact(nodes: seq<Expr>, steps: map<nat, I64>, e: Expr, found: seq<Predicate>, p: Predicate)
    requires |found| <= 4
    ensures var after := Compared(nodes, steps, e, found);
      && |found| <= |after| <= 4
      && (p in found ==> p in after)
      && (p in after ==> p in found || Confirms(nodes, steps, e, p))
      && (Confirms(nodes, steps, e, p) ==> p in after || |after| == 4)
  {
    hide Candidate;
    if e.Prim? && e.op == Eq && |e.args| == 2 && e.args[0].Local? && e.args[1].Local? {
      var a, b := e.args[0].id, e.args[1].id;
      assert e == Prim(Eq, [Local(a), Local(b)]);
      CandidateNames(nodes, steps, a, b);
      CandidateNames(nodes, steps, b, a);
    }
  }

  lemma {:induction false} FoundExact(nodes: seq<Expr>, steps: map<nat, I64>, n: nat, p: Predicate)
    requires n <= |nodes|
    ensures |FoundTo(nodes, steps, n)| <= 4
    ensures p in FoundTo(nodes, steps, n) ==> Confirmed(nodes, steps, n, p)
    ensures Confirmed(nodes, steps, n, p) ==> p in FoundTo(nodes, steps, n) || |FoundTo(nodes, steps, n)| == 4
    decreases n
  {
    hide Candidate, Compared, ComparesLocals;
    if n > 0 {
      FoundExact(nodes, steps, n - 1, p);
      ComparedExact(nodes, steps, nodes[n - 1], FoundTo(nodes, steps, n - 1), p);
    }
  }

  lemma ConfirmedQualifies(params: seq<nat>, body: Expr, nodes: seq<Expr>, steps: map<nat, I64>, p: Predicate)
    requires Tables(params, body, nodes, steps)
    ensures Confirmed(nodes, steps, |nodes|, p) <==> Qualifies(params, body, p)
  {
    hide Nodes, Tables, Candidate, Advances, Has;
    var a, b := p.difference, p.counter;
    CandidateExact(params, body, nodes, steps, a, b, p);
    TablesScan(params, body, nodes, steps);
    HasMember(body, Prim(Eq, [Local(a), Local(b)]));
    HasMember(body, Prim(Eq, [Local(b), Local(a)]));
  }

  /** The tables of a body with a back-edge. */
  lemma BodyTables(params: seq<nat>, body: Expr)
    requires Distinct(params) && Walkable(params, Nodes([body])) && Calls(Nodes([body])) != []
    requires forall c :: 0 <= c < |Calls(Nodes([body]))| ==> |Calls(Nodes([body]))[c]| == |params|
    ensures var nodes := Nodes([body]);
      Tables(params, body, nodes, StepsTo(params, Definitions(nodes), Calls(nodes), |params|))
  {
    hide Nodes, Definitions, Calls, Walkable, StepsTo, StepsBy, Scannable;
    ScannableExact(params, body);
    var nodes := Nodes([body]);
    var steps := StepsTo(params, Definitions(nodes), Calls(nodes), |params|);
    forall x, k ensures x in steps && steps[x] == k <==> StepsBy(params, body, x, k) {
      StepsExact(params, body, x, k);
    }
  }

  lemma StepsNeedCall(params: seq<nat>, body: Expr, x: nat, k: I64)
    requires StepsBy(params, body, x, k)
    ensures Calls(Nodes([body])) != []
  {
    hide Nodes, Calls, Has;
    var args :| Has(body, Recur(args));
    BackEdgesAre(body, args);
  }

  /** Every predicate reported qualifies, and every one that qualifies is reported unless four are. */
  lemma PredicatesExact(params: seq<nat>, body: Expr, p: Predicate)
    requires Distinct(params)
    ensures |PlanOf(params, body)| <= 4
    ensures p in PlanOf(params, body) ==> Qualifies(params, body, p)
    ensures Qualifies(params, body, p) ==> p in PlanOf(params, body) || |PlanOf(params, body)| == 4
  {
    hide Nodes, Definitions, Calls, Walkable, StepsTo, StepsBy, Scannable, Compares, Tables, Confirmed, FoundTo;
    ScannableExact(params, body);
    if Qualifies(params, body, p) { StepsNeedCall(params, body, p.counter, p.step); }
    var nodes := Nodes([body]);
    if Walkable(params, nodes) && Calls(nodes) != [] {
      CallsHaveArity(params, nodes);
      BodyTables(params, body);
      var steps := StepsTo(params, Definitions(nodes), Calls(nodes), |params|);
      ConfirmedQualifies(params, body, nodes, steps, p);
      FoundExact(nodes, steps, |nodes|, p);
    }
  }
}
