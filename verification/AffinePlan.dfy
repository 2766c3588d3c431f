/** Equality predicates whose affine loop bound can advance by a constant: the scan of
    a loop body that finds them. */
module AffinePlan {
  import opened Machine
  import opened Primitives
  import opened Core

  datatype Predicate = Predicate(difference: nat, counter: nat, operand: nat, invariant_: nat, sum: bool, step: I64)

  const NODE_CAP: nat := 512
  const OFFSET_DEPTH: nat := 8
  const PREDICATE_CAP: nat := 4

  function Children(e: Expr): seq<Expr> {
    match e
    case Let(_, value, body) => [value, body]
    case Reset(value, _, body) => [value, body]
    case If(cond, thn, els) => [cond, thn, els]
    case Prim(_, args) => args
    case Foreign(_, args) => args
    case MakeData(_, args) => args
    case Recur(args) => args
    case App(func, args) => [func] + args
    case DataTag(base) => [base]
    case DataField(base, _) => [base]
    case Dup(_, body) => [body]
    case Drop(_, body) => [body]
    case FreeReuse(_, body) => [body]
    case _ => []
  }

  function Size(e: Expr): nat
    decreases e, 0
  {
    1 + match e
        case Let(_, value, body) => Size(value) + Size(body)
        case Reset(value, _, body) => Size(value) + Size(body)
        case If(cond, thn, els) => Size(cond) + Size(thn) + Size(els)
        case Prim(_, args) => SizeAll(args)
        case Foreign(_, args) => SizeAll(args)
        case MakeData(_, args) => SizeAll(args)
        case Recur(args) => SizeAll(args)
        case App(func, args) => Size(func) + SizeAll(args)
        case DataTag(base) => Size(base)
        case DataField(base, _) => Size(base)
        case Dup(_, body) => Size(body)
        case Drop(_, body) => Size(body)
        case FreeReuse(_, body) => Size(body)
        case _ => 0
  }

  function SizeAll(es: seq<Expr>): nat
    decreases es, 1
  {
    if es == [] then 0 else SizeAll(es[..|es| - 1]) + Size(es[|es| - 1])
  }

  lemma {:induction false} SizeCons(e: Expr, es: seq<Expr>)
    ensures SizeAll([e] + es) == Size(e) + SizeAll(es)
    decreases |es|
  {
    var all := [e] + es;
    if es == [] {
      assert all[..0] == [];
    } else {
      SizeCons(e, es[..|es| - 1]);
      assert all[..|all| - 1] == [e] + es[..|es| - 1];
    }
  }

  lemma SizeThree(a: Expr, b: Expr, c: Expr)
    ensures SizeAll([a, b, c]) == Size(a) + Size(b) + Size(c)
  {
    SizeCons(a, [b, c]);
    assert [a, b, c] == [a] + [b, c];
    SizeTwo(b, c);
  }

  lemma ChildrenSize(e: Expr)
    ensures SizeAll(Children(e)) == Size(e) - 1
  {
    match e
    case Let(_, value, body) => SizeTwo(value, body);
    case Reset(value, _, body) => SizeTwo(value, body);
    case If(cond, thn, els) => SizeThree(cond, thn, els);
    case App(func, args) => SizeCons(func, args);
    case DataTag(base) => SizeOne(base);
    case DataField(base, _) => SizeOne(base);
    case Dup(_, body) => SizeOne(body);
    case Drop(_, body) => SizeOne(body);
    case FreeReuse(_, body) => SizeOne(body);
    case _ =>
  }

  lemma SizeOne(e: Expr)
    ensures SizeAll([e]) == Size(e)
  {
    SizeCons(e, []);
    assert [e] + [] == [e];
  }

  lemma SizeTwo(e: Expr, d: Expr)
    ensures SizeAll([e, d]) == Size(e) + Size(d)
  {
    SizeCons(e, [d]);
    assert [e] + [d] == [e, d];
    SizeOne(d);
  }

  /** The nodes reached from a stack of pending terms, the last pushed first. */
  function Nodes(pending: seq<Expr>): seq<Expr>
    decreases SizeAll(pending)
  {
    if pending == [] then []
    else
      var n := |pending| - 1;
      var e := pending[n];
      ChildrenSize(e);
      AppendSize(pending[..n], Children(e));
      [e] + Nodes(pending[..n] + Children(e))
  }

  lemma {:induction false} AppendSize(xs: seq<Expr>, ys: seq<Expr>)
    ensures SizeAll(xs + ys) == SizeAll(xs) + SizeAll(ys)
    decreases |ys|
  {
    if ys == [] {
      assert xs + ys == xs;
    } else {
      AppendSize(xs, ys[..|ys| - 1]);
      assert (xs + ys)[..|xs + ys| - 1] == xs + ys[..|ys| - 1];
    }
  }

  // ----- what a complete walk records -----

  /** The uses a node itself makes of a local. */
  function OwnUses(e: Expr, x: nat): nat {
    match e
    case Local(id) => if id == x then 1 else 0
    case MakeClosure(_, captures) => multiset(captures)[x]
    case _ => 0
  }

  function UseCount(nodes: seq<Expr>, x: nat): nat {
    if nodes == [] then 0
    else UseCount(nodes[..|nodes| - 1], x) + OwnUses(nodes[|nodes| - 1], x)
  }

  function Definitions(nodes: seq<Expr>): Defs {
    if nodes == [] then map[]
    else
      var e := nodes[|nodes| - 1];
      var before := Definitions(nodes[..|nodes| - 1]);
      if e.Let? then before[e.local := e.value] else before
  }

  function Calls(nodes: seq<Expr>): seq<seq<Expr>> {
    if nodes == [] then []
    else
      var e := nodes[|nodes| - 1];
      Calls(nodes[..|nodes| - 1]) + (if e.Recur? then [e.args] else [])
  }

  /** A node after these ones does not end the walk. */
  predicate Admits(params: seq<nat>, before: seq<Expr>, e: Expr) {
    && |before| < NODE_CAP && !e.Join?
    && (e.Let? ==> e.local !in Definitions(before))
    && (e.Recur? ==> |e.args| == |params|)
  }

  predicate Walkable(params: seq<nat>, nodes: seq<Expr>) {
    nodes == [] || (Walkable(params, nodes[..|nodes| - 1]) && Admits(params, nodes[..|nodes| - 1], nodes[|nodes| - 1]))
  }

  /** The parameter and wrapping constant a term adds up to. */
  function Offset(e: Expr, params: seq<nat>, defs: Defs, depth: nat): Option<(nat, I64)>
    decreases depth
  {
    if depth == 0 then None
    else
      var e := PeelRc(e);
      match e
      case Local(x) =>
        if x in params then Some((x, 0))
        else if x in defs then Offset(defs[x], params, defs, depth - 1) else None
      case Prim(op, args) =>
        if (op == IntAdd || op == IntSub) && |args| == 2 && args[1].Lit? && args[1].lit.IntLit? then
          var right := args[1].lit.n;
          (match Offset(args[0], params, defs, depth - 1)
           case Some(base) => Some((base.0, Wrap(base.1 + if op == IntSub then Wrap(0 - right) else right)))
           case None => None)
        else None
      case _ => None
  }

  /** The step of parameter `i`: every back-edge adds the same constant to it. */
  function StepOf(params: seq<nat>, defs: Defs, calls: seq<seq<Expr>>, i: nat): Option<I64>
    requires i < |params| && |calls| > 0 && forall k :: 0 <= k < |calls| ==> |calls[k]| == |params|
  {
    var expected := Offset(calls[0][i], params, defs, OFFSET_DEPTH);
    if expected.Some? && expected.value.0 == params[i]
       && (forall k :: 0 <= k < |calls| ==> Offset(calls[k][i], params, defs, OFFSET_DEPTH) == expected)
    then Some(expected.value.1) else None
  }

  /** The steps of the parameters that have one; a later duplicate would win. */
  function StepsTo(params: seq<nat>, defs: Defs, calls: seq<seq<Expr>>, n: nat): map<nat, I64>
    requires n <= |params| && |calls| > 0 && forall k :: 0 <= k < |calls| ==> |calls[k]| == |params|
  {
    if n == 0 then map[]
    else
      var rest := StepsTo(params, defs, calls, n - 1);
      var step := StepOf(params, defs, calls, n - 1);
      if step.Some? then rest[params[n - 1] := step.value] else rest
  }

  predicate LocalDifference(e: Expr) {
    e.Prim? && e.op == IntSub && |e.args| == 2 && e.args[0].Local? && e.args[1].Local?
  }

  /** The predicate that comparing `difference` with `counter` stands for, if any. */
  function Candidate(nodes: seq<Expr>, steps: map<nat, I64>, difference: nat, counter: nat): Option<Predicate> {
    var defs := Definitions(nodes);
    if !(counter in steps && steps[counter] != 0) || UseCount(nodes, difference) != 1 || difference !in defs then None
    else
      var value := PeelRc(defs[difference]);
      if !LocalDifference(value) then None
      else
        var left, right := value.args[0].id, value.args[1].id;
        if right in steps && steps[right] == 0 then
          Some(Predicate(difference, counter, left, right, true, steps[counter]))
        else if left in steps && steps[left] == 0 then
          Some(Predicate(difference, counter, right, left, false, steps[counter]))
        else None
  }

  function Append(found: seq<Predicate>, p: Option<Predicate>): seq<Predicate> {
    if p.Some? && |found| < PREDICATE_CAP then found + [p.value] else found
  }

  function Compared(nodes: seq<Expr>, steps: map<nat, I64>, e: Expr, found: seq<Predicate>): seq<Predicate> {
    if e.Prim? && e.op == Eq && |e.args| == 2 && e.args[0].Local? && e.args[1].Local? then
      var a, b := e.args[0].id, e.args[1].id;
      Append(Append(found, Candidate(nodes, steps, a, b)), Candidate(nodes, steps, b, a))
    else found
  }

  /** The first predicates among the first `n` nodes. */
  function FoundTo(nodes: seq<Expr>, steps: map<nat, I64>, n: nat): seq<Predicate>
    requires n <= |nodes|
  {
    if n == 0 then [] else Compared(nodes, steps, nodes[n - 1], FoundTo(nodes, steps, n - 1))
  }

  lemma {:induction false} CallsHaveArity(params: seq<nat>, nodes: seq<Expr>)
    requires Walkable(params, nodes)
    ensures forall k :: 0 <= k < |Calls(nodes)| ==> |Calls(nodes)[k]| == |params|
  {
    if nodes != [] {
      CallsHaveArity(params, nodes[..|nodes| - 1]);
    }
  }

  function PlanOf(params: seq<nat>, body: Expr): seq<Predicate> {
    var nodes := Nodes([body]);
    if !Walkable(params, nodes) || Calls(nodes) == [] then []
    else
      CallsHaveArity(params, nodes);
      FoundTo(nodes, StepsTo(params, Definitions(nodes), Calls(nodes), |params|), |nodes|)
  }

  // ----- the walk as the compiler runs it -----

  lemma {:induction false} StopsEarly(params: seq<nat>, nodes: seq<Expr>, i: nat)
    requires i < |nodes| && !Admits(params, nodes[..i], nodes[i])
    ensures !Walkable(params, nodes)
    decreases |nodes|
  {
    var n := |nodes| - 1;
    if i < n {
      assert nodes[..n][..i] == nodes[..i] && nodes[..n][i] == nodes[i];
      StopsEarly(params, nodes[..n], i);
    } else {
      assert nodes[..n] == nodes[..i];
    }
  }

  /** What one more visited node adds to the tables. */
  lemma AfterNode(params: seq<nat>, nodes: seq<Expr>, e: Expr)
    ensures Definitions(nodes + [e]) == if e.Let? then Definitions(nodes)[e.local := e.value] else Definitions(nodes)
    ensures Calls(nodes + [e]) == Calls(nodes) + (if e.Recur? then [e.args] else [])
    ensures forall x :: UseCount(nodes + [e], x) == UseCount(nodes, x) + OwnUses(e, x)
    ensures Walkable(params, nodes + [e]) <==> Walkable(params, nodes) && Admits(params, nodes, e)
  {
    assert (nodes + [e])[..|nodes|] == nodes;
  }

  lemma InitialTables(params: seq<nat>)
    ensures Definitions([]) == map[] && Calls([]) == [] && Walkable(params, []) && Nodes([]) == []
    ensures forall x :: UseCount([], x) == 0
  {
  }

  lemma NextNode(pending: seq<Expr>)
    requires pending != []
    ensures var n := |pending| - 1;
      Nodes(pending) == [pending[n]] + Nodes(pending[..n] + Children(pending[n]))
      && SizeAll(pending[..n] + Children(pending[n])) < SizeAll(pending)
  {
    var n := |pending| - 1;
    ChildrenSize(pending[n]);
    AppendSize(pending[..n], Children(pending[n]));
  }

  method FindPredicates(params: seq<nat>, body: Expr) returns (result: seq<Predicate>)
    ensures result == PlanOf(params, body)
  {
    hide Definitions, Calls, UseCount, Walkable, Nodes, SizeAll, Children;
    InitialTables(params);
    var pending := [body];
    var nodes: seq<Expr> := [];
    var definitions: Defs := map[];
    var uses: map<nat, nat> := map[];
    var calls: seq<seq<Expr>> := [];
    ghost var all := Nodes([body]);
    while pending != []
      invariant all == nodes + Nodes(pending)
      invariant Walkable(params, nodes)
      invariant definitions == Definitions(nodes) && calls == Calls(nodes)
      invariant forall x :: UseCount(nodes, x) == if x in uses then uses[x] else 0
      decreases SizeAll(pending)
    {
      var n := |pending| - 1;
      var node := pending[n];
      NextNode(pending);
      AfterNode(params, nodes, node);
      ghost var i := |nodes|;
      assert all[..i] == nodes && all[i] == node;
      if |nodes| >= NODE_CAP || node.Join? {
        StopsEarly(params, all, i);
        return [];
      }
      if node.Let? {
        if node.local in definitions {
          StopsEarly(params, all, i);
          return [];
        }
        definitions := definitions[node.local := node.value];
      }
      if node.Local? {
        uses := uses[node.id := (if node.id in uses then uses[node.id] else 0) + 1];
      }
      if node.MakeClosure? {
        uses := CountCaptures(uses, node.captures);
      }
      if node.Recur? {
        if |node.args| != |params| {
          StopsEarly(params, all, i);
          return [];
        }
        calls := calls + [node.args];
      }
      nodes := nodes + [node];
      pending := pending[..n] + Children(node);
    }
    assert all == nodes;
    if calls == [] {
      return [];
    }
    CallsHaveArity(params, nodes);
    var steps: map<nat, I64> := map[];
    for i := 0 to |params|
      invariant steps == StepsTo(params, definitions, calls, i)
    {
      var step := StepOf(params, definitions, calls, i);
      if step.Some? {
        steps := steps[params[i] := step.value];
      }
    }
    result := [];
    for i := 0 to |nodes|
      invariant result == FoundTo(nodes, steps, i)
    {
      result := Compared(nodes, steps, nodes[i], result);
    }
  }

  function CountOf(uses: map<nat, nat>, x: nat): nat {
    if x in uses then uses[x] else 0
  }

  method CountCaptures(uses: map<nat, nat>, captures: seq<nat>) returns (after: map<nat, nat>)
    ensures forall x :: CountOf(after, x) == CountOf(uses, x) + multiset(captures)[x]
  {
    after := uses;
    for i := 0 to |captures|
      invariant forall x :: CountOf(after, x) == CountOf(uses, x) + multiset(captures[..i])[x]
    {
      assert captures[..i + 1] == captures[..i] + [captures[i]];
      after := after[captures[i] := (if captures[i] in after then after[captures[i]] else 0) + 1];
    }
    assert captures[..|captures|] == captures;
  }
}
