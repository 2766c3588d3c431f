/** Whole programs of the representation: definitions that call each other, partial and
    over-saturated application, closures, and evaluation with a call budget. */
module Calls {
  import opened Machine
  import opened Core
  import opened CoreLoop

  /** A first-class value. A function value names code, what it captured, and the
      arguments it has been given so far. */
  datatype CVal = Plain(v: Value) | Fun(def: nat, fn: nat, captures: seq<CVal>, args: seq<CVal>)

  type CEnv = map<nat, CVal>

  datatype Fn = Fn(params: seq<nat>, captures: seq<nat>, body: Expr)

  /** A lowered definition: its entry function and its lifted lambdas, the file it is
      in, and how many offset-evidence parameters its type takes. */
  datatype Def = Def(file: nat, fns: seq<Fn>, evidence: nat)

  /** `recursive` holds the definitions on a cycle of same-file references. */
  datatype Program = Program(defs: map<nat, Def>, recursive: set<nat>)

  /** The opaque operations: `None` aborts. */
  datatype Prims = Prims(node: (NodeKind, seq<CVal>) -> Option<CVal>)

  /** `Wrong` marks an ill-scoped or ill-typed term, `Timeout` a spent call budget. */
  datatype Result = Yields(v: CVal) | Aborts | Wrong | Timeout

  datatype Results = Each(vals: seq<CVal>) | Halts(o: Result)

  function Node(ops: Prims, kind: NodeKind, vals: seq<CVal>): (r: Result)
    ensures r.Yields? || r.Aborts?
  {
    match ops.node(kind, vals)
    case Some(v) => Yields(v)
    case None => Aborts
  }

  function OnAll(ops: Prims, kind: NodeKind, r: Results): Result {
    if r.Each? then Node(ops, kind, r.vals) else r.o
  }

  function OnOne(ops: Prims, kind: NodeKind, r: Result): Result {
    if r.Yields? then Node(ops, kind, [r.v]) else r
  }

  function Capture(env: CEnv, ids: seq<nat>): (r: Results)
    ensures r.Halts? ==> r.o == Wrong
    decreases |ids|
  {
    if ids == [] then Each([])
    else if ids[0] !in env then Halts(Wrong)
    else
      var rest := Capture(env, ids[1..]);
      if rest.Each? then Each([env[ids[0]]] + rest.vals) else rest
  }

  predicate HasCode(p: Program, f: CVal) {
    f.Fun? && f.def in p.defs && f.fn < |p.defs[f.def].fns|
  }

  function CodeOf(p: Program, f: CVal): Fn
    requires HasCode(p, f)
  {
    p.defs[f.def].fns[f.fn]
  }

  function Run(ops: Prims, p: Program, d: nat, e: Expr, env: CEnv, fuel: nat): Result
    decreases fuel, 1, e, 0
  {
    match e
    case Local(id) => if id in env then Yields(env[id]) else Wrong
    case Lit(lit) => Yields(Plain(LitValue(lit)))
    case Error => Aborts
    case Global(name) => RunGlobal(ops, p, name, fuel)
    case Let(local, value, body) =>
      var v := Run(ops, p, d, value, env, fuel);
      if v.Yields? then Run(ops, p, d, body, env[local := v.v], fuel) else v
    case If(cond, thn, els) =>
      var c := Run(ops, p, d, cond, env, fuel);
      if !c.Yields? then c
      else if c.v.Plain? && c.v.v.BoolV? then Run(ops, p, d, if c.v.v.b then thn else els, env, fuel)
      else Wrong
    case Prim(op, args) => OnAll(ops, PrimNode(op), RunAll(ops, p, d, args, env, fuel))
    case MakeData(tag, args) => OnAll(ops, DataNode(tag), RunAll(ops, p, d, args, env, fuel))
    case Foreign(symbol, args) => OnAll(ops, ForeignNode(symbol), RunAll(ops, p, d, args, env, fuel))
    case DataTag(base) => OnOne(ops, TagNode, Run(ops, p, d, base, env, fuel))
    case DataField(base, index) => OnOne(ops, FieldNode(index), Run(ops, p, d, base, env, fuel))
    case App(func, args) =>
      var f := Run(ops, p, d, func, env, fuel);
      if !f.Yields? then f else ApplyAll(ops, p, f.v, RunAll(ops, p, d, args, env, fuel), fuel)
    case MakeClosure(fn, captures) =>
      var vals := Capture(env, captures);
      if vals.Each? then Yields(Fun(d, fn, vals.vals, [])) else vals.o
    case _ => Wrong
  }

  /** A function definition is a value; a parameterless one is its body's result. */
  function RunGlobal(ops: Prims, p: Program, name: nat, fuel: nat): Result
    decreases fuel, 0
  {
    if name !in p.defs then Node(ops, GlobalNode(name), [])
    else
      var fns := p.defs[name].fns;
      if fns == [] then Wrong
      else if fns[0].params != [] then Yields(Fun(name, 0, [], []))
      else if fuel == 0 then Timeout else Run(ops, p, name, fns[0].body, map[], fuel - 1)
  }

  function RunAll(ops: Prims, p: Program, d: nat, args: seq<Expr>, env: CEnv, fuel: nat): (r: Results)
    ensures r.Each? ==> |r.vals| == |args|
    ensures r.Halts? ==> !r.o.Yields?
    decreases fuel, 1, args, 1
  {
    if args == [] then Each([])
    else
      var first := Run(ops, p, d, args[0], env, fuel);
      if first.Yields? then Cons(first.v, RunAll(ops, p, d, args[1..], env, fuel)) else Halts(first)
  }

  function Cons(v: CVal, rest: Results): Results {
    if rest.Each? then Each([v] + rest.vals) else rest
  }

  function ApplyAll(ops: Prims, p: Program, f: CVal, args: Results, fuel: nat): Result
    decreases fuel, 0, 1
  {
    if args.Each? then Apply(ops, p, f, args.vals, fuel) else args.o
  }

  /** Too few arguments wait, exactly enough run the body, surplus ones go to its result. */
  function Apply(ops: Prims, p: Program, f: CVal, args: seq<CVal>, fuel: nat): Result
    decreases fuel, 0, 0
  {
    if args == [] then Yields(f)
    else if !HasCode(p, f) then Node(ops, AppNode, [f] + args)
    else
      var code, all := CodeOf(p, f), f.args + args;
      if |all| < |code.params| then Yields(f.(args := all))
      else if |f.captures| != |code.captures| then Wrong
      else if fuel == 0 then Timeout
      else
        var r := Run(ops, p, f.def, code.body, Bind(code.captures + code.params, f.captures + all[..|code.params|]),
            fuel - 1);
        if r.Yields? then Apply(ops, p, r.v, all[|code.params|..], fuel - 1) else r
  }

  /** Enough arguments: the body runs and its result takes the rest. */
  lemma EnoughArguments(ops: Prims, p: Program, f: CVal, args: seq<CVal>, fuel: nat)
    requires args != [] && HasCode(p, f) && |f.args| + |args| >= |CodeOf(p, f).params| &&
      |f.captures| == |CodeOf(p, f).captures|
    ensures var code, all := CodeOf(p, f), f.args + args;
      Apply(ops, p, f, args, fuel) ==
        if fuel == 0 then Timeout
        else
          var r := Run(ops, p, f.def, code.body,
              Bind(code.captures + code.params, f.captures + all[..|code.params|]), fuel - 1);
          if r.Yields? then Apply(ops, p, r.v, all[|code.params|..], fuel - 1) else r
  {
    hide Run, Bind;
  }

  /** A direct call of a function that captures nothing. */
  lemma DirectCall(ops: Prims, p: Program, c: nat, args: seq<CVal>, fuel: nat)
    requires c in p.defs && p.defs[c].fns != [] && p.defs[c].fns[0].captures == []
    requires args != [] && |args| >= |p.defs[c].fns[0].params|
    ensures var fn := p.defs[c].fns[0];
      Apply(ops, p, Fun(c, 0, [], []), args, fuel) ==
        if fuel == 0 then Timeout
        else
          var r := Run(ops, p, c, fn.body, Bind(fn.params, args[..|fn.params|]), fuel - 1);
          if r.Yields? then Apply(ops, p, r.v, args[|fn.params|..], fuel - 1) else r
  {
    var f := Fun(c, 0, [], []);
    EnoughArguments(ops, p, f, args, fuel);
    hide Apply, Run, Bind;
    var code := CodeOf(p, f);
    var all := f.args + args;
    assert all == args;
    var ids, vals := code.captures + code.params, f.captures + all[..|code.params|];
    assert ids == code.params && vals == args[..|code.params|];
  }
}
