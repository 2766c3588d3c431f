/** Loop parameters that keep their incoming array layout: the scan and what it promises
    over every iteration. */
module ArrayLayout {
  import opened Machine
  import opened Primitives
  import opened Core
  import opened CoreLoop

  const WALK_BUDGET: nat := 1024

  datatype State = State(origins: map<nat, nat>, candidates: set<nat>, budget: nat, backedge: bool, valid: bool)

  predicate KeepsLayout(op: Prim) {
    op == ArraySet || op == ArrayPut || op == ArrayUnique
  }

  /** The parameter whose layout a term's value has. */
  function Origin(origins: map<nat, nat>, e: Expr): Option<nat> {
    match e
    case Local(x) => if x in origins then Some(origins[x]) else None
    case Prim(op, args) => if KeepsLayout(op) && args != [] then Origin(origins, args[0]) else None
    case Dup(_, body) => Origin(origins, body)
    case Drop(_, body) => Origin(origins, body)
    case _ => None
  }

  function AfterLet(st: State, local: nat, value: Expr): State {
    match Origin(st.origins, value)
    case Some(p) => st.(origins := st.origins[local := p])
    case None => st.(origins := st.origins - {local})
  }

  /** Parameters passed something else than their own layout are no candidates. */
  function Passed(st: State, params: seq<nat>, args: seq<Expr>): State
    requires |params| == |args|
    decreases |params|
  {
    if params == [] then st
    else
      var st1 := if Origin(st.origins, args[0]) == Some(params[0]) then st
          else st.(candidates := st.candidates - {params[0]});
      Passed(st1, params[1..], args[1..])
  }

  function Walk(params: seq<nat>, st: State, e: Expr): State
    decreases e, 1
  {
    if st.budget == 0 then st.(valid := false) else WalkNode(params, st.(budget := st.budget - 1), e)
  }

  function WalkNode(params: seq<nat>, st: State, e: Expr): State
    decreases e, 0
  {
    match e
    case Let(local, value, body) => Walk(params, AfterLet(Walk(params, st, value), local, value), body)
    case If(cond, thn, els) =>
      var st1 := Walk(params, st, cond);
      var st2 := Walk(params, st1, thn);
      Walk(params, st2.(origins := st1.origins), els).(origins := st1.origins)
    case Recur(args) =>
      var st := st.(backedge := true);
      if |args| != |params| then st.(valid := false) else Passed(st, params, args)
    case Join(_, _) => st.(valid := false)
    case Reset(value, _, body) => Walk(params, Walk(params, st, value), body)
    case Prim(_, args) => WalkAll(params, st, args)
    case Foreign(_, args) => WalkAll(params, st, args)
    case MakeData(_, args) => WalkAll(params, st, args)
    case App(func, args) => WalkAll(params, Walk(params, st, func), args)
    case DataTag(base) => Walk(params, st, base)
    case DataField(base, _) => Walk(params, st, base)
    case Dup(_, body) => Walk(params, st, body)
    case Drop(_, body) => Walk(params, st, body)
    case FreeReuse(_, body) => Walk(params, st, body)
    case _ => st
  }

  function WalkAll(params: seq<nat>, st: State, args: seq<Expr>): State
    decreases args, 2
  {
    if args == [] then st else WalkAll(params, Walk(params, st, args[0]), args[1..])
  }

  function Start(params: seq<nat>): State {
    State(map p | p in params :: p, ParamSet(params), WALK_BUDGET, false, true)
  }

  function Invariant(params: seq<nat>, body: Expr): set<nat> {
    var st := Walk(params, Start(params), body);
    if st.valid && st.backedge then st.candidates else {}
  }

  // ----- the scan as the compiler runs it -----

  class Scan {
    const params: seq<nat>
    var origins: map<nat, nat>
    var candidates: set<nat>
    var budget: nat
    var sawBackedge: bool
    var valid: bool

    function Now(): State
      reads this
    {
      State(origins, candidates, budget, sawBackedge, valid)
    }

    constructor (params: seq<nat>)
      ensures this.params == params && Now() == Start(params)
    {
      this.params := params;
      origins, candidates := map p | p in params :: p, ParamSet(params);
      budget, sawBackedge, valid := WALK_BUDGET, false, true;
    }

    method Visit(e: Expr)
      modifies this
      ensures Now() == Walk(params, old(Now()), e)
      decreases e, 2
    {
      hide WalkNode;
      if budget == 0 {
        valid := false;
        return;
      }
      budget := budget - 1;
      VisitNode(e);
    }

    method VisitNode(e: Expr)
      modifies this
      ensures Now() == WalkNode(params, old(Now()), e)
      decreases e, 1
    {
      hide Walk, WalkAll, Passed, AfterLet, Now;
      match e
      case Let(local, value, body) =>
        Visit(value);
        RecordOrigin(local, value);
        Visit(body);
      case If(cond, thn, els) =>
        Visit(cond);
        VisitBranches(e);
      case Recur(args) => VisitRecur(args);
      case Join(_, _) => Reject();
      case Reset(value, _, body) => Visit(value); Visit(body);
      case Prim(_, args) => VisitAll(args);
      case Foreign(_, args) => VisitAll(args);
      case MakeData(_, args) => VisitAll(args);
      case App(func, args) => Visit(func); VisitAll(args);
      case DataTag(base) => Visit(base);
      case DataField(base, _) => Visit(base);
      case Dup(_, body) => Visit(body);
      case Drop(_, body) => Visit(body);
      case FreeReuse(_, body) => Visit(body);
      case _ =>
    }

    /** Both branches start from the same origins, and what they learn is forgotten after. */
    method VisitBranches(e: Expr)
      requires e.If?
      modifies this
      ensures var st := old(Now());
        Now() == Walk(params, Walk(params, st, e.thn).(origins := st.origins), e.els).(origins := st.origins)
      decreases e, 0
    {
      hide Walk;
      var incoming := origins;
      Visit(e.thn);
      origins := incoming;
      Visit(e.els);
      origins := incoming;
    }

    method Reject()
      modifies this
      ensures Now() == old(Now()).(valid := false)
    {
      valid := false;
    }

    method RecordOrigin(local: nat, value: Expr)
      modifies this
      ensures Now() == AfterLet(old(Now()), local, value)
    {
      var origin := Origin(origins, value);
      if origin.Some? {
        origins := origins[local := origin.value];
      } else {
        origins := origins - {local};
      }
    }

    method VisitRecur(args: seq<Expr>)
      modifies this
      ensures var st := old(Now()).(backedge := true);
        Now() == if |args| != |params| then st.(valid := false) else Passed(st, params, args)
    {
      sawBackedge := true;
      if |args| != |params| {
        valid := false;
        return;
      }
      ghost var st := Now();
      var i := 0;
      while i < |args|
        invariant 0 <= i <= |args| && Passed(st, params, args) == Passed(Now(), params[i..], args[i..])
      {
        assert params[i..][1..] == params[i + 1..] && args[i..][1..] == args[i + 1..];
        if Origin(origins, args[i]) != Some(params[i]) {
          candidates := candidates - {params[i]};
        }
        i := i + 1;
      }
    }

    method VisitAll(args: seq<Expr>)
      modifies this
      ensures Now() == WalkAll(params, old(Now()), args)
      decreases args, 3
    {
      if args != [] {
        Visit(args[0]);
        VisitAll(args[1..]);
      }
    }
  }

  method FindInvariant(params: seq<nat>, body: Expr) returns (kept: set<nat>)
    ensures kept == Invariant(params, body)
  {
    var scan := new Scan(params);
    scan.Visit(body);
    kept := if scan.valid && scan.sawBackedge then scan.candidates else {};
  }
}
