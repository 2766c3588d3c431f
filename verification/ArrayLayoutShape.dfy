/** Which parameters keep their layout: a lexical description of the back-edges, without the
    scanner's state or budget, that holds exactly of the parameters it keeps. */
module ArrayLayoutShape {
  import opened Machine
  import opened Core
  import opened CoreLoop
  import opened ArrayLayout

  type Origins = map<nat, nat>

  /** What a node is made of. The operands of a back-edge are not looked into. */
  function Parts(e: Expr): seq<Expr> {
    match e
    case Let(_, value, body) => [value, body]
    case If(cond, thn, els) => [cond, thn, els]
    case Reset(value, _, body) => [value, body]
    case Prim(_, args) => args
    case Foreign(_, args) => args
    case MakeData(_, args) => args
    case App(func, args) => [func] + args
    case DataTag(base) => [base]
    case DataField(base, _) => [base]
    case Dup(_, body) => [body]
    case Drop(_, body) => [body]
    case FreeReuse(_, body) => [body]
    case _ => []
  }

  lemma PartsCount(e: Expr)
    ensures NodeCountAll(Parts(e)) < NodeCount(e)
  {
    match e
    case Let(_, value, body) => TwoCount(value, body);
    case If(cond, thn, els) =>
      assert [cond, thn, els][1..] == [thn, els];
      TwoCount(thn, els);
    case Reset(value, _, body) => TwoCount(value, body);
    case App(func, args) => assert ([func] + args)[1..] == args;
    case DataTag(base) => OneCount(base);
    case DataField(base, _) => OneCount(base);
    case Dup(_, body) => OneCount(body);
    case Drop(_, body) => OneCount(body);
    case FreeReuse(_, body) => OneCount(body);
    case _ =>
  }

  lemma OneCount(e: Expr)
    ensures NodeCountAll([e]) == NodeCount(e)
  {
    assert [e][1..] == [];
  }

  lemma TwoCount(a: Expr, b: Expr)
    ensures NodeCountAll([a, b]) == NodeCount(a) + NodeCount(b)
  {
    assert [a, b][1..] == [b];
    OneCount(b);
  }

  /** How many nodes are looked at. */
  function Visits(e: Expr): nat
    decreases NodeCount(e), 1
  {
    PartsCount(e);
    1 + VisitsIn(Parts(e))
  }

  function VisitsIn(args: seq<Expr>): nat
    decreases NodeCountAll(args), 2
  {
    if args == [] then 0 else HeadCount(args); Visits(args[0]) + VisitsIn(args[1..])
  }

  lemma HeadCount(args: seq<Expr>)
    requires args != []
    ensures NodeCountAll(args) == NodeCount(args[0]) + NodeCountAll(args[1..]) && NodeCount(args[0]) > 0
  {
  }

  /** No inner loop, and every back-edge passes every parameter. */
  predicate Shaped(arity: nat, e: Expr)
    decreases NodeCount(e), 1
  {
    PartsCount(e);
    !e.Join? && (e.Recur? ==> |e.args| == arity) && ShapedIn(arity, Parts(e))
  }

  predicate ShapedIn(arity: nat, args: seq<Expr>)
    decreases NodeCountAll(args), 2
  {
    args == [] || (HeadCount(args); Shaped(arity, args[0]) && ShapedIn(arity, args[1..]))
  }

  /** Some node is a back-edge. */
  predicate LoopsBack(e: Expr)
    decreases NodeCount(e), 1
  {
    PartsCount(e);
    e.Recur? || LoopsBackIn(Parts(e))
  }

  predicate LoopsBackIn(args: seq<Expr>)
    decreases NodeCountAll(args), 2
  {
    args != [] && (HeadCount(args); LoopsBack(args[0]) || LoopsBackIn(args[1..]))
  }

  /** The origins in scope after a binding. */
  function Bound(o: Origins, local: nat, value: Expr): Origins {
    match Origin(o, value)
    case Some(p) => o[local := p]
    case None => o - {local}
  }

  /** Every back-edge passes `p` a value of its own layout. */
  ghost predicate Passes(params: seq<nat>, o: Origins, e: Expr, p: nat)
    decreases NodeCount(e), 1
  {
    PartsCount(e);
    match e
    case Let(local, value, body) => Passes(params, o, value, p) && Passes(params, Bound(o, local, value), body, p)
    case Recur(args) => forall i :: 0 <= i < |params| && i < |args| && params[i] == p ==> Origin(o, args[i]) == Some(p)
    case _ => PassesIn(params, o, Parts(e), p)
  }

  ghost predicate PassesIn(params: seq<nat>, o: Origins, args: seq<Expr>, p: nat)
    decreases NodeCountAll(args), 2
  {
    args != [] ==> (HeadCount(args); Passes(params, o, args[0], p) && PassesIn(params, o, args[1..], p))
  }

  // ----- the scanner computes the description -----

  /** The scanner's origins are the lexical ones of every local in scope. */
  ghost predicate Knows(scope: set<nat>, o: Origins, known: Origins) {
    forall x :: x in scope ==> (x in o <==> x in known) && (x in o ==> known[x] == o[x])
  }

  ghost predicate Fits(scope: set<nat>, o: Origins, known: Origins, e: Expr) {
    Knows(scope, o, known) && Scoped(e, scope) && BoundOnce(e) && Binders(e) !! scope
  }

  ghost predicate FitsIn(scope: set<nat>, o: Origins, known: Origins, args: seq<Expr>) {
    Knows(scope, o, known) && ScopedIn(args, scope) && BoundOnceIn(args) && BindersIn(args) !! scope
  }

  lemma {:induction false} OriginExact(scope: set<nat>, o: Origins, known: Origins, e: Expr)
    requires Knows(scope, o, known) && Scoped(e, scope)
    ensures Origin(known, e) == Origin(o, e)
  {
    match e
    case Prim(op, args) => if args != [] { OriginExact(scope, o, known, args[0]); }
    case Dup(_, body) => OriginExact(scope, o, known, body);
    case Drop(_, body) => OriginExact(scope, o, known, body);
    case _ =>
  }

  /** What the scan of a term does to the state, seen at `p`. */
  ghost predicate Scanned(scope: set<nat>, o: Origins, p: nat, st: State, r: State, visits: nat, shaped: bool,
      passes: bool, loops: bool)
  {
    && Knows(scope, o, r.origins)
    && (r.valid <==> st.valid && visits <= st.budget && shaped)
    && (r.valid ==>
        && r.budget == st.budget - visits && (p in r.candidates <==> p in st.candidates && passes)
        && (r.backedge <==> st.backedge || loops))
  }

  lemma ScannedThen(scope: set<nat>, o: Origins, p: nat, st: State, m: State, r: State, v1: nat, v2: nat,
      s1: bool, s2: bool, p1: bool, p2: bool, l1: bool, l2: bool)
    requires Scanned(scope, o, p, st, m, v1, s1, p1, l1) && Scanned(scope, o, p, m, r, v2, s2, p2, l2)
    ensures Scanned(scope, o, p, st, r, v1 + v2, s1 && s2, p1 && p2, l1 || l2)
  {
  }

  ghost predicate Exact(params: seq<nat>, scope: set<nat>, o: Origins, p: nat, st: State, e: Expr, r: State) {
    Scanned(scope, o, p, st, r, Visits(e), Shaped(|params|, e), Passes(params, o, e, p), LoopsBack(e))
  }

  ghost predicate ExactIn(params: seq<nat>, scope: set<nat>, o: Origins, p: nat, st: State, args: seq<Expr>, r: State) {
    Scanned(scope, o, p, st, r, VisitsIn(args), ShapedIn(|params|, args), PassesIn(params, o, args, p),
            LoopsBackIn(args))
  }

  lemma {:induction false} WalkExact(params: seq<nat>, scope: set<nat>, o: Origins, p: nat, st: State, e: Expr)
    requires Fits(scope, o, st.origins, e)
    ensures Exact(params, scope, o, p, st, e, Walk(params, st, e))
    decreases NodeCount(e), 3
  {
    hide WalkNode, Scanned, Fits, Visits, Shaped, Passes, LoopsBack, NodeCount;
    if st.budget == 0 {
      OutOfBudget(params, scope, o, p, st, e);
    } else {
      NodeExact(params, scope, o, p, Paid(st), e);
      PaidScanned(params, scope, o, p, st, e, WalkNode(params, Paid(st), e));
    }
  }

  function Paid(st: State): State
    requires st.budget > 0
  {
    st.(budget := st.budget - 1)
  }

  /** The node itself has been paid for. */
  ghost predicate NodeScanned(params: seq<nat>, scope: set<nat>, o: Origins, p: nat, st: State, e: Expr, r: State) {
    Scanned(scope, o, p, st, r, Visits(e) - 1, Shaped(|params|, e), Passes(params, o, e, p), LoopsBack(e))
  }

  lemma PaidScanned(params: seq<nat>, scope: set<nat>, o: Origins, p: nat, st: State, e: Expr, r: State)
    requires st.budget > 0 && NodeScanned(params, scope, o, p, Paid(st), e, r)
    ensures Exact(params, scope, o, p, st, e, r)
  {
    hide Shaped, Passes, LoopsBack, Knows, VisitsIn;
  }

  lemma OutOfBudget(params: seq<nat>, scope: set<nat>, o: Origins, p: nat, st: State, e: Expr)
    requires st.budget == 0 && Fits(scope, o, st.origins, e)
    ensures Exact(params, scope, o, p, st, e, Walk(params, st, e))
  {
    hide Shaped, Passes, LoopsBack, Knows, VisitsIn;
  }

  lemma {:induction false} NodeExact(params: seq<nat>, scope: set<nat>, o: Origins, p: nat, st: State, e: Expr)
    requires Fits(scope, o, st.origins, e)
    ensures NodeScanned(params, scope, o, p, st, e, WalkNode(params, st, e))
    decreases NodeCount(e), 2
  {
    hide *;
    match e
    case Let(_, _, _) => LetExact(params, scope, o, p, st, e);
    case If(_, _, _) => IfExact(params, scope, o, p, st, e);
    case Recur(_) => RecurExact(params, scope, o, p, st, e);
    case Join(_, _) => JoinExact(params, scope, o, p, st, e);
    case _ => PartsExact(params, scope, o, p, st, e);
  }

  lemma {:induction false} PassedExact(st: State, params: seq<nat>, args: seq<Expr>, p: nat)
    requires |params| == |args|
    ensures var r := Passed(st, params, args);
      && r == st.(candidates := r.candidates)
      && (p in r.candidates <==>
          && p in st.candidates
          && forall i :: 0 <= i < |params| && params[i] == p ==> Origin(st.origins, args[i]) == Some(p))
    decreases |params|
  {
    if params != [] {
      var st1 := if Origin(st.origins, args[0]) == Some(params[0]) then st
          else st.(candidates := st.candidates - {params[0]});
      PassedExact(st1, params[1..], args[1..], p);
      assert forall i :: 0 < i < |params| ==> params[i] == params[1..][i - 1] && args[i] == args[1..][i - 1];
      assert forall i :: 0 <= i < |params| - 1 ==> params[1..][i] == params[i + 1] && args[1..][i] == args[i + 1];
    }
  }

  lemma RecurParts(params: seq<nat>, o: Origins, p: nat, e: Expr)
    requires e.Recur?
    ensures Visits(e) == 1 && (Shaped(|params|, e) <==> |e.args| == |params|) && LoopsBack(e)
    ensures Passes(params, o, e, p) <==>
      forall i :: 0 <= i < |params| && i < |e.args| && params[i] == p ==> Origin(o, e.args[i]) == Some(p)
  {
    hide Origin;
    assert Parts(e) == [] && VisitsIn([]) == 0 && ShapedIn(|params|, []);
  }

  lemma OriginsExact(scope: set<nat>, o: Origins, known: Origins, e: Expr)
    requires e.Recur? && Fits(scope, o, known, e)
    ensures forall i :: 0 <= i < |e.args| ==> Origin(known, e.args[i]) == Origin(o, e.args[i])
  {
    hide Origin, Binders, BoundOnce;
    forall i | 0 <= i < |e.args| ensures Origin(known, e.args[i]) == Origin(o, e.args[i]) {
      ArgScoped(e.args, scope, i);
      OriginExact(scope, o, known, e.args[i]);
    }
  }

  lemma RecurExact(params: seq<nat>, scope: set<nat>, o: Origins, p: nat, st: State, e: Expr)
    requires e.Recur? && Fits(scope, o, st.origins, e)
    ensures NodeScanned(params, scope, o, p, st, e, WalkNode(params, st, e))
  {
    hide Origin, Binders, BoundOnce, Visits, Shaped, LoopsBack, Passes, Scoped;
    RecurParts(params, o, p, e);
    if |e.args| == |params| {
      PassedExact(st.(backedge := true), params, e.args, p);
      OriginsExact(scope, o, st.origins, e);
    }
  }

  lemma JoinExact(params: seq<nat>, scope: set<nat>, o: Origins, p: nat, st: State, e: Expr)
    requires e.Join? && Fits(scope, o, st.origins, e)
    ensures NodeScanned(params, scope, o, p, st, e, WalkNode(params, st, e))
  {
    hide Binders, BoundOnce, Scoped, Passes, LoopsBack, Visits;
  }

  lemma PartsFit(scope: set<nat>, o: Origins, known: Origins, e: Expr)
    requires !e.Let? && !e.Recur? && !e.Join? && Fits(scope, o, known, e)
    ensures FitsIn(scope, o, known, Parts(e))
  {
    hide Knows;
    match e
    case If(cond, thn, els) => ThreeFit([cond, thn, els], scope);
    case Reset(value, _, body) => TwoFit([value, body], scope);
    case App(func, args) => assert ([func] + args)[1..] == args;
    case DataTag(base) => OneFit(base, scope);
    case DataField(base, _) => OneFit(base, scope);
    case Dup(_, body) => OneFit(body, scope);
    case Drop(_, body) => OneFit(body, scope);
    case FreeReuse(_, body) => OneFit(body, scope);
    case _ =>
  }

  lemma OneFit(e: Expr, scope: set<nat>)
    ensures BindersIn([e]) == Binders(e) && (ScopedIn([e], scope) <==> Scoped(e, scope))
    ensures BoundOnceIn([e]) <==> BoundOnce(e)
  {
    hide Binders, Scoped, BoundOnce;
    assert [e][1..] == [] && BindersIn([]) == {} && ScopedIn([], scope) && BoundOnceIn([]);
  }

  lemma TwoFit(es: seq<Expr>, scope: set<nat>)
    requires |es| == 2
    ensures BindersIn(es) == Binders(es[0]) + Binders(es[1])
    ensures ScopedIn(es, scope) <==> Scoped(es[0], scope) && Scoped(es[1], scope)
    ensures BoundOnceIn(es) <==> BoundOnce(es[0]) && BoundOnce(es[1]) && Binders(es[0]) !! Binders(es[1])
  {
    hide Binders, Scoped, BoundOnce;
    assert es[1..] == [es[1]];
    OneFit(es[1], scope);
  }

  lemma ThreeFit(es: seq<Expr>, scope: set<nat>)
    requires |es| == 3
    ensures BindersIn(es) == Binders(es[0]) + Binders(es[1]) + Binders(es[2])
    ensures ScopedIn(es, scope) <==> Scoped(es[0], scope) && Scoped(es[1], scope) && Scoped(es[2], scope)
    ensures BoundOnceIn(es) <==>
      && BoundOnce(es[0]) && BoundOnce(es[1]) && BoundOnce(es[2])
      && Binders(es[0]) !! Binders(es[1]) && Binders(es[0]) !! Binders(es[2]) && Binders(es[1]) !! Binders(es[2])
  {
    hide Binders, Scoped, BoundOnce;
    TwoFit(es[1..], scope);
  }

  lemma PartsWalk(params: seq<nat>, st: State, e: Expr)
    requires !e.Let? && !e.Recur? && !e.Join? && !e.If?
    ensures WalkNode(params, st, e) == WalkAll(params, st, Parts(e))
  {
    hide Walk;
    match e
    case Reset(value, _, body) =>
      assert [value, body][1..] == [body] && [body][1..] == [];
      assert WalkAll(params, Walk(params, st, value), [body]) == Walk(params, Walk(params, st, value), body);
    case App(func, args) => assert ([func] + args)[1..] == args;
    case DataTag(base) => assert [base][1..] == [];
    case DataField(base, _) => assert [base][1..] == [];
    case Dup(_, body) => assert [body][1..] == [];
    case Drop(_, body) => assert [body][1..] == [];
    case FreeReuse(_, body) => assert [body][1..] == [];
    case _ =>
  }

  /** A node that neither binds, branches nor loops is its parts in order. */
  lemma PartsOf(params: seq<nat>, o: Origins, p: nat, e: Expr)
    requires !e.Let? && !e.Recur? && !e.Join?
    ensures Visits(e) == 1 + VisitsIn(Parts(e)) && (Shaped(|params|, e) <==> ShapedIn(|params|, Parts(e)))
    ensures Passes(params, o, e, p) <==> PassesIn(params, o, Parts(e), p)
    ensures LoopsBack(e) <==> LoopsBackIn(Parts(e))
  {
    hide VisitsIn, ShapedIn, PassesIn, LoopsBackIn, NodeCount;
  }

  lemma {:induction false} PartsExact(params: seq<nat>, scope: set<nat>, o: Origins, p: nat, st: State, e: Expr)
    requires !e.Let? && !e.Recur? && !e.Join? && !e.If? && Fits(scope, o, st.origins, e)
    ensures NodeScanned(params, scope, o, p, st, e, WalkNode(params, st, e))
    decreases NodeCount(e), 1
  {
    hide Fits, FitsIn, WalkNode, WalkAll, Scanned, Visits, VisitsIn, Shaped, ShapedIn, Passes, PassesIn, LoopsBack,
      LoopsBackIn, NodeCount, NodeCountAll, Parts;
    PartsCount(e);
    PartsFit(scope, o, st.origins, e);
    PartsWalk(params, st, e);
    PartsOf(params, o, p, e);
    WalkAllExact(params, scope, o, p, st, Parts(e));
  }

  lemma {:induction false} IfExact(params: seq<nat>, scope: set<nat>, o: Origins, p: nat, st: State, e: Expr)
    requires e.If? && Fits(scope, o, st.origins, e)
    ensures NodeScanned(params, scope, o, p, st, e, WalkNode(params, st, e))
    decreases NodeCount(e), 1
  {
    hide Walk, Scanned, Visits, Shaped, Passes, LoopsBack, Scoped, BoundOnce, Binders, Knows;
    IfFits(scope, o, st.origins, e);
    WalkExact(params, scope, o, p, st, e.cond);
    var st1 := Walk(params, st, e.cond);
    ScannedKnows(params, scope, o, p, st, e.cond, st1);
    WalkExact(params, scope, o, p, st1, e.thn);
    var st2 := Walk(params, st1, e.thn);
    var st3 := st2.(origins := st1.origins);
    Restored(params, scope, o, p, st1, st2, e.thn, st1.origins);
    WalkExact(params, scope, o, p, st3, e.els);
    var st4 := Walk(params, st3, e.els);
    Restored(params, scope, o, p, st3, st4, e.els, st1.origins);
    ThreeScanned(params, scope, o, p, st, st1, st3, st4.(origins := st1.origins), e);
  }

  lemma IfFits(scope: set<nat>, o: Origins, known: Origins, e: Expr)
    requires e.If? && Fits(scope, o, known, e)
    ensures Scoped(e.cond, scope) && Scoped(e.thn, scope) && Scoped(e.els, scope)
    ensures BoundOnce(e.cond) && BoundOnce(e.thn) && BoundOnce(e.els)
    ensures Binders(e.cond) !! scope && Binders(e.thn) !! scope && Binders(e.els) !! scope
    ensures NodeCount(e.cond) < NodeCount(e) && NodeCount(e.thn) < NodeCount(e) && NodeCount(e.els) < NodeCount(e)
    ensures Knows(scope, o, known)
  {
  }

  lemma ScannedKnows(params: seq<nat>, scope: set<nat>, o: Origins, p: nat, st: State, e: Expr, r: State)
    requires Exact(params, scope, o, p, st, e, r)
    ensures Knows(scope, o, r.origins)
  {
    hide Visits, Shaped, Passes, LoopsBack, Knows;
  }

  /** Forgetting what a branch learned. */
  lemma Restored(params: seq<nat>, scope: set<nat>, o: Origins, p: nat, st: State, r: State, e: Expr, origins: Origins)
    requires Exact(params, scope, o, p, st, e, r) && Knows(scope, o, origins)
    ensures Exact(params, scope, o, p, st, e, r.(origins := origins))
  {
    hide Visits, Shaped, Passes, LoopsBack, Knows;
  }

  lemma ThreeScanned(params: seq<nat>, scope: set<nat>, o: Origins, p: nat, st: State, st1: State, st2: State,
      st3: State, e: Expr)
    requires e.If? && Exact(params, scope, o, p, st, e.cond, st1) && Exact(params, scope, o, p, st1, e.thn, st2)
    requires Exact(params, scope, o, p, st2, e.els, st3)
    ensures NodeScanned(params, scope, o, p, st, e, st3)
  {
    hide Visits, Shaped, Passes, LoopsBack, Knows, NodeCount, NodeCountAll;
    PartsOf(params, o, p, e);
    assert [e.cond, e.thn, e.els][1..] == [e.thn, e.els] && [e.thn, e.els][1..] == [e.els] && [e.els][1..] == [];
    assert VisitsIn([e.els]) == Visits(e.els) && VisitsIn([e.thn, e.els]) == Visits(e.thn) + Visits(e.els);
    assert ShapedIn(|params|, [e.els]) <==> Shaped(|params|, e.els);
    assert ShapedIn(|params|, [e.thn, e.els]) <==> Shaped(|params|, e.thn) && Shaped(|params|, e.els);
    assert PassesIn(params, o, [e.els], p) <==> Passes(params, o, e.els, p);
    assert PassesIn(params, o, [e.thn, e.els], p) <==> Passes(params, o, e.thn, p) && Passes(params, o, e.els, p);
    assert LoopsBackIn([e.els]) <==> LoopsBack(e.els);
    assert LoopsBackIn([e.thn, e.els]) <==> LoopsBack(e.thn) || LoopsBack(e.els);
  }

  lemma {:induction false} LetExact(params: seq<nat>, scope: set<nat>, o: Origins, p: nat, st: State, e: Expr)
    requires e.Let? && Fits(scope, o, st.origins, e)
    ensures NodeScanned(params, scope, o, p, st, e, WalkNode(params, st, e))
    decreases NodeCount(e), 1
  {
    hide Walk, Scanned, Visits, Shaped, Passes, LoopsBack, Scoped, BoundOnce, Binders, Knows, Origin, AfterLet, Bound;
    LetFits(scope, o, st.origins, e);
    WalkExact(params, scope, o, p, st, e.value);
    var st1 := Walk(params, st, e.value);
    ScannedKnows(params, scope, o, p, st, e.value, st1);
    var st2 := AfterLet(st1, e.local, e.value);
    AfterLetKnows(scope, o, st1, e.local, e.value);
    WalkExact(params, scope + {e.local}, Bound(o, e.local, e.value), p, st2, e.body);
    LetScanned(params, scope, o, p, st, st1, st2, Walk(params, st2, e.body), e);
  }

  lemma LetFits(scope: set<nat>, o: Origins, known: Origins, e: Expr)
    requires e.Let? && Fits(scope, o, known, e)
    ensures Fits(scope, o, known, e.value)
    ensures Scoped(e.body, scope + {e.local}) && BoundOnce(e.body) && Binders(e.body) !! scope + {e.local}
    ensures e.local !in scope && NodeCount(e.value) < NodeCount(e) && NodeCount(e.body) < NodeCount(e)
  {
  }

  lemma AfterLetKnows(scope: set<nat>, o: Origins, st: State, local: nat, value: Expr)
    requires Knows(scope, o, st.origins) && Scoped(value, scope) && local !in scope
    ensures Knows(scope + {local}, Bound(o, local, value), AfterLet(st, local, value).origins)
    ensures AfterLet(st, local, value) == st.(origins := AfterLet(st, local, value).origins)
  {
    OriginExact(scope, o, st.origins, value);
    hide Origin, Scoped;
  }

  lemma LetScanned(params: seq<nat>, scope: set<nat>, o: Origins, p: nat, st: State, st1: State, st2: State, r: State,
      e: Expr)
    requires e.Let? && Exact(params, scope, o, p, st, e.value, st1) && e.local !in scope
    requires st2 == st1.(origins := st2.origins)
    requires Exact(params, scope + {e.local}, Bound(o, e.local, e.value), p, st2, e.body, r)
    ensures NodeScanned(params, scope, o, p, st, e, r)
  {
    LetParts(params, o, p, e);
    assert Knows(scope, o, r.origins) by { OuterKnows(scope, o, e.local, e.value, r.origins); }
    hide Visits, Shaped, Passes, LoopsBack, Knows, NodeCount, NodeCountAll;
  }

  lemma OuterKnows(scope: set<nat>, o: Origins, local: nat, value: Expr, known: Origins)
    requires Knows(scope + {local}, Bound(o, local, value), known) && local !in scope
    ensures Knows(scope, o, known)
  {
  }

  lemma LetParts(params: seq<nat>, o: Origins, p: nat, e: Expr)
    requires e.Let?
    ensures Visits(e) == 1 + Visits(e.value) + Visits(e.body)
    ensures Shaped(|params|, e) <==> Shaped(|params|, e.value) && Shaped(|params|, e.body)
    ensures LoopsBack(e) <==> LoopsBack(e.value) || LoopsBack(e.body)
    ensures Passes(params, o, e, p) <==>
      Passes(params, o, e.value, p) && Passes(params, Bound(o, e.local, e.value), e.body, p)
  {
    assert [e.value, e.body][1..] == [e.body] && [e.body][1..] == [];
    assert VisitsIn([e.body]) == Visits(e.body) && (LoopsBackIn([e.body]) <==> LoopsBack(e.body));
    assert ShapedIn(|params|, [e.body]) <==> Shaped(|params|, e.body);
  }

  lemma FirstFits(scope: set<nat>, o: Origins, known: Origins, args: seq<Expr>)
    requires args != [] && FitsIn(scope, o, known, args)
    ensures Fits(scope, o, known, args[0])
  {
    hide Knows;
  }

  lemma RestFits(scope: set<nat>, o: Origins, known: Origins, after: Origins, args: seq<Expr>)
    requires args != [] && FitsIn(scope, o, known, args) && Knows(scope, o, after)
    ensures FitsIn(scope, o, after, args[1..])
  {
    hide Knows;
  }

  lemma NothingScanned(scope: set<nat>, o: Origins, p: nat, st: State)
    requires Knows(scope, o, st.origins)
    ensures Scanned(scope, o, p, st, st, 0, true, true, false)
  {
    hide Knows;
  }

  lemma {:induction false} WalkAllExact(params: seq<nat>, scope: set<nat>, o: Origins, p: nat, st: State,
      args: seq<Expr>)
    requires FitsIn(scope, o, st.origins, args)
    ensures ExactIn(params, scope, o, p, st, args, WalkAll(params, st, args))
    decreases NodeCountAll(args), 4
  {
    hide Scanned, Knows, Walk, Visits, Shaped, Passes, LoopsBack, Scoped, BoundOnce, Binders, NodeCount;
    if args == [] {
      NothingScanned(scope, o, p, st);
    } else {
      HeadCount(args);
      FirstFits(scope, o, st.origins, args);
      WalkExact(params, scope, o, p, st, args[0]);
      var m := Walk(params, st, args[0]);
      ScannedKnows(params, scope, o, p, st, args[0], m);
      RestFits(scope, o, st.origins, m.origins, args);
      WalkAllExact(params, scope, o, p, m, args[1..]);
      ScannedThen(scope, o, p, st, m, WalkAll(params, m, args[1..]), Visits(args[0]), VisitsIn(args[1..]),
        Shaped(|params|, args[0]), ShapedIn(|params|, args[1..]), Passes(params, o, args[0], p),
        PassesIn(params, o, args[1..], p), LoopsBack(args[0]), LoopsBackIn(args[1..]));
    }
  }

  // ----- which parameters are kept -----

  /** The parameters are their own origins. */
  function Entry(params: seq<nat>): Origins {
    map p | p in params :: p
  }

  /** A parameter is kept exactly when the loop has a back-edge, every back-edge passes it a value
      of its own layout, and the body is within the budget. */
  lemma InvariantExact(params: seq<nat>, body: Expr, p: nat)
    requires BoundOnce(body) && Binders(body) !! ParamSet(params) && Scoped(body, ParamSet(params))
    ensures p in Invariant(params, body) <==>
      && p in params && Shaped(|params|, body) && LoopsBack(body) && Passes(params, Entry(params), body, p)
      && Visits(body) <= 1024
  {
    hide Walk, Visits, Shaped, Passes, LoopsBack, Scoped, BoundOnce, Binders;
    WalkExact(params, ParamSet(params), Entry(params), p, Start(params), body);
  }
}
