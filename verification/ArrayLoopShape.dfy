/** Which loops update one buffer: a lexical description of its uses, without the scanner's
    state or budget, that holds exactly when the planner answers. */
module ArrayLoopShape {
  import opened Machine
  import opened Primitives
  import opened Core
  import opened CoreLoop
  import opened ArrayLoopPlan

  /** The value is the buffer, held by one of `names`, bound inside, or just updated. */
  predicate IsBuffer(names: set<nat>, e: Expr)
    decreases e, 0
  {
    match e
    case Local(x) => x in names
    case Prim(op, args) => op == ArraySet && |args| > 0 && IsBuffer(names, args[0])
    case Let(local, value, body) => IsBuffer(Naming(names, local, value), body)
    case Drop(_, body) => IsBuffer(names, body)
    case Dup(_, body) => IsBuffer(names, body)
    case _ => false
  }

  /** The buffer's names after a binding. */
  function Naming(names: set<nat>, local: nat, value: Expr): set<nat>
    decreases value, 1
  {
    if IsBuffer(names, value) then names + {local} else names
  }

  predicate ReadsArray(op: Prim) {
    op == ArrayLength || op == ArrayGet || op == ArraySet
  }

  /** Everything is a scalar except the buffer, which is only measured, read, updated, handed
      back in its position, or the result. */
  predicate OneBuffer(cx: Context, names: set<nat>, e: Expr, result: bool)
    decreases e, 1
  {
    match e
    case Local(x) => if x in names then result else Scalar(if x in cx.types then cx.types[x] else cx.ty(e))
    case Lit(lit) => ScalarLit(lit)
    case Error => true
    case Let(local, value, body) =>
      OneBuffer(cx, names, value, true) && OneBuffer(cx, Naming(names, local, value), body, result)
    case If(cond, thn, els) =>
      OneBuffer(cx, names, cond, false) && OneBuffer(cx, names, thn, result) && OneBuffer(cx, names, els, result)
    case Prim(op, args) =>
      if ReadsArray(op) then
        && |args| > 0 && ArrayResult(names, args[0]) && OneBuffer(cx, names, args[0], true)
        && (op == ArraySet ==> result) && OneBufferIn(cx, names, args[1..])
      else Scalar(cx.ty(e)) && OneBufferIn(cx, names, args)
    case Dup(x, body) => x !in names && ScalarLocal(cx.types, x) && OneBuffer(cx, names, body, result)
    case Drop(x, body) => x !in names && ScalarLocal(cx.types, x) && OneBuffer(cx, names, body, result)
    case Recur(args) =>
      |args| == cx.arity && forall i :: 0 <= i < |args| ==> OneBufferOperand(cx, names, e, i)
    case _ => false
  }

  predicate OneBufferIn(cx: Context, names: set<nat>, args: seq<Expr>)
    decreases args, 2
  {
    args != [] ==> OneBuffer(cx, names, args[0], false) && OneBufferIn(cx, names, args[1..])
  }

  predicate OneBufferOperand(cx: Context, names: set<nat>, e: Expr, i: nat)
    requires e.Recur? && i < |e.args|
    decreases e, 0
  {
    (i == cx.position ==> ArrayResult(names, e.args[i])) && OneBuffer(cx, names, e.args[i], i == cx.position)
  }

  /** The locals a term binds to the buffer. */
  function Renamed(names: set<nat>, e: Expr): set<nat>
    decreases e, 0
  {
    match e
    case Let(local, value, body) =>
      Renamed(names, value) + (if IsBuffer(names, value) then {local} else {}) +
      Renamed(Naming(names, local, value), body)
    case If(cond, thn, els) => Renamed(names, cond) + Renamed(names, thn) + Renamed(names, els)
    case Prim(_, args) => RenamedIn(names, args)
    case Recur(args) => RenamedIn(names, args)
    case Dup(_, body) => Renamed(names, body)
    case Drop(_, body) => Renamed(names, body)
    case _ => {}
  }

  function RenamedIn(names: set<nat>, args: seq<Expr>): set<nat>
    decreases args, 1
  {
    if args == [] then {} else Renamed(names, args[0]) + RenamedIn(names, args[1..])
  }

  /** Some node updates an array. */
  predicate Updates(e: Expr)
    decreases e, 0
  {
    match e
    case Let(_, value, body) => Updates(value) || Updates(body)
    case If(cond, thn, els) => Updates(cond) || Updates(thn) || Updates(els)
    case Prim(op, args) => op == ArraySet || UpdatesIn(args)
    case Recur(args) => UpdatesIn(args)
    case Dup(_, body) => Updates(body)
    case Drop(_, body) => Updates(body)
    case _ => false
  }

  predicate UpdatesIn(args: seq<Expr>)
    decreases args, 1
  {
    args != [] && (Updates(args[0]) || UpdatesIn(args[1..]))
  }

  /** One array parameter with scalar elements, all others scalars, one buffer throughout, at
      least one update, at most 256 nodes. */
  ghost predicate UpdateLoop(params: seq<nat>, body: Expr, types: Types, ty: NodeTy, plan: Plan) {
    && plan.root in params && plan.root in types && types[plan.root].ArrayTy? && Scalar(types[plan.root].elem)
    && ty(body) == types[plan.root]
    && (forall p :: p in params && p != plan.root ==> ScalarLocal(types, p))
    && (exists i :: 0 <= i < |params| && params[i] == plan.root &&
          OneBuffer(Context(types, ty, i, |params|), {plan.root}, body, true))
    && Updates(body) && NodeCount(body) <= 256
    && plan.aliases == {plan.root} + Renamed({plan.root}, body)
  }

  // ----- the scanner computes the description -----

  /** The scanner knows the buffer's names among the locals in scope. */
  ghost predicate Knows(scope: set<nat>, names: set<nat>, known: set<nat>) {
    names <= scope && forall x :: x in scope ==> (x in names <==> x in known)
  }

  ghost predicate Fits(scope: set<nat>, names: set<nat>, known: set<nat>, e: Expr) {
    && Knows(scope, names, known) && Scoped(e, scope) && BoundOnce(e)
    && Binders(e) !! known && Binders(e) !! scope
  }

  ghost predicate FitsIn(scope: set<nat>, names: set<nat>, known: set<nat>, args: seq<Expr>) {
    && Knows(scope, names, known) && ScopedIn(args, scope) && BoundOnceIn(args)
    && BindersIn(args) !! known && BindersIn(args) !! scope
  }

  lemma {:induction false} RenamedBound(names: set<nat>, e: Expr)
    ensures Renamed(names, e) <= Binders(e)
    decreases e, 0
  {
    match e
    case Let(local, value, body) => RenamedBound(names, value); RenamedBound(Naming(names, local, value), body);
    case If(cond, thn, els) => RenamedBound(names, cond); RenamedBound(names, thn); RenamedBound(names, els);
    case Prim(_, args) => RenamedInBound(names, args);
    case Recur(args) => RenamedInBound(names, args);
    case Dup(_, body) => RenamedBound(names, body);
    case Drop(_, body) => RenamedBound(names, body);
    case _ =>
  }

  lemma {:induction false} RenamedInBound(names: set<nat>, args: seq<Expr>)
    ensures RenamedIn(names, args) <= BindersIn(args)
    decreases args, 1
  {
    if args != [] {
      RenamedBound(names, args[0]);
      RenamedInBound(names, args[1..]);
    }
  }

  /** Two sets that agree on every local of a term recognise the same buffer. */
  lemma {:induction false} SameResult(scope: set<nat>, a: set<nat>, b: set<nat>, e: Expr)
    requires Scoped(e, scope) && forall x :: x in scope + Binders(e) ==> (x in a <==> x in b)
    ensures ArrayResult(a, e) <==> ArrayResult(b, e)
    decreases e
  {
    match e
    case Prim(op, args) =>
      if |args| > 0 {
        assert Binders(e) == Binders(args[0]) + BindersIn(args[1..]);
        SameResult(scope, a, b, args[0]);
      }
    case Let(local, _, body) => SameResult(scope + {local}, a, b, body);
    case Drop(_, body) => SameResult(scope, a, b, body);
    case Dup(_, body) => SameResult(scope, a, b, body);
    case _ =>
  }

  /** Before a term is scanned only the names in scope are recognised in it. */
  lemma DirectExact(scope: set<nat>, names: set<nat>, known: set<nat>, e: Expr)
    requires Fits(scope, names, known, e)
    ensures ArrayResult(known, e) <==> ArrayResult(names, e)
  {
    hide Scoped, BoundOnce, Binders, ArrayResult;
    SameResult(scope, known, names, e);
  }

  /** Afterwards so are the names it bound. */
  lemma {:induction false} ResultExact(scope: set<nat>, names: set<nat>, known: set<nat>, e: Expr)
    requires Knows(scope, names, known) && Scoped(e, scope) && BoundOnce(e) && Binders(e) !! scope
    requires forall x :: x in Binders(e) ==> (x in known <==> x in Renamed(names, e))
    ensures ArrayResult(known, e) <==> IsBuffer(names, e)
    decreases e
  {
    match e
    case Prim(op, args) =>
      if |args| > 0 {
        assert Binders(e) == Binders(args[0]) + BindersIn(args[1..]);
        assert Renamed(names, e) == Renamed(names, args[0]) + RenamedIn(names, args[1..]);
        RenamedInBound(names, args[1..]);
        ResultExact(scope, names, known, args[0]);
      }
    case Let(local, value, body) =>
      var inner := Naming(names, local, value);
      RenamedBound(names, value);
      RenamedBound(inner, body);
      LetKnows(scope, names, known, e);
      ResultExact(scope + {local}, inner, known, body);
    case Drop(_, body) => ResultExact(scope, names, known, body);
    case Dup(_, body) => ResultExact(scope, names, known, body);
    case _ =>
  }

  lemma LetKnows(scope: set<nat>, names: set<nat>, known: set<nat>, e: Expr)
    requires e.Let? && Knows(scope, names, known) && e.local !in scope
    requires e.local in known <==> IsBuffer(names, e.value)
    ensures Knows(scope + {e.local}, Naming(names, e.local, e.value), known)
  {
  }

  lemma LetParts(scope: set<nat>, names: set<nat>, known: set<nat>, e: Expr)
    requires e.Let? && Fits(scope, names, known, e)
    ensures Fits(scope, names, known, e.value)
    ensures Scoped(e.body, scope + {e.local}) && BoundOnce(e.body)
    ensures Binders(e) == {e.local} + Binders(e.value) + Binders(e.body) && Binders(e) !! known && Binders(e) !! scope
    ensures Binders(e.value) !! Binders(e.body) && e.local !in Binders(e.body) && e.local !in Binders(e.value)
  {
  }

  /** What the scanner knows after a value is what lexical scope says. */
  lemma LetFits(scope: set<nat>, names: set<nat>, known: set<nat>, e: Expr)
    requires e.Let? && Fits(scope, names, known, e)
    ensures var after := known + Renamed(names, e.value);
      && (ArrayResult(after, e.value) <==> IsBuffer(names, e.value))
      && Fits(scope + {e.local}, Naming(names, e.local, e.value),
              if ArrayResult(after, e.value) then after + {e.local} else after, e.body)
  {
    hide Scoped, BoundOnce, Binders, ArrayResult, IsBuffer, Renamed;
    LetParts(scope, names, known, e);
    RenamedBound(names, e.value);
    var after := known + Renamed(names, e.value);
    ResultExact(scope, names, after, e.value);
    var last := if ArrayResult(after, e.value) then after + {e.local} else after;
    LetKnows(scope, names, last, e);
  }

  lemma MoreFits(scope: set<nat>, names: set<nat>, known: set<nat>, more: set<nat>, e: Expr)
    requires Fits(scope, names, known, e) && more !! scope && more !! Binders(e)
    ensures Fits(scope, names, known + more, e)
  {
    hide Scoped, BoundOnce, Binders;
  }

  lemma MoreFitsIn(scope: set<nat>, names: set<nat>, known: set<nat>, more: set<nat>, args: seq<Expr>)
    requires FitsIn(scope, names, known, args) && more !! scope && more !! BindersIn(args)
    ensures FitsIn(scope, names, known + more, args)
  {
    hide ScopedIn, BoundOnceIn, BindersIn;
  }

  // ----- each node -----

  ghost predicate After(st: State, st1: State, renamed: set<nat>, nodes: nat, updated: bool) {
    && st1.aliases == st.aliases + renamed && st1.budget == st.budget - nodes
    && st1.writes >= st.writes && (st1.writes > st.writes <==> updated)
  }

  ghost predicate Exact(cx: Context, names: set<nat>, st: State, e: Expr, result: bool, w: Walked) {
    && (w.Accepted? <==> OneBuffer(cx, names, e, result) && NodeCount(e) <= st.budget)
    && (w.Accepted? ==> After(st, w.st, Renamed(names, e), NodeCount(e), Updates(e)))
  }

  ghost predicate ExactIn(cx: Context, names: set<nat>, st: State, args: seq<Expr>, w: Walked) {
    && (w.Accepted? <==> OneBufferIn(cx, names, args) && NodeCountAll(args) <= st.budget)
    && (w.Accepted? ==> After(st, w.st, RenamedIn(names, args), NodeCountAll(args), UpdatesIn(args)))
  }

  lemma {:induction false} WalkExact(cx: Context, scope: set<nat>, names: set<nat>, st: State, e: Expr, result: bool)
    requires Fits(scope, names, st.aliases, e)
    ensures Exact(cx, names, st, e, result, Walk(cx, st, e, result))
    decreases e, 3, 0
  {
    if st.budget > 0 {
      match e
      case Let(_, _, _) => LetExact(cx, scope, names, st, e, result);
      case If(_, _, _) => IfExact(cx, scope, names, st, e, result);
      case Prim(op, _) =>
        if ReadsArray(op) { AccessExact(cx, scope, names, st, e, result); }
        else { PrimExact(cx, scope, names, st, e, result); }
      case Dup(_, _) => WrapperExact(cx, scope, names, st, e, result);
      case Drop(_, _) => WrapperExact(cx, scope, names, st, e, result);
      case Recur(_) => RecurExact(cx, scope, names, st, e, result);
      case _ => LeafExact(cx, scope, names, st, e, result);
    }
  }

  function Paid(st: State): State
    requires st.budget > 0
  {
    st.(budget := st.budget - 1)
  }

  lemma {:induction false} LetExact(cx: Context, scope: set<nat>, names: set<nat>, st: State, e: Expr, result: bool)
    requires e.Let? && st.budget > 0 && Fits(scope, names, st.aliases, e)
    ensures Exact(cx, names, st, e, result, Walk(cx, st, e, result))
    decreases e, 2, 0
  {
    hide Fits, IsBuffer, ArrayResult;
    LetParts(scope, names, st.aliases, e);
    WalkExact(cx, scope, names, Paid(st), e.value, true);
    var w := Walk(cx, Paid(st), e.value, true);
    if w.Accepted? {
      LetFits(scope, names, st.aliases, e);
      WalkExact(cx, scope + {e.local}, Naming(names, e.local, e.value), AfterValue(w.st, e.local, e.value), e.body,
        result);
    }
  }

  lemma {:induction false} IfExact(cx: Context, scope: set<nat>, names: set<nat>, st: State, e: Expr, result: bool)
    requires e.If? && st.budget > 0 && Fits(scope, names, st.aliases, e)
    ensures Exact(cx, names, st, e, result, Walk(cx, st, e, result))
    decreases e, 2, 0
  {
    hide Fits;
    IfFits(scope, names, st.aliases, e);
    RenamedBound(names, e.cond);
    RenamedBound(names, e.thn);
    WalkExact(cx, scope, names, Paid(st), e.cond, false);
    var w := Walk(cx, Paid(st), e.cond, false);
    if w.Accepted? {
      MoreFits(scope, names, st.aliases, Renamed(names, e.cond), e.thn);
      WalkExact(cx, scope, names, w.st, e.thn, result);
      var w2 := Walk(cx, w.st, e.thn, result);
      if w2.Accepted? {
        MoreFits(scope, names, st.aliases, Renamed(names, e.cond), e.els);
        MoreFits(scope, names, w.st.aliases, Renamed(names, e.thn), e.els);
        WalkExact(cx, scope, names, w2.st, e.els, result);
      }
    }
  }

  lemma IfFits(scope: set<nat>, names: set<nat>, known: set<nat>, e: Expr)
    requires e.If? && Fits(scope, names, known, e)
    ensures Fits(scope, names, known, e.cond) && Fits(scope, names, known, e.thn) && Fits(scope, names, known, e.els)
    ensures Binders(e.cond) !! Binders(e.thn) && Binders(e.cond) !! Binders(e.els) && Binders(e.thn) !! Binders(e.els)
    ensures Binders(e.cond) !! scope && Binders(e.thn) !! scope
  {
  }

  lemma LeafExact(cx: Context, scope: set<nat>, names: set<nat>, st: State, e: Expr, result: bool)
    requires !e.Let? && !e.If? && !e.Prim? && !e.Dup? && !e.Drop? && !e.Recur?
    requires st.budget > 0 && Fits(scope, names, st.aliases, e)
    ensures Exact(cx, names, st, e, result, Walk(cx, st, e, result))
  {
  }

  lemma {:induction false} WrapperExact(cx: Context, scope: set<nat>, names: set<nat>, st: State, e: Expr, result: bool)
    requires (e.Dup? || e.Drop?) && st.budget > 0 && Fits(scope, names, st.aliases, e)
    ensures Exact(cx, names, st, e, result, Walk(cx, st, e, result))
    decreases e, 2, 0
  {
    assert Fits(scope, names, st.aliases, e.body) && e.local in scope;
    WalkExact(cx, scope, names, Paid(st), e.body, result);
  }

  lemma {:induction false} PrimExact(cx: Context, scope: set<nat>, names: set<nat>, st: State, e: Expr, result: bool)
    requires e.Prim? && !ReadsArray(e.op) && st.budget > 0 && Fits(scope, names, st.aliases, e)
    ensures Exact(cx, names, st, e, result, Walk(cx, st, e, result))
    decreases e, 2, 0
  {
    ArgsFit(scope, names, st.aliases, e);
    ArgsExact(cx, scope, names, Paid(st), e.args);
  }

  lemma ArgsFit(scope: set<nat>, names: set<nat>, known: set<nat>, e: Expr)
    requires (e.Prim? || e.Recur?) && Fits(scope, names, known, e)
    ensures FitsIn(scope, names, known, e.args)
  {
  }

  lemma {:induction false} AccessExact(cx: Context, scope: set<nat>, names: set<nat>, st: State, e: Expr, result: bool)
    requires e.Prim? && ReadsArray(e.op) && st.budget > 0 && Fits(scope, names, st.aliases, e)
    ensures Exact(cx, names, st, e, result, Walk(cx, st, e, result))
    decreases e, 2, 0
  {
    hide Fits, FitsIn, ArrayResult;
    ArgsFit(scope, names, st.aliases, e);
    if |e.args| > 0 {
      FirstFits(scope, names, st.aliases, e.args);
      DirectExact(scope, names, st.aliases, e.args[0]);
      WalkExact(cx, scope, names, Paid(st), e.args[0], true);
      var w := Walk(cx, Paid(st), e.args[0], true);
      if w.Accepted? {
        RenamedBound(names, e.args[0]);
        MoreFitsIn(scope, names, st.aliases, Renamed(names, e.args[0]), e.args[1..]);
        var st1 := if e.op == ArraySet then w.st.(writes := w.st.writes + 1) else w.st;
        ArgsExact(cx, scope, names, st1, e.args[1..]);
        assert NodeCount(e) == 1 + NodeCount(e.args[0]) + NodeCountAll(e.args[1..]);
        assert Renamed(names, e) == Renamed(names, e.args[0]) + RenamedIn(names, e.args[1..]);
        assert Updates(e) <==> e.op == ArraySet || Updates(e.args[0]) || UpdatesIn(e.args[1..]);
      }
    }
  }

  lemma FirstFits(scope: set<nat>, names: set<nat>, known: set<nat>, args: seq<Expr>)
    requires args != [] && FitsIn(scope, names, known, args)
    ensures Fits(scope, names, known, args[0]) && FitsIn(scope, names, known, args[1..])
    ensures Binders(args[0]) !! BindersIn(args[1..]) && Binders(args[0]) !! scope
  {
  }

  lemma {:induction false} ArgsExact(cx: Context, scope: set<nat>, names: set<nat>, st: State, args: seq<Expr>)
    requires FitsIn(scope, names, st.aliases, args)
    ensures ExactIn(cx, names, st, args, WalkAll(cx, st, args))
    decreases args, 4, 0
  {
    if args != [] {
      FirstFits(scope, names, st.aliases, args);
      WalkExact(cx, scope, names, st, args[0], false);
      var w := Walk(cx, st, args[0], false);
      if w.Accepted? {
        RenamedBound(names, args[0]);
        MoreFitsIn(scope, names, st.aliases, Renamed(names, args[0]), args[1..]);
        ArgsExact(cx, scope, names, w.st, args[1..]);
      }
    }
  }

  ghost predicate OneBufferFrom(cx: Context, names: set<nat>, e: Expr, i: nat)
    requires e.Recur? && i <= |e.args|
  {
    forall j :: i <= j < |e.args| ==> OneBufferOperand(cx, names, e, j)
  }

  lemma {:induction false} NextExact(cx: Context, scope: set<nat>, names: set<nat>, st: State, e: Expr, i: nat)
    requires e.Recur? && i <= |e.args| && FitsIn(scope, names, st.aliases, e.args[i..])
    ensures var w := WalkNext(cx, st, e, i);
      && (w.Accepted? <==> OneBufferFrom(cx, names, e, i) && NodeCountAll(e.args[i..]) <= st.budget)
      && (w.Accepted? ==>
          After(st, w.st, RenamedIn(names, e.args[i..]), NodeCountAll(e.args[i..]), UpdatesIn(e.args[i..])))
    decreases e, 1, |e.args| - i
  {
    if i < |e.args| {
      var rest := e.args[i..];
      assert rest[0] == e.args[i] && rest[1..] == e.args[i + 1..];
      hide Fits, FitsIn, ArrayResult;
      FirstFits(scope, names, st.aliases, rest);
      DirectExact(scope, names, st.aliases, e.args[i]);
      assert OneBufferFrom(cx, names, e, i) <==>
        OneBufferOperand(cx, names, e, i) && OneBufferFrom(cx, names, e, i + 1);
      WalkExact(cx, scope, names, st, e.args[i], i == cx.position);
      var w := Walk(cx, st, e.args[i], i == cx.position);
      if w.Accepted? {
        RenamedBound(names, e.args[i]);
        MoreFitsIn(scope, names, st.aliases, Renamed(names, e.args[i]), e.args[i + 1..]);
        NextExact(cx, scope, names, w.st, e, i + 1);
      }
    }
  }

  lemma {:induction false} RecurExact(cx: Context, scope: set<nat>, names: set<nat>, st: State, e: Expr, result: bool)
    requires e.Recur? && st.budget > 0 && Fits(scope, names, st.aliases, e)
    ensures Exact(cx, names, st, e, result, Walk(cx, st, e, result))
    decreases e, 2, 0
  {
    ArgsFit(scope, names, st.aliases, e);
    assert e.args[0..] == e.args;
    NextExact(cx, scope, names, Paid(st), e, 0);
  }

  // ----- when a plan is found -----

  lemma {:induction false} ArrayParamsAre(params: seq<nat>, types: Types)
    ensures forall i: nat :: i in ArrayParams(params, types) <==> i < |params| && ArrayLocal(types, params[i])
    decreases |params|
  {
    if params != [] {
      ArrayParamsAre(params[..|params| - 1], types);
    }
  }

  predicate ArrayLocal(types: Types, x: nat) {
    x in types && types[x].ArrayTy?
  }

  lemma SomeMember(a: seq<nat>)
    ensures a != [] ==> exists i :: i in a
  {
    if a != [] { assert a[0] in a; }
  }

  lemma {:induction false} OneArrayParam(params: seq<nat>, types: Types, i: nat)
    requires i < |params| && forall j :: 0 <= j < |params| ==> (ArrayLocal(types, params[j]) <==> j == i)
    ensures ArrayParams(params, types) == [i]
    decreases |params|
  {
    var n := |params| - 1;
    var rest := params[..n];
    if i == n {
      ArrayParamsAre(rest, types);
      SomeMember(ArrayParams(rest, types));
    } else {
      OneArrayParam(rest, types, i);
    }
  }

  /** The scan of a whole body. */
  lemma BodyExact(params: seq<nat>, body: Expr, types: Types, ty: NodeTy, i: nat)
    requires i < |params| && BoundOnce(body) && Binders(body) !! ParamSet(params) && Scoped(body, ParamSet(params))
    ensures var cx, st := Context(types, ty, i, |params|), State({params[i]}, 0, WALK_BUDGET);
      var w := Walk(cx, st, body, true);
      && (w.Accepted? <==> OneBuffer(cx, {params[i]}, body, true) && NodeCount(body) <= 256)
      && (w.Accepted? ==>
          w.st.aliases == {params[i]} + Renamed({params[i]}, body) && (w.st.writes > 0 <==> Updates(body)))
  {
    hide Walk, OneBuffer, Binders, BoundOnce, Scoped, Renamed, Updates, NodeCount;
    WalkExact(Context(types, ty, i, |params|), ParamSet(params), {params[i]}, State({params[i]}, 0, WALK_BUDGET), body,
      true);
  }

  lemma PlanDescribes(params: seq<nat>, body: Expr, types: Types, ty: NodeTy, plan: Plan)
    requires BoundOnce(body) && Binders(body) !! ParamSet(params) && Scoped(body, ParamSet(params))
    requires PlanOf(params, body, types, ty) == Some(plan)
    ensures UpdateLoop(params, body, types, ty, plan)
  {
    hide ArrayParams, Walk, OneBuffer, Binders, BoundOnce, Scoped, Renamed, Updates, NodeCount;
    BodyExact(params, body, types, ty, ArrayParams(params, types)[0]);
  }

  lemma PlanFound(params: seq<nat>, body: Expr, types: Types, ty: NodeTy, plan: Plan)
    requires Distinct(params)
    requires BoundOnce(body) && Binders(body) !! ParamSet(params) && Scoped(body, ParamSet(params))
    requires UpdateLoop(params, body, types, ty, plan)
    ensures PlanOf(params, body, types, ty) == Some(plan)
  {
    hide ArrayParams, Walk, OneBuffer, Binders, BoundOnce, Scoped, Renamed, Updates, NodeCount;
    var i :| 0 <= i < |params| && params[i] == plan.root &&
      OneBuffer(Context(types, ty, i, |params|), {plan.root}, body, true);
    forall j | 0 <= j < |params| ensures ArrayLocal(types, params[j]) <==> j == i {
      if j != i { assert params[j] in params && params[j] != params[i]; }
    }
    OneArrayParam(params, types, i);
    BodyExact(params, body, types, ty, i);
  }

  /** A plan is found exactly for such a loop, and it names the buffer's locals. */
  lemma PlanExact(params: seq<nat>, body: Expr, types: Types, ty: NodeTy, plan: Plan)
    requires Distinct(params) && BoundOnce(body) && Binders(body) !! ParamSet(params) && Scoped(body, ParamSet(params))
    ensures PlanOf(params, body, types, ty) == Some(plan) <==> UpdateLoop(params, body, types, ty, plan)
  {
    hide ArrayParams, Walk, OneBuffer, Binders, BoundOnce, Scoped, Renamed, Updates, NodeCount;
    if PlanOf(params, body, types, ty) == Some(plan) { PlanDescribes(params, body, types, ty, plan); }
    if UpdateLoop(params, body, types, ty, plan) { PlanFound(params, body, types, ty, plan); }
  }
}
