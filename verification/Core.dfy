/** The Core intermediate representation of loop bodies and a big-step evaluator with
    traps. Float operations, allocation and calls are deterministic but opaque. */
module Core {
  import opened Machine
  import opened Primitives

  datatype Lit =
    | IntLit(n: I64) | FloatLit(bits: I64) | BoolLit(b: bool) | UnitLit | CharLit(c: nat) | StringLit(id: nat)

  datatype Expr =
    | Local(id: nat)
    | Lit(lit: Lit)
    | Global(name: nat)
    | Error
    | Let(local: nat, value: Expr, body: Expr)
    | If(cond: Expr, thn: Expr, els: Expr)
    | Prim(op: Prim, args: seq<Expr>)
    | Recur(args: seq<Expr>)
    | App(func: Expr, args: seq<Expr>)
    | MakeClosure(fn: nat, captures: seq<nat>)
    | MakeData(tag: nat, args: seq<Expr>)
    | DataTag(base: Expr)
    | DataField(base: Expr, index: nat)
    | Foreign(symbol: nat, args: seq<Expr>)
    | Dup(local: nat, body: Expr)
    | Drop(local: nat, body: Expr)
    | Reset(value: Expr, token: nat, body: Expr)
    | FreeReuse(token: nat, body: Expr)
    | Join(params: seq<nat>, body: Expr)

  /** Scalars are compared by their exact bits; other values are opaque. */
  datatype Value =
    | IntV(n: I64) | FloatV(bits: I64) | BoolV(b: bool) | UnitV | CharV(c: nat) | OtherV(id: int)

  type Env = map<nat, Value>

  /** Evaluation returns, takes the loop's back-edge, or aborts. `Stuck` marks an
      ill-typed or ill-scoped expression. */
  datatype Outcome = Ret(v: Value) | Back(vals: seq<Value>) | Trap | Stuck

  datatype ArgsOutcome = Vals(vals: seq<Value>) | Stop(o: Outcome)

  /** What a node other than a numeric primitive computes from its operands. */
  datatype NodeKind =
    | PrimNode(op: Prim) | GlobalNode(name: nat) | AppNode | ClosureNode(fn: nat) | DataNode(tag: nat)
    | TagNode | FieldNode(index: nat) | ForeignNode(symbol: nat)

  /** The opaque operations: the result word of a numeric primitive, and the result of
      any other node given its evaluated operands (`None` aborts). */
  datatype Interp = Interp(word: (Prim, seq<Value>) -> I64, node: (NodeKind, seq<Value>) -> Option<Value>)

  datatype Ty = TInt | TFloat | TBool | TUnit | TChar | TOther

  function LitValue(l: Lit): Value {
    match l
    case IntLit(n) => IntV(n)
    case FloatLit(bits) => FloatV(bits)
    case BoolLit(b) => BoolV(b)
    case UnitLit => UnitV
    case CharLit(c) => CharV(c)
    case StringLit(id) => OtherV(id)
  }

  function TypeOf(v: Value): Ty {
    match v
    case IntV(_) => TInt
    case FloatV(_) => TFloat
    case BoolV(_) => TBool
    case UnitV => TUnit
    case CharV(_) => TChar
    case OtherV(_) => TOther
  }

  function LitType(l: Lit): Ty {
    TypeOf(LitValue(l))
  }

  predicate ScalarLit(l: Lit) {
    !l.StringLit?
  }

  /** Scalar primitives: the ones whose evaluation neither allocates nor reads memory. */
  predicate Numeric(op: Prim) {
    match op
    case ArrayLength | ArrayGet | ArrayPeek | ArraySet | ArrayPut | ArrayUnique => false
    case ArrayWithCapacity | ArrayRepeat | ArrayPush | ArrayPushReserved | OtherPrim(_) => false
    case _ => true
  }

  /** The result type of a numeric primitive on operands of these types. */
  function NumericType(op: Prim, args: seq<Ty>): Option<Ty> {
    match op
    case IntAdd | IntSub | IntMul | IntDiv | IntRem | IntAnd | IntOr | IntXor | IntShl | IntShr | IntShrLogical =>
      if args == [TInt, TInt] then Some(TInt) else None
    case IntComplement | FloatFromBits | IntToFloat =>
      if args == [TInt] then Some(if op == IntComplement then TInt else TFloat) else None
    case IntLt | IntLe | IntGt | IntGe => if args == [TInt, TInt] then Some(TBool) else None
    case FloatAdd | FloatSub | FloatMul | FloatDiv => if args == [TFloat, TFloat] then Some(TFloat) else None
    case FloatNeg | Sqrt => if args == [TFloat] then Some(TFloat) else None
    case FloatLt | FloatLe | FloatGt | FloatGe => if args == [TFloat, TFloat] then Some(TBool) else None
    case FloatToInt | FloatToBits => if args == [TFloat] then Some(TInt) else None
    case Eq | Compare =>
      if |args| == 2 && args[0] == args[1] && args[0] != TOther then Some(if op == Eq then TBool else TInt) else None
    case Not => if args == [TBool] then Some(TBool) else None
    case _ => None
  }

  function Types(vals: seq<Value>): (ts: seq<Ty>)
    ensures |ts| == |vals|
    ensures forall i :: 0 <= i < |vals| ==> ts[i] == TypeOf(vals[i])
  {
    seq(|vals|, i requires 0 <= i < |vals| => TypeOf(vals[i]))
  }

  /** A value of a scalar type from its result word. */
  function FromWord(t: Ty, w: I64): (v: Value)
    ensures TypeOf(v) == t
  {
    match t
    case TInt => IntV(w)
    case TFloat => FloatV(w)
    case TBool => BoolV(w != 0)
    case TUnit => UnitV
    case TChar => CharV(Abs(w))
    case TOther => OtherV(w)
  }

  /** Integer arithmetic wraps, division by zero aborts, other results are opaque words. */
  function ApplyNumeric(ops: Interp, op: Prim, vals: seq<Value>): (o: Outcome)
    ensures !o.Back?
  {
    var t := NumericType(op, Types(vals));
    if t.None? then Stuck
    else match op
      case IntAdd => Ret(IntV(Wrap(vals[0].n + vals[1].n)))
      case IntSub => Ret(IntV(Wrap(vals[0].n - vals[1].n)))
      case IntDiv | IntRem => if vals[1].n == 0 then Trap else Ret(IntV(ops.word(op, vals)))
      case IntGe => Ret(BoolV(vals[0].n >= vals[1].n))
      case IntLe => Ret(BoolV(vals[0].n <= vals[1].n))
      case Eq => if vals[0].IntV? then Ret(BoolV(vals[0].n == vals[1].n)) else Ret(BoolV(ops.word(op, vals) != 0))
      case _ => Ret(FromWord(t.value, ops.word(op, vals)))
  }

  function ApplyNode(ops: Interp, kind: NodeKind, vals: seq<Value>): (o: Outcome)
    ensures o.Ret? || o == Trap
  {
    match ops.node(kind, vals)
    case Some(v) => Ret(v)
    case None => Trap
  }

  function Lookup(env: Env, ids: seq<nat>): (r: ArgsOutcome)
    ensures r.Stop? ==> r.o == Stuck
    decreases |ids|
  {
    if ids == [] then Vals([])
    else if ids[0] !in env then Stop(Stuck)
    else match Lookup(env, ids[1..])
      case Vals(rest) => Vals([env[ids[0]]] + rest)
      case Stop(o) => Stop(o)
  }

  function Eval(ops: Interp, e: Expr, env: Env): Outcome
    decreases e, 0
  {
    match e
    case Local(id) => if id in env then Ret(env[id]) else Stuck
    case Lit(lit) => Ret(LitValue(lit))
    case Error => Trap
    case Let(local, value, body) =>
      var v := Eval(ops, value, env);
      if v.Ret? then Eval(ops, body, env[local := v.v])
      else if v.Back? then Stuck else v
    case If(cond, thn, els) =>
      var c := Eval(ops, cond, env);
      if c.Ret? && c.v.BoolV? then Eval(ops, if c.v.b then thn else els, env)
      else if c == Trap then Trap else Stuck
    case Prim(op, args) =>
      var vals := EvalArgs(ops, args, env);
      if vals.Stop? then vals.o
      else if Numeric(op) then ApplyNumeric(ops, op, vals.vals) else ApplyNode(ops, PrimNode(op), vals.vals)
    case Recur(args) =>
      var vals := EvalArgs(ops, args, env);
      if vals.Stop? then vals.o else Back(vals.vals)
    case App(func, args) =>
      var f := Eval(ops, func, env);
      if !f.Ret? then (if f == Trap then Trap else Stuck)
      else
        var vals := EvalArgs(ops, args, env);
        if vals.Stop? then vals.o else ApplyNode(ops, AppNode, [f.v] + vals.vals)
    case MakeData(tag, args) =>
      var vals := EvalArgs(ops, args, env);
      if vals.Stop? then vals.o else ApplyNode(ops, DataNode(tag), vals.vals)
    case Foreign(symbol, args) =>
      var vals := EvalArgs(ops, args, env);
      if vals.Stop? then vals.o else ApplyNode(ops, ForeignNode(symbol), vals.vals)
    case DataTag(base) => OnBase(ops, TagNode, Eval(ops, base, env))
    case DataField(base, index) => OnBase(ops, FieldNode(index), Eval(ops, base, env))
    case Global(name) => ApplyNode(ops, GlobalNode(name), [])
    case MakeClosure(fn, captures) =>
      var vals := Lookup(env, captures);
      if vals.Stop? then vals.o else ApplyNode(ops, ClosureNode(fn), vals.vals)
    case Dup(_, body) => Eval(ops, body, env)
    case Drop(_, body) => Eval(ops, body, env)
    case FreeReuse(_, body) => Eval(ops, body, env)
    case Reset(value, _, body) =>
      // A reuse token names memory, never a value, so it is not in the environment.
      var v := Eval(ops, value, env);
      if v.Ret? then Eval(ops, body, env)
      else if v.Back? then Stuck else v
    case Join(_, _) => Stuck
  }

  function OnBase(ops: Interp, kind: NodeKind, base: Outcome): Outcome {
    if base.Ret? then ApplyNode(ops, kind, [base.v]) else if base == Trap then Trap else Stuck
  }

  /** Operands are evaluated left to right; the first that aborts decides. */
  function EvalArgs(ops: Interp, args: seq<Expr>, env: Env): (r: ArgsOutcome)
    ensures r.Vals? ==> |r.vals| == |args|
    ensures r.Stop? ==> r.o == Trap || r.o == Stuck
    decreases args, 1
  {
    if args == [] then Vals([])
    else
      var first := Eval(ops, args[0], env);
      if !first.Ret? then Stop(if first == Trap then Trap else Stuck)
      else match EvalArgs(ops, args[1..], env)
        case Vals(rest) => Vals([first.v] + rest)
        case Stop(o) => Stop(o)
  }

  lemma {:induction false} ArgsPointwise(ops: Interp, args: seq<Expr>, env: Env)
    ensures var r := EvalArgs(ops, args, env);
      r.Vals? <==> forall i :: 0 <= i < |args| ==> Eval(ops, args[i], env).Ret?
    ensures var r := EvalArgs(ops, args, env);
      r.Vals? ==> forall i :: 0 <= i < |args| ==> Eval(ops, args[i], env) == Ret(r.vals[i])
    decreases |args|
  {
    if args != [] {
      ArgsPointwise(ops, args[1..], env);
      assert forall i :: 0 < i < |args| ==> args[i] == args[1..][i - 1];
      assert forall i :: 0 <= i < |args[1..]| ==> args[1..][i] == args[i + 1];
    }
  }

  /** Peels the reference-count wrappers around a bound value. */
  function PeelRc(e: Expr): Expr {
    match e
    case Dup(_, body) => PeelRc(body)
    case Drop(_, body) => PeelRc(body)
    case Reset(_, _, body) => PeelRc(body)
    case FreeReuse(_, body) => PeelRc(body)
    case _ => e
  }

  lemma {:induction false} PeelSame(ops: Interp, e: Expr, env: Env)
    requires Eval(ops, e, env).Ret?
    ensures Eval(ops, PeelRc(e), env) == Eval(ops, e, env)
  {
    match e
    case Dup(_, body) => PeelSame(ops, body, env);
    case Drop(_, body) => PeelSame(ops, body, env);
    case Reset(_, _, body) => PeelSame(ops, body, env);
    case FreeReuse(_, body) => PeelSame(ops, body, env);
    case _ =>
  }

  /** The number of nodes of a term. */
  function NodeCount(e: Expr): nat
    decreases e, 0
  {
    1 + match e
      case Let(_, value, body) => NodeCount(value) + NodeCount(body)
      case If(cond, thn, els) => NodeCount(cond) + NodeCount(thn) + NodeCount(els)
      case Prim(_, args) => NodeCountAll(args)
      case Recur(args) => NodeCountAll(args)
      case App(func, args) => NodeCount(func) + NodeCountAll(args)
      case MakeData(_, args) => NodeCountAll(args)
      case Foreign(_, args) => NodeCountAll(args)
      case DataTag(base) => NodeCount(base)
      case DataField(base, _) => NodeCount(base)
      case Dup(_, body) => NodeCount(body)
      case Drop(_, body) => NodeCount(body)
      case FreeReuse(_, body) => NodeCount(body)
      case Reset(value, _, body) => NodeCount(value) + NodeCount(body)
      case Join(_, body) => NodeCount(body)
      case _ => 0
  }

  function NodeCountAll(args: seq<Expr>): nat
    decreases args, 1
  {
    if args == [] then 0 else NodeCount(args[0]) + NodeCountAll(args[1..])
  }

  // ----- the two preconditions the pipeline establishes -----

  /** The locals a term binds. */
  function Binders(e: Expr): set<nat>
    decreases e, 0
  {
    match e
    case Let(local, value, body) => {local} + Binders(value) + Binders(body)
    case If(cond, thn, els) => Binders(cond) + Binders(thn) + Binders(els)
    case Prim(_, args) => BindersIn(args)
    case Recur(args) => BindersIn(args)
    case App(func, args) => Binders(func) + BindersIn(args)
    case MakeData(_, args) => BindersIn(args)
    case Foreign(_, args) => BindersIn(args)
    case DataTag(base) => Binders(base)
    case DataField(base, _) => Binders(base)
    case Dup(_, body) => Binders(body)
    case Drop(_, body) => Binders(body)
    case FreeReuse(_, body) => Binders(body)
    case Reset(value, _, body) => Binders(value) + Binders(body)
    case Join(params, body) => (set p | p in params) + Binders(body)
    case _ => {}
  }

  function BindersIn(args: seq<Expr>): set<nat>
    decreases args, 1
  {
    if args == [] then {} else Binders(args[0]) + BindersIn(args[1..])
  }

  /** Every local is bound at one place. */
  predicate BoundOnce(e: Expr)
    decreases e, 0
  {
    match e
    case Let(local, value, body) =>
      && BoundOnce(value) && BoundOnce(body) && Binders(value) !! Binders(body)
      && local !in Binders(value) && local !in Binders(body)
    case If(cond, thn, els) =>
      && BoundOnce(cond) && BoundOnce(thn) && BoundOnce(els)
      && Binders(cond) !! Binders(thn) && Binders(cond) !! Binders(els) && Binders(thn) !! Binders(els)
    case Prim(_, args) => BoundOnceIn(args)
    case Recur(args) => BoundOnceIn(args)
    case App(func, args) => BoundOnce(func) && BoundOnceIn(args) && Binders(func) !! BindersIn(args)
    case MakeData(_, args) => BoundOnceIn(args)
    case Foreign(_, args) => BoundOnceIn(args)
    case DataTag(base) => BoundOnce(base)
    case DataField(base, _) => BoundOnce(base)
    case Dup(_, body) => BoundOnce(body)
    case Drop(_, body) => BoundOnce(body)
    case FreeReuse(_, body) => BoundOnce(body)
    case Reset(value, _, body) => BoundOnce(value) && BoundOnce(body) && Binders(value) !! Binders(body)
    case Join(params, body) => BoundOnce(body) && (set p | p in params) !! Binders(body)
    case _ => true
  }

  predicate BoundOnceIn(args: seq<Expr>)
    decreases args, 1
  {
    args == [] || (BoundOnce(args[0]) && BoundOnceIn(args[1..]) && Binders(args[0]) !! BindersIn(args[1..]))
  }

  /** Every local is used where it is bound. */
  predicate Scoped(e: Expr, scope: set<nat>)
    decreases e, 0
  {
    match e
    case Local(id) => id in scope
    case Let(local, value, body) => Scoped(value, scope) && Scoped(body, scope + {local})
    case If(cond, thn, els) => Scoped(cond, scope) && Scoped(thn, scope) && Scoped(els, scope)
    case Prim(_, args) => ScopedIn(args, scope)
    case Recur(args) => ScopedIn(args, scope)
    case App(func, args) => Scoped(func, scope) && ScopedIn(args, scope)
    case MakeClosure(_, captures) => forall x :: x in captures ==> x in scope
    case MakeData(_, args) => ScopedIn(args, scope)
    case Foreign(_, args) => ScopedIn(args, scope)
    case DataTag(base) => Scoped(base, scope)
    case DataField(base, _) => Scoped(base, scope)
    case Dup(local, body) => local in scope && Scoped(body, scope)
    case Drop(local, body) => local in scope && Scoped(body, scope)
    case FreeReuse(_, body) => Scoped(body, scope)
    case Reset(value, _, body) => Scoped(value, scope) && Scoped(body, scope)
    case Join(params, body) => Scoped(body, scope + set p | p in params)
    case _ => true
  }

  predicate ScopedIn(args: seq<Expr>, scope: set<nat>)
    decreases args, 1
  {
    args == [] || (Scoped(args[0], scope) && ScopedIn(args[1..], scope))
  }

  lemma {:induction false} ScopedMore(e: Expr, small: set<nat>, big: set<nat>)
    requires small <= big && Scoped(e, small)
    ensures Scoped(e, big)
    decreases e, 0
  {
    match e
    case Let(local, value, body) =>
      ScopedMore(value, small, big);
      ScopedMore(body, small + {local}, big + {local});
    case If(cond, thn, els) =>
      ScopedMore(cond, small, big);
      ScopedMore(thn, small, big);
      ScopedMore(els, small, big);
    case Prim(_, args) => ScopedMoreIn(args, small, big);
    case Recur(args) => ScopedMoreIn(args, small, big);
    case App(func, args) =>
      ScopedMore(func, small, big);
      ScopedMoreIn(args, small, big);
    case MakeData(_, args) => ScopedMoreIn(args, small, big);
    case Foreign(_, args) => ScopedMoreIn(args, small, big);
    case DataTag(base) => ScopedMore(base, small, big);
    case DataField(base, _) => ScopedMore(base, small, big);
    case Dup(_, body) => ScopedMore(body, small, big);
    case Drop(_, body) => ScopedMore(body, small, big);
    case FreeReuse(_, body) => ScopedMore(body, small, big);
    case Reset(value, _, body) =>
      ScopedMore(value, small, big);
      ScopedMore(body, small, big);
    case Join(params, body) => ScopedMore(body, small + (set p | p in params), big + (set p | p in params));
    case _ =>
  }

  lemma {:induction false} ScopedMoreIn(args: seq<Expr>, small: set<nat>, big: set<nat>)
    requires small <= big && ScopedIn(args, small)
    ensures ScopedIn(args, big)
    decreases args, 1
  {
    if args != [] {
      ScopedMore(args[0], small, big);
      ScopedMoreIn(args[1..], small, big);
    }
  }

  lemma {:induction false} ArgScoped(args: seq<Expr>, scope: set<nat>, i: nat)
    requires i < |args| && ScopedIn(args, scope)
    ensures Scoped(args[i], scope)
    decreases i
  {
    if i > 0 {
      ArgScoped(args[1..], scope, i - 1);
    }
  }

  lemma {:induction false} ArgBinders(args: seq<Expr>, i: nat)
    requires i < |args|
    ensures Binders(args[i]) <= BindersIn(args)
    ensures BoundOnceIn(args) ==> BoundOnce(args[i])
    decreases i
  {
    if i > 0 {
      ArgBinders(args[1..], i - 1);
    }
  }

  // ----- definitions seen along the way -----

  ghost predicate Extends(small: Env, big: Env) {
    forall x :: x in small ==> x in big && big[x] == small[x]
  }

  lemma WeakenLocal(x: nat, small: Env, big: Env)
    requires Extends(small, big)
    ensures x in small ==> x in big && big[x] == small[x]
  {
  }

  lemma ExtendsBind(small: Env, big: Env, x: nat, v: Value)
    requires Extends(small, big)
    ensures Extends(small[x := v], big[x := v])
  {
  }

  /** More bindings do not change an evaluation that was not stuck. */
  lemma {:induction false} Weaken(ops: Interp, e: Expr, small: Env, big: Env)
    requires Extends(small, big) && Eval(ops, e, small) != Stuck
    ensures Eval(ops, e, big) == Eval(ops, e, small)
    decreases e, 1
  {
    hide Extends, ApplyNumeric, ApplyNode, Lookup;
    match e
    case Local(id) => WeakenLocal(id, small, big);
    case Let(local, value, body) =>
      Weaken(ops, value, small, big);
      var v := Eval(ops, value, small);
      if v.Ret? {
        ExtendsBind(small, big, local, v.v);
        Weaken(ops, body, small[local := v.v], big[local := v.v]);
      }
    case If(cond, thn, els) =>
      Weaken(ops, cond, small, big);
      var c := Eval(ops, cond, small);
      if c.Ret? && c.v.BoolV? { Weaken(ops, if c.v.b then thn else els, small, big); }
    case Prim(_, _) => WeakenNode(ops, e, small, big);
    case Recur(_) => WeakenNode(ops, e, small, big);
    case App(func, args) =>
      Weaken(ops, func, small, big);
      if Eval(ops, func, small).Ret? { WeakenArgs(ops, args, small, big); }
    case MakeData(_, _) => WeakenNode(ops, e, small, big);
    case Foreign(_, _) => WeakenNode(ops, e, small, big);
    case DataTag(base) => Weaken(ops, base, small, big);
    case DataField(base, _) => Weaken(ops, base, small, big);
    case MakeClosure(_, captures) => WeakenLookup(small, big, captures);
    case Dup(_, body) => Weaken(ops, body, small, big);
    case Drop(_, body) => Weaken(ops, body, small, big);
    case FreeReuse(_, body) => Weaken(ops, body, small, big);
    case Reset(value, _, body) =>
      Weaken(ops, value, small, big);
      if Eval(ops, value, small).Ret? { Weaken(ops, body, small, big); }
    case _ =>
  }

  lemma {:induction false} WeakenNode(ops: Interp, e: Expr, small: Env, big: Env)
    requires e.Prim? || e.Recur? || e.MakeData? || e.Foreign?
    requires Extends(small, big) && Eval(ops, e, small) != Stuck
    ensures Eval(ops, e, big) == Eval(ops, e, small)
    decreases e, 0
  {
    hide Extends, ApplyNumeric, ApplyNode;
    WeakenArgs(ops, e.args, small, big);
  }

  lemma {:induction false} WeakenArgs(ops: Interp, args: seq<Expr>, small: Env, big: Env)
    requires Extends(small, big) && EvalArgs(ops, args, small) != Stop(Stuck)
    ensures EvalArgs(ops, args, big) == EvalArgs(ops, args, small)
    decreases args, 2
  {
    if args != [] {
      Weaken(ops, args[0], small, big);
      if Eval(ops, args[0], small).Ret? { WeakenArgs(ops, args[1..], small, big); }
    }
  }

  lemma {:induction false} WeakenLookup(small: Env, big: Env, ids: seq<nat>)
    requires Extends(small, big) && Lookup(small, ids) != Stop(Stuck)
    ensures Lookup(big, ids) == Lookup(small, ids)
    decreases |ids|
  {
    if ids != [] {
      WeakenLookup(small, big, ids[1..]);
    }
  }

  type Defs = map<nat, Expr>

  /** Every local in scope that has a recorded definition holds its value. */
  ghost predicate DefsHold(ops: Interp, defs: Defs, env: Env) {
    forall x :: x in defs && x in env ==> Eval(ops, defs[x], env) == Ret(env[x])
  }

  /** Binding a new local to the value of its definition keeps that so. */
  lemma BindDefinition(ops: Interp, defs: Defs, env: Env, local: nat, value: Expr, v: Value)
    requires DefsHold(ops, defs, env) && local !in env && Eval(ops, value, env) == Ret(v)
    ensures DefsHold(ops, defs[local := value], env[local := v])
    ensures local in defs && defs[local] == value ==> DefsHold(ops, defs, env[local := v])
  {
    var bigger := env[local := v];
    var all := defs[local := value];
    forall x | x in all && x in bigger ensures Eval(ops, all[x], bigger) == Ret(bigger[x]) {
      if x == local {
        Weaken(ops, value, env, bigger);
      } else {
        Weaken(ops, defs[x], env, bigger);
      }
    }
    if local in defs && defs[local] == value {
      assert all == defs;
    }
  }
}
