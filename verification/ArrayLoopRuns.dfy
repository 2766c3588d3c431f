/** Copy-on-update evaluation, destructive evaluation on one shared buffer, and the
    ownership discipline under which an accepted loop cannot tell them apart. */
module ArrayLoopRuns {
  import opened Machine
  import opened Primitives
  import opened Core
  import opened CoreLoop
  import opened ArrayLoopPlan

  // ----- copy-on-update semantics -----

  datatype PVal = Num(v: Value) | Arr(elems: seq<Value>)

  type PEnv = map<nat, PVal>

  datatype POut = PRet(v: PVal) | PBack(vals: seq<PVal>) | PTrap | PStuck

  datatype PArgs = PVals(vals: seq<PVal>) | PStop(o: POut)

  predicate Words(vals: seq<PVal>) {
    forall i :: 0 <= i < |vals| ==> vals[i].Num?
  }

  function WordValues(vals: seq<PVal>): (r: seq<Value>)
    requires Words(vals)
    ensures |r| == |vals|
    ensures forall i :: 0 <= i < |vals| ==> r[i] == vals[i].v
  {
    seq(|vals|, i requires 0 <= i < |vals| => vals[i].v)
  }

  function OfOutcome(o: Outcome): POut {
    match o
    case Ret(v) => PRet(Num(v))
    case Trap => PTrap
    case _ => PStuck
  }

  /** An index of an array of this length, as the runtime's bounds check sees it. */
  predicate IsIndex(v: PVal, n: nat) {
    v.Num? && v.v.IntV? && 0 <= v.v.n < n
  }

  function PApply(ops: Interp, op: Prim, vals: seq<PVal>): POut {
    if op == ArrayLength && |vals| == 1 && vals[0].Arr? then PRet(Num(IntV(Wrap(|vals[0].elems|))))
    else if op == ArrayGet && |vals| == 2 && vals[0].Arr? && vals[1].Num? && vals[1].v.IntV? then
      if IsIndex(vals[1], |vals[0].elems|) then PRet(Num(vals[0].elems[vals[1].v.n])) else PTrap
    else if op == ArraySet && |vals| == 3 && vals[0].Arr? && vals[1].Num? && vals[1].v.IntV? && vals[2].Num? then
      if IsIndex(vals[1], |vals[0].elems|) then PRet(Arr(vals[0].elems[vals[1].v.n := vals[2].v])) else PTrap
    else if !Words(vals) || op == ArrayLength || op == ArrayGet || op == ArraySet then PStuck
    else if Numeric(op) then OfOutcome(ApplyNumeric(ops, op, WordValues(vals)))
    else OfOutcome(ApplyNode(ops, PrimNode(op), WordValues(vals)))
  }

  function PCons(v: PVal, rest: PArgs): PArgs {
    if rest.PVals? then PVals([v] + rest.vals) else rest
  }

  function POnVals(ops: Interp, op: Prim, r: PArgs): POut {
    if r.PVals? then PApply(ops, op, r.vals) else r.o
  }

  function PEval(ops: Interp, e: Expr, env: PEnv): POut
    decreases e, 0
  {
    match e
    case Local(x) => if x in env then PRet(env[x]) else PStuck
    case Lit(lit) => PRet(Num(LitValue(lit)))
    case Error => PTrap
    case Let(local, value, body) =>
      (match PEval(ops, value, env)
       case PRet(v) => PEval(ops, body, env[local := v])
       case PTrap => PTrap
       case _ => PStuck)
    case If(cond, thn, els) =>
      (match PEval(ops, cond, env)
       case PRet(Num(BoolV(b))) => PEval(ops, if b then thn else els, env)
       case PTrap => PTrap
       case _ => PStuck)
    case Prim(op, args) => POnVals(ops, op, PEvalArgs(ops, args, env))
    case Recur(args) =>
      (match PEvalArgs(ops, args, env)
       case PVals(vals) => PBack(vals)
       case PStop(o) => o)
    case Dup(_, body) => PEval(ops, body, env)
    case Drop(_, body) => PEval(ops, body, env)
    case _ => PStuck
  }

  function PEvalArgs(ops: Interp, args: seq<Expr>, env: PEnv): (r: PArgs)
    ensures r.PVals? ==> |r.vals| == |args|
    ensures r.PStop? ==> r.o == PTrap || r.o == PStuck
    decreases args, 1
  {
    if args == [] then PVals([])
    else match PEval(ops, args[0], env)
      case PRet(v) => PCons(v, PEvalArgs(ops, args[1..], env))
      case PTrap => PStop(PTrap)
      case _ => PStop(PStuck)
  }

  // ----- destructive semantics: one buffer, updated in place -----

  datatype DVal = Word(v: Value) | Ref

  type DEnv = map<nat, DVal>
  type Buffer = seq<Value>

  datatype DOut = DRet(v: DVal, buf: Buffer) | DBack(vals: seq<DVal>, buf: Buffer) | DTrap | DStuck

  datatype DArgs = DVals(vals: seq<DVal>, buf: Buffer) | DStop(o: DOut)

  predicate AllWords(vals: seq<DVal>) {
    forall i :: 0 <= i < |vals| ==> vals[i].Word?
  }

  function PlainWords(vals: seq<DVal>): (r: seq<Value>)
    requires AllWords(vals)
    ensures |r| == |vals|
    ensures forall i :: 0 <= i < |vals| ==> r[i] == vals[i].v
  {
    seq(|vals|, i requires 0 <= i < |vals| => vals[i].v)
  }

  function OfWord(o: Outcome, buf: Buffer): DOut {
    match o
    case Ret(v) => DRet(Word(v), buf)
    case Trap => DTrap
    case _ => DStuck
  }

  function DApply(ops: Interp, op: Prim, vals: seq<DVal>, buf: Buffer): DOut {
    if op == ArrayLength && |vals| == 1 && vals[0].Ref? then DRet(Word(IntV(Wrap(|buf|))), buf)
    else if op == ArrayGet && |vals| == 2 && vals[0].Ref? && vals[1].Word? && vals[1].v.IntV? then
      if 0 <= vals[1].v.n < |buf| then DRet(Word(buf[vals[1].v.n]), buf) else DTrap
    else if op == ArraySet && |vals| == 3 && vals[0].Ref? && vals[1].Word? && vals[1].v.IntV? && vals[2].Word? then
      if 0 <= vals[1].v.n < |buf| then DRet(Ref, buf[vals[1].v.n := vals[2].v]) else DTrap
    else if !AllWords(vals) || op == ArrayLength || op == ArrayGet || op == ArraySet then DStuck
    else if Numeric(op) then OfWord(ApplyNumeric(ops, op, PlainWords(vals)), buf)
    else OfWord(ApplyNode(ops, PrimNode(op), PlainWords(vals)), buf)
  }

  function DCons(v: DVal, rest: DArgs): DArgs {
    if rest.DVals? then DVals([v] + rest.vals, rest.buf) else rest
  }

  function DOnVals(ops: Interp, op: Prim, r: DArgs): DOut {
    if r.DVals? then DApply(ops, op, r.vals, r.buf) else r.o
  }

  function DEval(ops: Interp, e: Expr, env: DEnv, buf: Buffer): DOut
    decreases e, 0
  {
    match e
    case Local(x) => if x in env then DRet(env[x], buf) else DStuck
    case Lit(lit) => DRet(Word(LitValue(lit)), buf)
    case Error => DTrap
    case Let(local, value, body) =>
      (match DEval(ops, value, env, buf)
       case DRet(v, after) => DEval(ops, body, env[local := v], after)
       case DTrap => DTrap
       case _ => DStuck)
    case If(cond, thn, els) =>
      (match DEval(ops, cond, env, buf)
       case DRet(Word(BoolV(b)), after) => DEval(ops, if b then thn else els, env, after)
       case DTrap => DTrap
       case _ => DStuck)
    case Prim(op, args) => DOnVals(ops, op, DEvalArgs(ops, args, env, buf))
    case Recur(args) =>
      (match DEvalArgs(ops, args, env, buf)
       case DVals(vals, after) => DBack(vals, after)
       case DStop(o) => o)
    case Dup(_, body) => DEval(ops, body, env, buf)
    case Drop(_, body) => DEval(ops, body, env, buf)
    case _ => DStuck
  }

  function DEvalArgs(ops: Interp, args: seq<Expr>, env: DEnv, buf: Buffer): (r: DArgs)
    ensures r.DVals? ==> |r.vals| == |args|
    ensures r.DStop? ==> r.o == DTrap || r.o == DStuck
    decreases args, 1
  {
    if args == [] then DVals([], buf)
    else match DEval(ops, args[0], env, buf)
      case DRet(v, after) => DCons(v, DEvalArgs(ops, args[1..], env, after))
      case DTrap => DStop(DTrap)
      case _ => DStop(DStuck)
  }

  // ----- ownership -----

  datatype Kind = WordKind | ArrayKind | NoReturn

  /** The references a term leaves owned, and what kind of value it yields. */
  datatype Owned = Owned(kind: Kind, live: multiset<nat>) | Illegal

  predicate IsArrayLocal(types: Types, x: nat) {
    x in types && types[x].ArrayTy?
  }

  function KindOf(t: ATy): Kind {
    if t.ArrayTy? then ArrayKind else WordKind
  }

  /** Ownership checking, as reference counting leaves a body: reading an array local
      uses up one reference, `Dup` adds one, `Drop` removes one, and every reference is
      used up on every path. Length and element reads borrow a local operand. */
  function Own(cx: Context, e: Expr, live: multiset<nat>): Owned
    decreases e, 1, 0
  {
    match e
    case Local(x) =>
      if !IsArrayLocal(cx.types, x) then Owned(WordKind, live)
      else if x in live then Owned(ArrayKind, live - multiset{x}) else Illegal
    case Lit(_) => Owned(WordKind, live)
    case Error => Owned(NoReturn, live)
    case Let(local, value, body) =>
      (match Own(cx, value, live)
       case Owned(k, l1) =>
         if k != NoReturn && (k == ArrayKind) != IsArrayLocal(cx.types, local) then Illegal
         else (match Own(cx, body, if IsArrayLocal(cx.types, local) then l1 + multiset{local} else l1)
               case Owned(k2, l2) => if local in l2 then Illegal else Owned(k2, l2)
               case Illegal => Illegal)
       case Illegal => Illegal)
    case If(cond, thn, els) =>
      (match Own(cx, cond, live)
       case Owned(k, l1) =>
         if k == ArrayKind then Illegal
         else OwnJoin(Own(cx, thn, l1), Own(cx, els, l1))
       case Illegal => Illegal)
    case Prim(op, args) =>
      if (op == ArrayLength || op == ArrayGet) && |args| > 0 && args[0].Local? &&
          IsArrayLocal(cx.types, args[0].id) then
        if args[0].id !in live then Illegal
        else (match OwnAll(cx, args[1..], live)
              case Owned(k, l1) => if args[0].id in l1 then Owned(WordKind, l1) else Illegal
              case Illegal => Illegal)
      else (match OwnAll(cx, args, live)
            case Owned(k, l1) =>
              Owned(if op == ArraySet then ArrayKind else if op == ArrayLength || op == ArrayGet then WordKind
                else KindOf(cx.ty(e)), l1)
            case Illegal => Illegal)
    case Recur(args) => if |args| == cx.arity then OwnNext(cx, e, 0, live) else Illegal
    case Dup(x, body) =>
      if !IsArrayLocal(cx.types, x) then Own(cx, body, live)
      else if x in live then Own(cx, body, live + multiset{x}) else Illegal
    case Drop(x, body) =>
      if !IsArrayLocal(cx.types, x) then Own(cx, body, live)
      else if x in live then Own(cx, body, live - multiset{x}) else Illegal
    case MakeData(_, args) => OwnNode(cx, e, OwnAll(cx, args, live))
    case Foreign(_, args) => OwnNode(cx, e, OwnAll(cx, args, live))
    case App(func, args) =>
      (match Own(cx, func, live)
       case Owned(_, l1) => OwnNode(cx, e, OwnAll(cx, args, l1))
       case Illegal => Illegal)
    case DataTag(base) => OwnNode(cx, e, Own(cx, base, live))
    case DataField(base, _) => OwnNode(cx, e, Own(cx, base, live))
    case Global(_) => Owned(KindOf(cx.ty(e)), live)
    case _ => Illegal
  }

  function OwnNode(cx: Context, e: Expr, operands: Owned): Owned {
    if operands.Owned? then Owned(KindOf(cx.ty(e)), operands.live) else Illegal
  }

  function OwnJoin(a: Owned, b: Owned): Owned {
    if a.Illegal? || b.Illegal? then Illegal
    else if a.kind == NoReturn then b
    else if b.kind == NoReturn then a
    else if a == b then a else Illegal
  }

  function OwnAll(cx: Context, args: seq<Expr>, live: multiset<nat>): Owned
    decreases args, 2, 0
  {
    if args == [] then Owned(WordKind, live)
    else match Own(cx, args[0], live)
      case Owned(_, l1) => OwnAll(cx, args[1..], l1)
      case Illegal => Illegal
  }

  /** A back-edge passes an array exactly in the array position and keeps nothing. */
  function OwnNext(cx: Context, e: Expr, i: nat, live: multiset<nat>): Owned
    requires e.Recur? && i <= |e.args|
    decreases e, 0, |e.args| - i
  {
    if i == |e.args| then (if live == multiset{} then Owned(NoReturn, live) else Illegal)
    else match Own(cx, e.args[i], live)
      case Owned(k, l1) =>
        if k != NoReturn && (k == ArrayKind) != (i == cx.position) then Illegal else OwnNext(cx, e, i + 1, l1)
      case Illegal => Illegal
  }

  // ----- the two evaluations side by side -----

  /** At most one reference is live, and the buffer is what it denotes. */
  ghost predicate Holds(cx: Context, live: multiset<nat>, env: PEnv, denv: DEnv, buf: Buffer) {
    && env.Keys == denv.Keys
    && (forall x :: x in env ==>
          if IsArrayLocal(cx.types, x) then env[x].Arr? && denv[x] == Ref else env[x].Num? && denv[x] == Word(env[x].v))
    && |live| <= 1 && forall x :: x in live ==> x in env && env[x] == Arr(buf)
  }

  /** What a sub-evaluation leaves behind, whichever semantics runs it. */
  ghost predicate Left(live: multiset<nat>, live2: multiset<nat>, env: PEnv, buf: Buffer, buf2: Buffer) {
    && live2 <= live && (forall x :: x in live2 ==> x in env && env[x] == Arr(buf2))
    && (live == multiset{} ==> buf2 == buf)
  }

  ghost predicate Related(cx: Context, kind: Kind, live: multiset<nat>, live2: multiset<nat>, env: PEnv,
      buf: Buffer, p: POut, d: DOut)
  {
    match p
    case PTrap => d == DTrap
    case PStuck => d == DStuck
    case PRet(Num(v)) => kind == WordKind && d.DRet? && d.v == Word(v) && Left(live, live2, env, buf, d.buf)
    case PRet(Arr(elems)) => kind == ArrayKind && d == DRet(Ref, elems) && live2 == multiset{} && live != multiset{}
    case PBack(vals) =>
      d.DBack? && |d.vals| == |vals| && |vals| == cx.arity &&
      forall i :: 0 <= i < |vals| ==>
        if i == cx.position then vals[i] == Arr(d.buf) && d.vals[i] == Ref
        else vals[i].Num? && d.vals[i] == Word(vals[i].v)
  }

  /** Operand lists correspond: arrays are the buffer, words are equal. */
  ghost predicate SameOperands(ps: seq<PVal>, ds: seq<DVal>, buf: Buffer) {
    |ps| == |ds| && forall i :: 0 <= i < |ps| ==>
      (ps[i].Num? && ds[i] == Word(ps[i].v)) || (ps[i] == Arr(buf) && ds[i] == Ref)
  }

  predicate ArrayOp(op: Prim) {
    op == ArrayLength || op == ArrayGet || op == ArraySet
  }

  lemma WordsAlike(ps: seq<PVal>, ds: seq<DVal>, buf: Buffer)
    requires SameOperands(ps, ds, buf)
    ensures Words(ps) <==> AllWords(ds)
    ensures Words(ps) ==> WordValues(ps) == PlainWords(ds)
  {
    if Words(ps) {
      assert forall i :: 0 <= i < |ps| ==> ps[i].Num? && ds[i] == Word(ps[i].v);
    } else {
      var i :| 0 <= i < |ps| && !ps[i].Num?;
      assert ds[i] == Ref;
    }
  }

  lemma ApplyWords(ops: Interp, op: Prim, ps: seq<PVal>, ds: seq<DVal>, buf: Buffer)
    requires SameOperands(ps, ds, buf) && !ArrayOp(op)
    ensures var p, d := PApply(ops, op, ps), DApply(ops, op, ds, buf);
      (p == PTrap && d == DTrap) || (p == PStuck && d == DStuck) || (p.PRet? && p.v.Num? && d == DRet(Word(p.v.v), buf))
  {
    hide SameOperands, WordValues, PlainWords, ApplyNumeric, ApplyNode, Numeric;
    WordsAlike(ps, ds, buf);
  }

  lemma ApplyArray(ops: Interp, op: Prim, ps: seq<PVal>, ds: seq<DVal>, buf: Buffer)
    requires SameOperands(ps, ds, buf) && ArrayOp(op)
    ensures var p, d := PApply(ops, op, ps), DApply(ops, op, ds, buf);
      || (p == PTrap && d == DTrap) || (p == PStuck && d == DStuck)
      || (op != ArraySet && p.PRet? && p.v.Num? && d == DRet(Word(p.v.v), buf))
      || (op == ArraySet && p.PRet? && p.v.Arr? && d == DRet(Ref, p.v.elems) && |ps| == 3 && ps[0].Arr?)
  {
  }

  /** Operand lists of `op` stop alike, or correspond and leave the right references. */
  ghost predicate SameVals(op: Prim, live: multiset<nat>, l2: multiset<nat>, env: PEnv, buf: Buffer, p: PArgs, d: DArgs)
  {
    || (p == PStop(PTrap) && d == DStop(DTrap))
    || (p == PStop(PStuck) && d == DStop(DStuck))
    || (p.PVals? && d.DVals? && SameOperands(p.vals, d.vals, d.buf)
        && if op == ArraySet then |p.vals| == 3 && p.vals[0].Arr? ==> live != multiset{} && l2 == multiset{}
           else Left(live, l2, env, buf, d.buf))
  }

  lemma ApplyAll(ops: Interp, cx: Context, op: Prim, kind: Kind, live: multiset<nat>, l2: multiset<nat>, env: PEnv,
      buf: Buffer, p: PArgs, d: DArgs)
    requires SameVals(op, live, l2, env, buf, p, d) && kind == (if op == ArraySet then ArrayKind else WordKind)
    ensures Related(cx, kind, live, l2, env, buf, POnVals(ops, op, p), DOnVals(ops, op, d))
  {
    if p.PVals? {
      hide PApply, DApply;
      if ArrayOp(op) {
        ApplyArray(ops, op, p.vals, d.vals, d.buf);
      } else {
        ApplyWords(ops, op, p.vals, d.vals, d.buf);
      }
    }
  }

  /** A term accepted as a scalar yields no array. */
  lemma {:induction false} ScalarKind(cx: Context, st: State, e: Expr, live: multiset<nat>)
    requires Walk(cx, st, e, false).Accepted? && Own(cx, e, live).Owned?
    ensures Own(cx, e, live).kind != ArrayKind
    decreases e
  {
    var st0 := st.(budget := st.budget - 1);
    match e
    case Let(local, value, body) =>
      var st1 := Walk(cx, st0, value, true).st;
      var l1 := Own(cx, value, live).live;
      ScalarKind(cx, AfterValue(st1, local, value), body, if IsArrayLocal(cx.types, local) then l1 + multiset{local}
        else l1);
    case If(cond, thn, els) =>
      var st1 := Walk(cx, st0, cond, false).st;
      var l1 := Own(cx, cond, live).live;
      ScalarKind(cx, st1, thn, l1);
      ScalarKind(cx, Walk(cx, st1, thn, false).st, els, l1);
    case Dup(x, body) => ScalarKind(cx, st0, body, live);
    case Drop(x, body) => ScalarKind(cx, st0, body, live);
    case Recur(args) => NextKind(cx, e, 0, live);
    case _ =>
  }

  lemma {:induction false} NextKind(cx: Context, e: Expr, i: nat, live: multiset<nat>)
    requires e.Recur? && i <= |e.args| && OwnNext(cx, e, i, live).Owned?
    ensures OwnNext(cx, e, i, live).kind == NoReturn
    decreases |e.args| - i
  {
    if i < |e.args| {
      NextKind(cx, e, i + 1, Own(cx, e.args[i], live).live);
    }
  }

  lemma LeftTrans(a: multiset<nat>, b: multiset<nat>, c: multiset<nat>, env: PEnv, x: Buffer, y: Buffer, z: Buffer)
    requires Left(a, b, env, x, y) && Left(b, c, env, y, z)
    ensures Left(a, c, env, x, z)
  {
  }

  lemma HoldsLeft(cx: Context, live: multiset<nat>, live2: multiset<nat>, env: PEnv, denv: DEnv, buf: Buffer,
      buf2: Buffer)
    requires Holds(cx, live, env, denv, buf) && Left(live, live2, env, buf, buf2)
    ensures Holds(cx, live2, env, denv, buf2)
  {
    SubsetSize(live2, live);
  }

  lemma SubsetSize(a: multiset<nat>, b: multiset<nat>)
    requires a <= b
    ensures |a| <= |b|
  {
    assert b == a + (b - a);
  }

  /** The hypotheses every step of the simulation carries along. */
  ghost predicate Ready(cx: Context, e: Expr, live: multiset<nat>, env: PEnv, denv: DEnv, buf: Buffer) {
    Holds(cx, live, env, denv, buf) && BoundOnce(e) && Binders(e) !! env.Keys
  }

  /** Copying and updating in place give the same outcome. */
  ghost predicate Same(ops: Interp, cx: Context, e: Expr, live: multiset<nat>, env: PEnv, denv: DEnv, buf: Buffer) {
    var o := Own(cx, e, live);
    o.Owned? && Related(cx, o.kind, live, o.live, env, buf, PEval(ops, e, env), DEval(ops, e, denv, buf))
  }

  lemma {:induction false} InPlace(ops: Interp, cx: Context, st: State, e: Expr, av: bool, live: multiset<nat>,
      env: PEnv, denv: DEnv, buf: Buffer)
    requires Walk(cx, st, e, av).Accepted? && Own(cx, e, live).Owned? && Ready(cx, e, live, env, denv, buf)
    ensures Same(ops, cx, e, live, env, denv, buf)
    decreases e, 1, 0
  {
    hide Same, Ready, Own, WalkAll, WalkNext, AfterValue, ArrayResult;
    var st0 := st.(budget := st.budget - 1);
    match e
    case Local(_) => InPlaceLocal(ops, cx, e, live, env, denv, buf);
    case Dup(_, _) => InPlaceCount(ops, cx, st0, e, av, live, env, denv, buf);
    case Drop(_, _) => InPlaceCount(ops, cx, st0, e, av, live, env, denv, buf);
    case Let(_, _, _) => InPlaceLet(ops, cx, st0, e, av, live, env, denv, buf);
    case If(_, _, _) => InPlaceIf(ops, cx, st0, e, av, live, env, denv, buf);
    case Prim(_, _) => InPlacePrim(ops, cx, st0, e, av, live, env, denv, buf);
    case Recur(_) => InPlaceRecur(ops, cx, st0, e, live, env, denv, buf);
    case _ => InPlaceLeaf(ops, cx, e, live, env, denv, buf);
  }

  lemma InPlaceLeaf(ops: Interp, cx: Context, e: Expr, live: multiset<nat>, env: PEnv, denv: DEnv, buf: Buffer)
    requires (e.Lit? || e.Error?) && Ready(cx, e, live, env, denv, buf)
    ensures Same(ops, cx, e, live, env, denv, buf)
  {
  }

  /** Counts of scalars change nothing: array counts are refused by the scan. */
  lemma {:induction false} InPlaceCount(ops: Interp, cx: Context, st: State, e: Expr, av: bool,
      live: multiset<nat>, env: PEnv, denv: DEnv, buf: Buffer)
    requires e.Dup? || e.Drop?
    requires ScalarLocal(cx.types, e.local) && Walk(cx, st, e.body, av).Accepted?
    requires Own(cx, e, live).Owned? && Ready(cx, e, live, env, denv, buf)
    ensures Same(ops, cx, e, live, env, denv, buf)
    decreases e, 0, 0
  {
    assert Own(cx, e, live) == Own(cx, e.body, live);
    assert PEval(ops, e, env) == PEval(ops, e.body, env) && DEval(ops, e, denv, buf) == DEval(ops, e.body, denv, buf);
    ReadySame(cx, e, e.body, live, env, denv, buf);
    hide Own, PEval, DEval, Ready, Walk, Related;
    InPlace(ops, cx, st, e.body, av, live, env, denv, buf);
  }

  lemma {:induction false} InPlaceRecur(ops: Interp, cx: Context, st: State, e: Expr, live: multiset<nat>,
      env: PEnv, denv: DEnv, buf: Buffer)
    requires e.Recur? && |e.args| == cx.arity && WalkNext(cx, st, e, 0).Accepted?
    requires Own(cx, e, live).Owned? && Ready(cx, e, live, env, denv, buf)
    ensures Same(ops, cx, e, live, env, denv, buf)
    decreases e, 0, |e.args| + 1
  {
    assert e.args[0..] == e.args;
    assert ReadyAll(cx, e.args, live, env, denv, buf);
    assert OwnNext(cx, e, 0, live) == Own(cx, e, live);
    hide Ready, ReadyAll, Walk, WalkNext, Own, OwnNext, SameNext, Same, PEval, DEval;
    InPlaceNext(ops, cx, st, e, 0, live, env, denv, buf);
    RecurSame(ops, cx, e, live, env, denv, buf);
  }

  lemma RecurSame(ops: Interp, cx: Context, e: Expr, live: multiset<nat>, env: PEnv, denv: DEnv, buf: Buffer)
    requires e.Recur? && |e.args| == cx.arity && Own(cx, e, live).Owned?
    requires SameNext(cx, 0, live, buf, PEvalArgs(ops, e.args, env), DEvalArgs(ops, e.args, denv, buf))
    ensures Same(ops, cx, e, live, env, denv, buf)
  {
    hide Own, Left;
  }

  lemma ReadySame(cx: Context, e: Expr, body: Expr, live: multiset<nat>, env: PEnv, denv: DEnv, buf: Buffer)
    requires Ready(cx, e, live, env, denv, buf) && BoundOnce(body) && Binders(body) <= Binders(e)
    ensures Ready(cx, body, live, env, denv, buf)
  {
  }

  lemma InPlaceLocal(ops: Interp, cx: Context, e: Expr, live: multiset<nat>, env: PEnv, denv: DEnv, buf: Buffer)
    requires e.Local? && Own(cx, e, live).Owned? && Ready(cx, e, live, env, denv, buf)
    ensures Same(ops, cx, e, live, env, denv, buf)
  {
    if IsArrayLocal(cx.types, e.id) {
      assert |live| == |live - multiset{e.id}| + 1;
    }
  }

  lemma LetReady(cx: Context, e: Expr, live: multiset<nat>, env: PEnv, denv: DEnv, buf: Buffer)
    requires e.Let? && Ready(cx, e, live, env, denv, buf)
    ensures Ready(cx, e.value, live, env, denv, buf)
  {
    hide Holds;
  }

  lemma OwnLet(cx: Context, e: Expr, live: multiset<nat>)
    requires e.Let? && Own(cx, e, live).Owned?
    ensures var o := Own(cx, e.value, live);
      && o.Owned? && (o.kind != NoReturn ==> (o.kind == ArrayKind) == IsArrayLocal(cx.types, e.local))
      && var o2 := Own(cx, e.body, if IsArrayLocal(cx.types, e.local) then o.live + multiset{e.local} else o.live);
         o2.Owned? && e.local !in o2.live && Own(cx, e, live) == o2
  {
  }

  lemma LetEvals(ops: Interp, e: Expr, env: PEnv, denv: DEnv, buf: Buffer)
    requires e.Let? && PEval(ops, e.value, env).PRet? && DEval(ops, e.value, denv, buf).DRet?
    ensures PEval(ops, e, env) == PEval(ops, e.body, env[e.local := PEval(ops, e.value, env).v])
    ensures var d := DEval(ops, e.value, denv, buf);
      DEval(ops, e, denv, buf) == DEval(ops, e.body, denv[e.local := d.v], d.buf)
  {
  }

  lemma LetStops(ops: Interp, cx: Context, e: Expr, live: multiset<nat>, env: PEnv, denv: DEnv, buf: Buffer)
    requires e.Let? && Own(cx, e, live).Owned? && Same(ops, cx, e.value, live, env, denv, buf)
    requires !PEval(ops, e.value, env).PRet?
    ensures Same(ops, cx, e, live, env, denv, buf)
  {
    hide Own, Left;
  }

  lemma {:induction false} InPlaceLet(ops: Interp, cx: Context, st: State, e: Expr, av: bool, live: multiset<nat>,
      env: PEnv, denv: DEnv, buf: Buffer)
    requires e.Let? && Walk(cx, st, e.value, true).Accepted?
    requires Walk(cx, AfterValue(Walk(cx, st, e.value, true).st, e.local, e.value), e.body, av).Accepted?
    requires Own(cx, e, live).Owned? && Ready(cx, e, live, env, denv, buf)
    ensures Same(ops, cx, e, live, env, denv, buf)
    decreases e, 0, 0
  {
    hide Own, Walk, PEval, DEval, Ready, Left, Related;
    var st1 := AfterValue(Walk(cx, st, e.value, true).st, e.local, e.value);
    OwnLet(cx, e, live);
    LetReady(cx, e, live, env, denv, buf);
    InPlace(ops, cx, st, e.value, true, live, env, denv, buf);
    var o := Own(cx, e.value, live);
    var l1 := if IsArrayLocal(cx.types, e.local) then o.live + multiset{e.local} else o.live;
    var p, d := PEval(ops, e.value, env), DEval(ops, e.value, denv, buf);
    if p.PRet? {
      ReadyBody(cx, e, live, o.live, o.kind, env, denv, buf, p, d);
      InPlace(ops, cx, st1, e.body, av, l1, env[e.local := p.v], denv[e.local := d.v], d.buf);
      var o2 := Own(cx, e.body, l1);
      Returned(cx, o.kind, live, o.live, env, buf, p, d);
      LetRelated(cx, e.local, live, o.live, o.kind, o2.kind, o2.live, env, buf, p, d,
        PEval(ops, e.body, env[e.local := p.v]), DEval(ops, e.body, denv[e.local := d.v], d.buf));
      LetEvals(ops, e, env, denv, buf);
    } else {
      LetStops(ops, cx, e, live, env, denv, buf);
    }
  }

  lemma Returned(cx: Context, kind: Kind, live: multiset<nat>, l0: multiset<nat>, env: PEnv, buf: Buffer, p: POut,
      d: DOut)
    requires Related(cx, kind, live, l0, env, buf, p, d) && p.PRet?
    ensures if p.v.Num? then kind == WordKind && d.DRet? && d.v == Word(p.v.v) && Left(live, l0, env, buf, d.buf)
            else kind == ArrayKind && d == DRet(Ref, p.v.elems) && l0 == multiset{} && live != multiset{}
  {
  }

  lemma HoldsWord(cx: Context, live: multiset<nat>, l0: multiset<nat>, env: PEnv, denv: DEnv, buf: Buffer,
      buf2: Buffer, x: nat, v: Value)
    requires Holds(cx, live, env, denv, buf) && Left(live, l0, env, buf, buf2)
    requires x !in env && !IsArrayLocal(cx.types, x)
    ensures Holds(cx, l0, env[x := Num(v)], denv[x := Word(v)], buf2)
  {
    HoldsLeft(cx, live, l0, env, denv, buf, buf2);
  }

  lemma HoldsArray(cx: Context, live: multiset<nat>, env: PEnv, denv: DEnv, buf: Buffer, x: nat, elems: seq<Value>)
    requires Holds(cx, live, env, denv, buf) && x !in env && IsArrayLocal(cx.types, x)
    ensures Holds(cx, multiset{x}, env[x := Arr(elems)], denv[x := Ref], elems)
  {
  }

  lemma ReadyBody(cx: Context, e: Expr, live: multiset<nat>, l0: multiset<nat>, kind: Kind, env: PEnv, denv: DEnv,
      buf: Buffer, p: POut, d: DOut)
    requires e.Let? && Ready(cx, e, live, env, denv, buf) && p.PRet? && Related(cx, kind, live, l0, env, buf, p, d)
    requires kind != NoReturn ==> (kind == ArrayKind) == IsArrayLocal(cx.types, e.local)
    ensures d.DRet?
    ensures var l1 := if IsArrayLocal(cx.types, e.local) then l0 + multiset{e.local} else l0;
      Ready(cx, e.body, l1, env[e.local := p.v], denv[e.local := d.v], d.buf)
  {
    hide Related, Holds, Left;
    Returned(cx, kind, live, l0, env, buf, p, d);
    var l1 := if IsArrayLocal(cx.types, e.local) then l0 + multiset{e.local} else l0;
    if p.v.Num? {
      HoldsWord(cx, live, l0, env, denv, buf, d.buf, e.local, p.v.v);
    } else {
      HoldsArray(cx, live, env, denv, buf, e.local, p.v.elems);
      assert l0 + multiset{e.local} == multiset{e.local};
    }
    assert env[e.local := p.v].Keys == env.Keys + {e.local};
  }

  lemma LetRelated(cx: Context, local: nat, live: multiset<nat>, l0: multiset<nat>, kind: Kind, kind2: Kind,
      l2: multiset<nat>, env: PEnv, buf: Buffer, p: POut, d: DOut, p2: POut, d2: DOut)
    requires p.PRet? && d.DRet? && Related(cx, kind, live, l0, env, buf, p, d)
    requires (kind == ArrayKind) == IsArrayLocal(cx.types, local) && local !in l2
    requires var l1 := if IsArrayLocal(cx.types, local) then l0 + multiset{local} else l0;
      Related(cx, kind2, l1, l2, env[local := p.v], d.buf, p2, d2)
    ensures Related(cx, kind2, live, l2, env, buf, p2, d2)
  {
    if p.v.Arr? {
      assert l0 + multiset{local} == multiset{local};
      if p2.PRet? && p2.v.Num? {
        assert l2 == multiset{};
      }
    }
  }

  lemma IfReady(cx: Context, e: Expr, live: multiset<nat>, env: PEnv, denv: DEnv, buf: Buffer)
    requires e.If? && Ready(cx, e, live, env, denv, buf)
    ensures Ready(cx, e.cond, live, env, denv, buf)
    ensures Ready(cx, e.thn, live, env, denv, buf) && Ready(cx, e.els, live, env, denv, buf)
  {
    hide Holds;
  }

  lemma IfEvals(ops: Interp, e: Expr, env: PEnv, denv: DEnv, buf: Buffer)
    requires e.If? && PEval(ops, e.cond, env).PRet? && PEval(ops, e.cond, env).v.Num?
    requires PEval(ops, e.cond, env).v.v.BoolV?
    requires DEval(ops, e.cond, denv, buf).DRet? && DEval(ops, e.cond, denv, buf).v == Word(PEval(ops, e.cond, env).v.v)
    ensures var branch := if PEval(ops, e.cond, env).v.v.b then e.thn else e.els;
      && PEval(ops, e, env) == PEval(ops, branch, env)
      && DEval(ops, e, denv, buf) == DEval(ops, branch, denv, DEval(ops, e.cond, denv, buf).buf)
  {
  }

  lemma {:induction false} InPlaceIf(ops: Interp, cx: Context, st: State, e: Expr, av: bool, live: multiset<nat>,
      env: PEnv, denv: DEnv, buf: Buffer)
    requires e.If? && Walk(cx, st, e.cond, false).Accepted?
    requires var st1 := Walk(cx, st, e.cond, false).st;
      Walk(cx, st1, e.thn, av).Accepted? && Walk(cx, Walk(cx, st1, e.thn, av).st, e.els, av).Accepted?
    requires Own(cx, e, live).Owned? && Ready(cx, e, live, env, denv, buf)
    ensures Same(ops, cx, e, live, env, denv, buf)
    decreases e, 0, 0
  {
    hide Walk, Own, Left, PEval, DEval, Ready, Related;
    var st1 := Walk(cx, st, e.cond, false).st;
    IfReady(cx, e, live, env, denv, buf);
    OwnIf(cx, e, live);
    InPlace(ops, cx, st, e.cond, false, live, env, denv, buf);
    var p, d := PEval(ops, e.cond, env), DEval(ops, e.cond, denv, buf);
    if p.PRet? && p.v.Num? && p.v.v.BoolV? {
      var branch := if p.v.v.b then e.thn else e.els;
      var o := Own(cx, e.cond, live);
      Returned(cx, o.kind, live, o.live, env, buf, p, d);
      ReadyLeft(cx, branch, live, o.live, env, denv, buf, d.buf);
      InPlace(ops, cx, if p.v.v.b then st1 else Walk(cx, st1, e.thn, av).st, branch, av, o.live, env, denv, d.buf);
      IfEvals(ops, e, env, denv, buf);
      ThenSame(ops, cx, e, branch, live, o.live, env, denv, buf, d.buf);
    } else {
      IfStops(ops, cx, e, live, env, denv, buf);
    }
  }

  lemma OwnIf(cx: Context, e: Expr, live: multiset<nat>)
    requires e.If? && Own(cx, e, live).Owned?
    ensures Own(cx, e.cond, live).Owned? && Own(cx, e.cond, live).kind != ArrayKind
    ensures var l1 := Own(cx, e.cond, live).live;
      && Own(cx, e.thn, l1).Owned? && Own(cx, e.els, l1).Owned?
      && Own(cx, e, live) == OwnJoin(Own(cx, e.thn, l1), Own(cx, e.els, l1))
  {
  }

  lemma IfStops(ops: Interp, cx: Context, e: Expr, live: multiset<nat>, env: PEnv, denv: DEnv, buf: Buffer)
    requires e.If? && Own(cx, e, live).Owned? && Same(ops, cx, e.cond, live, env, denv, buf)
    requires var p := PEval(ops, e.cond, env); !(p.PRet? && p.v.Num? && p.v.v.BoolV?)
    ensures Same(ops, cx, e, live, env, denv, buf)
  {
    hide Own, Left;
  }

  /** The condition and then the branch it picks. */
  lemma ThenSame(ops: Interp, cx: Context, e: Expr, branch: Expr, live: multiset<nat>, l1: multiset<nat>,
      env: PEnv, denv: DEnv, buf: Buffer, buf1: Buffer)
    requires e.If? && Own(cx, e, live).Owned? && Own(cx, e.cond, live).Owned? && Own(cx, e.cond, live).live == l1
    requires Own(cx, e, live) == OwnJoin(Own(cx, e.thn, l1), Own(cx, e.els, l1)) && Left(live, l1, env, buf, buf1)
    requires branch == e.thn || branch == e.els
    requires PEval(ops, e, env) == PEval(ops, branch, env) && DEval(ops, e, denv, buf) == DEval(ops, branch, denv, buf1)
    requires Same(ops, cx, branch, l1, env, denv, buf1)
    ensures Same(ops, cx, e, live, env, denv, buf)
  {
    hide Own, PEval, DEval;
    ThenRelated(cx, live, l1, env, buf, buf1, Own(cx, branch, l1), PEval(ops, branch, env),
      DEval(ops, branch, denv, buf1));
    var a, b := Own(cx, e.thn, l1), Own(cx, e.els, l1);
  }

  lemma ReadyLeft(cx: Context, e: Expr, live: multiset<nat>, l1: multiset<nat>, env: PEnv, denv: DEnv, buf: Buffer,
      buf1: Buffer)
    requires Ready(cx, e, live, env, denv, buf) && Left(live, l1, env, buf, buf1)
    ensures Ready(cx, e, l1, env, denv, buf1)
  {
    HoldsLeft(cx, live, l1, env, denv, buf, buf1);
  }

  /** Evaluating one thing and then another. */
  lemma ThenRelated(cx: Context, live: multiset<nat>, l1: multiset<nat>, env: PEnv, buf: Buffer, buf1: Buffer,
      o: Owned, p: POut, d: DOut)
    requires Left(live, l1, env, buf, buf1) && o.Owned? && Related(cx, o.kind, l1, o.live, env, buf1, p, d)
    ensures Related(cx, o.kind, live, o.live, env, buf, p, d)
  {
  }

  // ----- operand lists -----

  /** Scalar operand lists stop alike or hold the same words. */
  ghost predicate SameWords(live: multiset<nat>, live2: multiset<nat>, env: PEnv, buf: Buffer, p: PArgs, d: DArgs) {
    || (p == PStop(PTrap) && d == DStop(DTrap))
    || (p == PStop(PStuck) && d == DStop(DStuck))
    || (p.PVals? && d.DVals? && |p.vals| == |d.vals| && Left(live, live2, env, buf, d.buf)
        && forall i :: 0 <= i < |p.vals| ==> p.vals[i].Num? && d.vals[i] == Word(p.vals[i].v))
  }

  ghost predicate ReadyAll(cx: Context, args: seq<Expr>, live: multiset<nat>, env: PEnv, denv: DEnv, buf: Buffer) {
    Holds(cx, live, env, denv, buf) && BoundOnceIn(args) && BindersIn(args) !! env.Keys
  }

  lemma {:induction false} InPlaceWords(ops: Interp, cx: Context, st: State, args: seq<Expr>, live: multiset<nat>,
      env: PEnv, denv: DEnv, buf: Buffer)
    requires WalkAll(cx, st, args).Accepted? && OwnAll(cx, args, live).Owned? &&
      ReadyAll(cx, args, live, env, denv, buf)
    ensures SameWords(live, OwnAll(cx, args, live).live, env, buf, PEvalArgs(ops, args, env),
      DEvalArgs(ops, args, denv, buf))
    decreases args, 2, 0
  {
    if args != [] {
      ReadyHead(cx, args, live, env, denv, buf);
      hide ReadyAll, Ready;
      InPlace(ops, cx, st, args[0], false, live, env, denv, buf);
      ScalarKind(cx, st, args[0], live);
      var l1 := Own(cx, args[0], live).live;
      var p, d := PEval(ops, args[0], env), DEval(ops, args[0], denv, buf);
      hide Left, Own, Walk;
      if p.PRet? {
        ReadyTail(cx, args, live, l1, env, denv, buf, d.buf);
        hide PEval, DEval, Related;
        InPlaceWords(ops, cx, Walk(cx, st, args[0], false).st, args[1..], l1, env, denv, d.buf);
        WordsCons(live, l1, OwnAll(cx, args, live).live, env, buf, d.buf, p.v, d.v,
          PEvalArgs(ops, args[1..], env), DEvalArgs(ops, args[1..], denv, d.buf));
      }
    }
  }

  lemma ReadyHead(cx: Context, args: seq<Expr>, live: multiset<nat>, env: PEnv, denv: DEnv, buf: Buffer)
    requires args != [] && ReadyAll(cx, args, live, env, denv, buf)
    ensures Ready(cx, args[0], live, env, denv, buf)
  {
  }

  lemma ReadyTail(cx: Context, args: seq<Expr>, live: multiset<nat>, l1: multiset<nat>, env: PEnv, denv: DEnv,
      buf: Buffer, buf1: Buffer)
    requires args != [] && ReadyAll(cx, args, live, env, denv, buf) && Left(live, l1, env, buf, buf1)
    ensures ReadyAll(cx, args[1..], l1, env, denv, buf1)
  {
    HoldsLeft(cx, live, l1, env, denv, buf, buf1);
  }

  lemma WordsCons(live: multiset<nat>, l1: multiset<nat>, l2: multiset<nat>, env: PEnv, buf: Buffer, buf1: Buffer,
      v: PVal, w: DVal, ps: PArgs, ds: DArgs)
    requires v.Num? && w == Word(v.v) && Left(live, l1, env, buf, buf1) && SameWords(l1, l2, env, buf1, ps, ds)
    ensures SameWords(live, l2, env, buf, PCons(v, ps), DCons(w, ds))
  {
  }

  lemma {:induction false} InPlacePrim(ops: Interp, cx: Context, st: State, e: Expr, av: bool, live: multiset<nat>,
      env: PEnv, denv: DEnv, buf: Buffer)
    requires e.Prim? && Walk(cx, st.(budget := st.budget + 1), e, av).Accepted?
    requires Own(cx, e, live).Owned? && Ready(cx, e, live, env, denv, buf)
    ensures Same(ops, cx, e, live, env, denv, buf)
    decreases e, 0, 1
  {
    hide Same, Ready, Own, Walk, WalkAll;
    PrimWalk(cx, st, e, av);
    if !ArrayOp(e.op) {
      InPlaceScalars(ops, cx, st, e, live, env, denv, buf);
    } else {
      var st1 := Walk(cx, st, e.args[0], true).st;
      var st2 := if e.op == ArraySet then st1.(writes := st1.writes + 1) else st1;
      if e.op != ArraySet && e.args[0].Local? && IsArrayLocal(cx.types, e.args[0].id) {
        InPlaceBorrow(ops, cx, st2, e, live, env, denv, buf);
      } else {
        InPlaceConsume(ops, cx, st, st2, e, live, env, denv, buf);
      }
    }
  }

  lemma PrimWalk(cx: Context, st: State, e: Expr, av: bool)
    requires e.Prim? && Walk(cx, st.(budget := st.budget + 1), e, av).Accepted?
    ensures if !ArrayOp(e.op) then Scalar(cx.ty(e)) && WalkAll(cx, st, e.args).Accepted?
      else && |e.args| > 0 && Walk(cx, st, e.args[0], true).Accepted?
           && var st1 := Walk(cx, st, e.args[0], true).st;
              WalkAll(cx, if e.op == ArraySet then st1.(writes := st1.writes + 1) else st1, e.args[1..]).Accepted?
  {
  }

  /** A primitive on scalars. */
  lemma {:induction false} InPlaceScalars(ops: Interp, cx: Context, st: State, e: Expr, live: multiset<nat>,
      env: PEnv, denv: DEnv, buf: Buffer)
    requires e.Prim? && !ArrayOp(e.op) && Scalar(cx.ty(e)) && WalkAll(cx, st, e.args).Accepted?
    requires Own(cx, e, live).Owned? && Ready(cx, e, live, env, denv, buf)
    ensures Same(ops, cx, e, live, env, denv, buf)
    decreases e, 0, 0
  {
    hide Same, Ready, ReadyAll, Walk, PEval, DEval;
    ReadyArgs(cx, e, live, env, denv, buf);
    InPlaceWords(ops, cx, st, e.args, live, env, denv, buf);
    PrimSame(ops, cx, e, live, OwnAll(cx, e.args, live).live, env, denv, buf);
  }

  lemma ReadyArgs(cx: Context, e: Expr, live: multiset<nat>, env: PEnv, denv: DEnv, buf: Buffer)
    requires e.Prim? && Ready(cx, e, live, env, denv, buf)
    ensures ReadyAll(cx, e.args, live, env, denv, buf)
    ensures |e.args| > 0 ==> ReadyAll(cx, e.args[1..], live, env, denv, buf)
  {
  }

  lemma PrimSame(ops: Interp, cx: Context, e: Expr, live: multiset<nat>, l2: multiset<nat>, env: PEnv, denv: DEnv,
      buf: Buffer)
    requires e.Prim? && Own(cx, e, live) == Owned(if e.op == ArraySet then ArrayKind else WordKind, l2)
    requires SameVals(e.op, live, l2, env, buf, PEvalArgs(ops, e.args, env), DEvalArgs(ops, e.args, denv, buf))
    ensures Same(ops, cx, e, live, env, denv, buf)
  {
    hide Own, SameVals, POnVals, DOnVals;
    ApplyAll(ops, cx, e.op, Own(cx, e, live).kind, live, l2, env, buf, PEvalArgs(ops, e.args, env),
      DEvalArgs(ops, e.args, denv, buf));
  }

  /** A borrowed operand is still the buffer when the operation reads it. */
  lemma {:induction false} InPlaceBorrow(ops: Interp, cx: Context, st: State, e: Expr, live: multiset<nat>,
      env: PEnv, denv: DEnv, buf: Buffer)
    requires e.Prim? && (e.op == ArrayLength || e.op == ArrayGet) && |e.args| > 0 && e.args[0].Local?
    requires IsArrayLocal(cx.types, e.args[0].id) && WalkAll(cx, st, e.args[1..]).Accepted?
    requires Own(cx, e, live).Owned? && Ready(cx, e, live, env, denv, buf)
    ensures Same(ops, cx, e, live, env, denv, buf)
    decreases e, 0, 0
  {
    var x := e.args[0].id;
    ReadyArgs(cx, e, live, env, denv, buf);
    hide ReadyAll, Same;
    var r := OwnAll(cx, e.args[1..], live);
    assert r.Owned? && x in live && x in r.live && Own(cx, e, live) == Owned(WordKind, r.live);
    assert x in env && x in denv && denv[x] == Ref && PEval(ops, e.args[0], env) == PRet(env[x]) &&
        DEval(ops, e.args[0], denv, buf) == DRet(Ref, buf);
    hide Own, Walk, PEval, DEval, Ready, Holds;
    InPlaceWords(ops, cx, st, e.args[1..], live, env, denv, buf);
    var ps, ds := PEvalArgs(ops, e.args[1..], env), DEvalArgs(ops, e.args[1..], denv, buf);
    assert PEvalArgs(ops, e.args, env) == PCons(env[x], ps) && DEvalArgs(ops, e.args, denv, buf) == DCons(Ref, ds);
    BorrowVals(e.op, live, r.live, env, buf, x, ps, ds);
    PrimSame(ops, cx, e, live, r.live, env, denv, buf);
  }

  lemma BorrowVals(op: Prim, live: multiset<nat>, l2: multiset<nat>, env: PEnv, buf: Buffer, x: nat, ps: PArgs,
      ds: DArgs)
    requires op != ArraySet && x in l2 && x in env && SameWords(live, l2, env, buf, ps, ds)
    ensures SameVals(op, live, l2, env, buf, PCons(env[x], ps), DCons(Ref, ds))
  {
  }

  /** The array operand is used up; nothing can reach the buffer before the operation. */
  lemma {:induction false} InPlaceConsume(ops: Interp, cx: Context, st: State, st1: State, e: Expr,
      live: multiset<nat>, env: PEnv, denv: DEnv, buf: Buffer)
    requires e.Prim? && ArrayOp(e.op) && |e.args| > 0
    requires e.op == ArraySet || !e.args[0].Local? || !IsArrayLocal(cx.types, e.args[0].id)
    requires Walk(cx, st, e.args[0], true).Accepted? && WalkAll(cx, st1, e.args[1..]).Accepted?
    requires Own(cx, e, live).Owned? && Ready(cx, e, live, env, denv, buf)
    ensures Same(ops, cx, e, live, env, denv, buf)
    decreases e, 0, 0
  {
    var args := e.args;
    ReadyArgs(cx, e, live, env, denv, buf);
    OwnConsume(cx, e, live);
    ReadyHead(cx, args, live, env, denv, buf);
    hide ReadyAll, Ready, Own, Walk;
    InPlace(ops, cx, st, args[0], true, live, env, denv, buf);
    var o := Own(cx, args[0], live);
    var l1, l2 := o.live, OwnAll(cx, args, live).live;
    var p, d := PEval(ops, args[0], env), DEval(ops, args[0], denv, buf);
    hide Left;
    if p.PRet? {
      hide PEval, DEval;
      TailReady(cx, e, o.kind, live, l1, env, denv, buf, p, d);
      InPlaceWords(ops, cx, st1, args[1..], l1, env, denv, d.buf);
      var ps, ds := PEvalArgs(ops, args[1..], env), DEvalArgs(ops, args[1..], denv, d.buf);
      assert PEvalArgs(ops, args, env) == PCons(p.v, ps) && DEvalArgs(ops, args, denv, buf) == DCons(d.v, ds);
      ConsumeVals(cx, e.op, o.kind, live, l1, l2, env, buf, p, d, ps, ds);
    }
    PrimSame(ops, cx, e, live, l2, env, denv, buf);
  }

  lemma OwnConsume(cx: Context, e: Expr, live: multiset<nat>)
    requires e.Prim? && ArrayOp(e.op) && |e.args| > 0 && Own(cx, e, live).Owned?
    requires e.op == ArraySet || !e.args[0].Local? || !IsArrayLocal(cx.types, e.args[0].id)
    ensures OwnAll(cx, e.args, live).Owned? && Own(cx, e.args[0], live).Owned?
    ensures OwnAll(cx, e.args, live) == OwnAll(cx, e.args[1..], Own(cx, e.args[0], live).live)
    ensures Own(cx, e, live) == Owned(if e.op == ArraySet then ArrayKind else WordKind, OwnAll(cx, e.args, live).live)
  {
  }

  lemma TailReady(cx: Context, e: Expr, kind: Kind, live: multiset<nat>, l1: multiset<nat>, env: PEnv, denv: DEnv,
      buf: Buffer, p: POut, d: DOut)
    requires e.Prim? && |e.args| > 0 && Ready(cx, e, live, env, denv, buf) &&
      Related(cx, kind, live, l1, env, buf, p, d) && p.PRet?
    ensures d.DRet? && ReadyAll(cx, e.args[1..], l1, env, denv, d.buf)
  {
    ReadyArgs(cx, e, live, env, denv, buf);
    ConsumeHolds(cx, kind, live, l1, env, denv, buf, p, d);
    hide Holds;
  }

  lemma ConsumeVals(cx: Context, op: Prim, kind: Kind, live: multiset<nat>, l1: multiset<nat>, l2: multiset<nat>,
      env: PEnv, buf: Buffer, p: POut, d: DOut, ps: PArgs, ds: DArgs)
    requires p.PRet? && Related(cx, kind, live, l1, env, buf, p, d) && d.DRet? && SameWords(l1, l2, env, d.buf, ps, ds)
    ensures SameVals(op, live, l2, env, buf, PCons(p.v, ps), DCons(d.v, ds))
  {
    if p.v.Num? && ps.PVals? {
      LeftTrans(live, l1, l2, env, buf, d.buf, ds.buf);
    }
  }

  lemma ConsumeHolds(cx: Context, kind: Kind, live: multiset<nat>, l1: multiset<nat>, env: PEnv, denv: DEnv,
      buf: Buffer, p: POut, d: DOut)
    requires Holds(cx, live, env, denv, buf) && Related(cx, kind, live, l1, env, buf, p, d) && p.PRet?
    ensures d.DRet? && Holds(cx, l1, env, denv, d.buf)
  {
    if p.v.Num? {
      HoldsLeft(cx, live, l1, env, denv, buf, d.buf);
    }
  }

  /** Back-edge operands from `i` on correspond. */
  ghost predicate SameNext(cx: Context, i: nat, live: multiset<nat>, buf: Buffer, p: PArgs, d: DArgs) {
    || (p == PStop(PTrap) && d == DStop(DTrap))
    || (p == PStop(PStuck) && d == DStop(DStuck))
    || (p.PVals? && d.DVals? && |p.vals| == |d.vals| && (live == multiset{} ==> d.buf == buf)
        && forall j :: 0 <= j < |p.vals| ==>
             if i + j == cx.position then p.vals[j] == Arr(d.buf) && d.vals[j] == Ref
             else p.vals[j].Num? && d.vals[j] == Word(p.vals[j].v))
  }

  lemma {:induction false} InPlaceNext(ops: Interp, cx: Context, st: State, e: Expr, i: nat, live: multiset<nat>,
      env: PEnv, denv: DEnv, buf: Buffer)
    requires e.Recur? && |e.args| == cx.arity && i <= |e.args|
    requires WalkNext(cx, st, e, i).Accepted? && OwnNext(cx, e, i, live).Owned?
    requires ReadyAll(cx, e.args[i..], live, env, denv, buf)
    ensures SameNext(cx, i, live, buf, PEvalArgs(ops, e.args[i..], env), DEvalArgs(ops, e.args[i..], denv, buf))
    decreases e, 0, |e.args| - i
  {
    hide ReadyAll, Ready, Left, Own, Walk, PEval, DEval;
    if i < |e.args| {
      var args := e.args[i..];
      assert args[0] == e.args[i] && args[1..] == e.args[i + 1..];
      ReadyHead(cx, args, live, env, denv, buf);
      InPlace(ops, cx, st, args[0], i == cx.position, live, env, denv, buf);
      var o := Own(cx, args[0], live);
      var p, d := PEval(ops, args[0], env), DEval(ops, args[0], denv, buf);
      if p.PRet? {
        NextReady(cx, args, o.kind, live, o.live, env, denv, buf, p, d);
        InPlaceNext(ops, cx, Walk(cx, st, e.args[i], i == cx.position).st, e, i + 1, o.live, env, denv, d.buf);
        var ps, ds := PEvalArgs(ops, args[1..], env), DEvalArgs(ops, args[1..], denv, d.buf);
        NextCons(cx, i, live, o.live, o.kind, env, buf, p, d, ps, ds);
      }
    }
  }

  lemma NextReady(cx: Context, args: seq<Expr>, kind: Kind, live: multiset<nat>, l1: multiset<nat>, env: PEnv,
      denv: DEnv, buf: Buffer, p: POut, d: DOut)
    requires args != [] && ReadyAll(cx, args, live, env, denv, buf) && Related(cx, kind, live, l1, env, buf, p, d) &&
      p.PRet?
    ensures d.DRet? && ReadyAll(cx, args[1..], l1, env, denv, d.buf)
  {
    ConsumeHolds(cx, kind, live, l1, env, denv, buf, p, d);
    hide Holds;
  }

  lemma NextCons(cx: Context, i: nat, live: multiset<nat>, l1: multiset<nat>, kind: Kind, env: PEnv, buf: Buffer,
      p: POut, d: DOut, ps: PArgs, ds: DArgs)
    requires p.PRet? && d.DRet? && Related(cx, kind, live, l1, env, buf, p, d) && SameNext(cx, i + 1, l1, d.buf, ps, ds)
    requires (kind == ArrayKind) == (i == cx.position)
    ensures SameNext(cx, i, live, buf, PCons(p.v, ps), DCons(d.v, ds))
  {
    if ps.PVals? {
      var vs, ws := [p.v] + ps.vals, [d.v] + ds.vals;
      forall j | 0 <= j < |vs|
        ensures if i + j == cx.position then vs[j] == Arr(ds.buf) && ws[j] == Ref
                else vs[j].Num? && ws[j] == Word(vs[j].v)
      {
        if j > 0 { assert (i + 1) + (j - 1) == i + j && vs[j] == ps.vals[j - 1] && ws[j] == ds.vals[j - 1]; }
      }
    }
  }

  // ----- whole loops -----

  datatype PFinal = PDone(o: POut) | PMore
  datatype DFinal = DDone(o: DOut) | DMore

  /** At most `fuel + 1` iterations, each update copying the array. */
  function PLoop(ops: Interp, params: seq<nat>, body: Expr, vals: seq<PVal>, fuel: nat): PFinal
    requires |vals| == |params|
    decreases fuel
  {
    var o := PEval(ops, body, Bind(params, vals));
    if o.PBack? && |o.vals| == |params| then (if fuel == 0 then PMore else PLoop(ops, params, body, o.vals, fuel - 1))
    else PDone(o)
  }

  /** The same iterations, each update writing the one buffer. */
  function DLoop(ops: Interp, params: seq<nat>, body: Expr, vals: seq<DVal>, buf: Buffer, fuel: nat): DFinal
    requires |vals| == |params|
    decreases fuel
  {
    var o := DEval(ops, body, Bind(params, vals), buf);
    if o.DBack? && |o.vals| == |params| then (if fuel == 0 then DMore
        else DLoop(ops, params, body, o.vals, o.buf, fuel - 1))
    else DDone(o)
  }

  /** Loop values: the array in its position, scalars elsewhere. */
  ghost predicate Entry(cx: Context, vals: seq<PVal>) {
    && |vals| == cx.arity && cx.position < cx.arity
    && forall i :: 0 <= i < |vals| ==> if i == cx.position then vals[i].Arr? else vals[i].Num?
  }

  function Shared(cx: Context, vals: seq<PVal>): (r: seq<DVal>)
    ensures |r| == |vals|
    ensures forall i :: 0 <= i < |vals| ==> r[i] == if vals[i].Arr? then Ref else Word(vals[i].v)
  {
    seq(|vals|, i requires 0 <= i < |vals| => if vals[i].Arr? then Ref else Word(vals[i].v))
  }

  /** Both runs end alike: same scalar, same final array, same abort, or neither ended. */
  ghost predicate SameFinal(p: PFinal, d: DFinal) {
    match p
    case PMore => d == DMore
    case PDone(PTrap) => d == DDone(DTrap)
    case PDone(PStuck) => d == DDone(DStuck)
    case PDone(PRet(Num(v))) => d.DDone? && d.o.DRet? && d.o.v == Word(v)
    case PDone(PRet(Arr(elems))) => d == DDone(DRet(Ref, elems))
    case PDone(PBack(_)) => false
  }

  function ContextOf(params: seq<nat>, types: Types, ty: NodeTy): Context
    requires |ArrayParams(params, types)| == 1
  {
    Context(types, ty, ArrayParams(params, types)[0], |params|)
  }

  /** A loop the plan accepts, as lowering hands it over: every local bound once, and the
      single reference to the incoming array used linearly. */
  ghost predicate Planned(params: seq<nat>, body: Expr, types: Types, ty: NodeTy) {
    && PlanOf(params, body, types, ty).Some?
    && Distinct(params) && BoundOnce(body) && Binders(body) !! ParamSet(params)
    && Own(ContextOf(params, types, ty), body, multiset{PlanOf(params, body, types, ty).value.root}).Owned?
  }

  lemma {:induction false} ArrayParamsAt(params: seq<nat>, types: Types)
    ensures forall k :: 0 <= k < |ArrayParams(params, types)| ==>
      ArrayParams(params, types)[k] < |params| && IsArrayLocal(types, params[ArrayParams(params, types)[k]])
    ensures forall i :: 0 <= i < |params| && IsArrayLocal(types, params[i]) ==> i in ArrayParams(params, types)
  {
    if params != [] {
      var n := |params| - 1;
      ArrayParamsAt(params[..n], types);
      forall i | 0 <= i < |params| && IsArrayLocal(types, params[i]) ensures i in ArrayParams(params, types) {
        if i < n { assert params[..n][i] == params[i]; }
      }
    }
  }

  lemma EntryHolds(params: seq<nat>, body: Expr, types: Types, ty: NodeTy, vals: seq<PVal>)
    requires Planned(params, body, types, ty) && Entry(ContextOf(params, types, ty), vals)
    ensures var cx := ContextOf(params, types, ty); var root := PlanOf(params, body, types, ty).value.root;
      Ready(cx, body, multiset{root}, Bind(params, vals), Bind(params, Shared(cx, vals)), vals[cx.position].elems)
  {
    var cx := ContextOf(params, types, ty);
    var root := PlanOf(params, body, types, ty).value.root;
    hide Own, Walk, BoundOnce, Binders;
    ArrayParamsAt(params, types);
    hide ArrayParams;
    BindValues(params, vals);
    BindValues(params, Shared(cx, vals));
    var env, denv := Bind(params, vals), Bind(params, Shared(cx, vals));
    hide Bind;
    assert params[cx.position] == root;
    forall x | x in env
      ensures if IsArrayLocal(types, x) then env[x].Arr? && denv[x] == Ref else env[x].Num? && denv[x] == Word(env[x].v)
    {
      var i :| 0 <= i < |params| && params[i] == x;
      assert IsArrayLocal(types, params[i]) <==> i == cx.position;
    }
  }

  /** One iteration, from loop values to an exit or to the next loop values. */
  lemma IterationInPlace(ops: Interp, params: seq<nat>, body: Expr, types: Types, ty: NodeTy, vals: seq<PVal>)
    requires Planned(params, body, types, ty) && Entry(ContextOf(params, types, ty), vals)
    ensures var cx := ContextOf(params, types, ty);
      var p := PEval(ops, body, Bind(params, vals));
      var d := DEval(ops, body, Bind(params, Shared(cx, vals)), vals[cx.position].elems);
      if p.PBack? then Entry(cx, p.vals) && d == DBack(Shared(cx, p.vals), p.vals[cx.position].elems)
      else SameFinal(PDone(p), DDone(d)) && !d.DBack?
  {
    var cx := ContextOf(params, types, ty);
    var root := PlanOf(params, body, types, ty).value.root;
    var buf := vals[cx.position].elems;
    var env, denv := Bind(params, vals), Bind(params, Shared(cx, vals));
    EntryHolds(params, body, types, ty, vals);
    hide Own, Walk, Ready, PEval, DEval, ArrayParams, Bind;
    InPlace(ops, cx, State({root}, 0, WALK_BUDGET), body, true, multiset{root}, env, denv, buf);
    var p, d := PEval(ops, body, env), DEval(ops, body, denv, buf);
    if p.PBack? {
      assert Shared(cx, p.vals) == d.vals;
    }
  }

  /** Any number of iterations of an accepted loop give the same scalars and the same
      final array whether updates copy or write the one buffer. */
  lemma {:induction false} UpdatingInPlacePreservesRuns(ops: Interp, params: seq<nat>, body: Expr, types: Types,
      ty: NodeTy, vals: seq<PVal>, fuel: nat)
    requires Planned(params, body, types, ty) && Entry(ContextOf(params, types, ty), vals)
    ensures var cx := ContextOf(params, types, ty);
      SameFinal(PLoop(ops, params, body, vals, fuel),
        DLoop(ops, params, body, Shared(cx, vals), vals[cx.position].elems, fuel))
    decreases fuel
  {
    IterationInPlace(ops, params, body, types, ty, vals);
    hide Planned, PEval, DEval, ArrayParams, Bind;
    var p := PEval(ops, body, Bind(params, vals));
    if p.PBack? && fuel > 0 {
      UpdatingInPlacePreservesRuns(ops, params, body, types, ty, p.vals, fuel - 1);
    }
  }
}
