/** Deleting the bounds checks the engine proves: every run of the program without
    them is a run of the program with them, and no access goes out of bounds. */
module BoundsElision {
  import opened Primitives
  import opened BoundsFacts
  import opened BoundsEngine
  import opened BoundsRuns
  import opened BoundsRecords
  import opened Machine
  import opened DifferenceGraph

  /** Core in A-normal form, with nested lets and branches in any position. A call is
      known by the result signature inferred for its callee. */
  datatype Expr =
    | Simple(value: Value, checked: bool)
    | CallTo(sig: ResultSig, args: seq<Atom>)
    | Let(local: nat, bound: Expr, body: Expr)
    | LetMany(locals: seq<nat>, sig: ResultSig, args: seq<Atom>, body: Expr)
    | If(cond: Atom, thn: Expr, els: Expr)
    | Count(inner: Expr)

  datatype Outcome = Returns(v: Val, s: Store) | Trap | Undefined

  /** Operations whose inline check the code generator may delete. */
  predicate Elidable(v: Value) {
    match Uncounted(v)
    case Apply(op, args) => (op == ArrayGet || op == ArraySet) && |args| >= 2 && args[0].Var?
    case _ => false
  }

  function AccessArray(v: Value): nat
    requires Elidable(v)
  {
    Uncounted(v).args[0].local
  }

  function AccessIndex(v: Value): Atom
    requires Elidable(v)
  {
    Uncounted(v).args[1]
  }

  /** The operands are an array and an integer that is no index of it. */
  ghost predicate OutOfBounds(v: Value, s: Store) {
    var p := Uncounted(v);
    p.Apply? && ChecksIndex(p.op) &&
    exists vals :: AtomsYield(p.args, s, vals) && Indexed(vals) && !InBounds(vals)
  }

  /** Other reasons to stop: a zero divisor, an allocation that cannot be made, or
      anything an unmodelled operation does. */
  ghost predicate MayTrap(v: Value, s: Store) {
    var p := Uncounted(v);
    p.Unanalysed? || (p.Apply? && p.op != ArrayGet)
  }

  ghost predicate Runs(e: Expr, s: Store, o: Outcome) {
    match e
    case Simple(value, checked) =>
      || (o.Returns? && o.s == s && Yields(value, s, o.v))
      || (OutOfBounds(value, s) && o == if checked then Trap else Undefined)
      || (MayTrap(value, s) && o == Trap)
    case CallTo(sig, args) =>
      || o == Trap
      || (o.Returns? && o.s == s && ValOk(o.v) &&
          exists actual :: AtomsYield(args, s, actual) && ResultHolds(sig, actual, o.v))
    case Let(local, bound, body) =>
      exists b :: Runs(bound, s, b) &&
        if b.Returns? then local !in b.s && Runs(body, b.s[local := b.v], o) else o == b
    case LetMany(locals, sig, args, body) =>
      || o == Trap
      || exists results :: ManyReturn(locals, sig, args, s, results) && Runs(body, BindMany(s, locals, results), o)
    case If(cond, thn, els) =>
      || (TakesBranch(cond, s, true) && Runs(thn, s, o))
      || (TakesBranch(cond, s, false) && Runs(els, s, o))
    case Count(inner) => Runs(inner, s, o)
  }

  ghost predicate TakesBranch(cond: Atom, s: Store, taken: bool) {
    cond.Var? ==> cond.local in s && s[cond.local] == BoolV(taken)
  }

  ghost predicate ManyReturn(locals: seq<nat>, sig: ResultSig, args: seq<Atom>, s: Store, results: seq<Val>) {
    && |results| == |locals| <= WHOLE
    && (forall i :: 0 <= i < |locals| ==> locals[i] !in s && ValOk(results[i]))
    && (forall i, j :: 0 <= i < j < |locals| ==> locals[i] != locals[j])
    && exists actual :: AtomsYield(args, s, actual) && ResultHolds(sig, actual, TupleV(results))
  }

  function BindMany(s: Store, locals: seq<nat>, results: seq<Val>): Store
    requires |locals| == |results|
    decreases |locals|
  {
    if locals == [] then s
    else
      var n := |locals| - 1;
      BindMany(s, locals[..n], results[..n])[locals[n] := results[n]]
  }

  lemma {:induction false} BindManyBinds(s: Store, locals: seq<nat>, results: seq<Val>)
    requires |locals| == |results|
    requires forall i :: 0 <= i < |locals| ==> locals[i] !in s && ValOk(results[i])
    requires forall i, j :: 0 <= i < j < |locals| ==> locals[i] != locals[j]
    requires StoreOk(s)
    ensures var t := BindMany(s, locals, results);
      BindsAll(t, locals, results) && Extends(s, t) && StoreOk(t)
    ensures forall l :: l in BindMany(s, locals, results) ==> l in s || l in locals
    decreases |locals|
  {
    if locals != [] {
      var n := |locals| - 1;
      var rest := BindMany(s, locals[..n], results[..n]);
      BindManyBinds(s, locals[..n], results[..n]);
      var t := BindMany(s, locals, results);
      assert locals[n] !in rest;
      forall i | 0 <= i < |locals| ensures locals[i] in t && t[locals[i]] == results[i] {
        if i < n { assert locals[..n][i] == locals[i] && results[..n][i] == results[i]; }
      }
    }
  }

  /** Every access still carries its check. */
  predicate Checked(e: Expr) {
    match e
    case Simple(_, checked) => checked
    case CallTo(_, _) => true
    case Let(_, bound, body) => Checked(bound) && Checked(body)
    case LetMany(_, _, _, body) => Checked(body)
    case If(_, thn, els) => Checked(thn) && Checked(els)
    case Count(inner) => Checked(inner)
  }

  function Peel(e: Expr): Expr {
    match e
    case Count(inner) => Peel(inner)
    case _ => e
  }

  /** The facts after binding a value: a call with facts instantiates them. */
  ghost function BindFacts(f: Facts, local: nat, bound: Expr): Facts {
    match Peel(bound)
    case Simple(value, _) => TransferLet(f, local, value)
    case CallTo(sig, args) => if sig == [] then f else TransferCall(f, local, sig, args)
    case _ => f
  }

  /** `g` is what the engine makes of `want`, which it computes exactly unless the
      facts contradict each other, as they do only where no run arrives. */
  ghost predicate Computed(want: Facts, g: Facts) {
    Consistent(want) ==> g == want
  }

  /** `e2` is `e` with the checks deleted that `f` proves, and `g` the facts after it. */
  ghost predicate Elided(e: Expr, f: Facts, e2: Expr, g: Facts) {
    match e
    case Simple(value, checked) =>
      && g == f && e2.Simple? && e2.value == value
      && (e2.checked != checked ==> checked && Elidable(value) && IndexKnown(f, AccessArray(value), AccessIndex(value)))
      && (Consistent(f) && Elidable(value) && IndexKnown(f, AccessArray(value), AccessIndex(value)) ==> !e2.checked)
    case CallTo(_, _) => g == f && e2 == e
    case Let(local, bound, body) =>
      && e2.Let? && e2.local == local
      && exists m, n ::
           Elided(bound, f, e2.bound, m) && Computed(BindFacts(m, local, bound), n) && Elided(body, n, e2.body, g)
    case LetMany(locals, sig, args, body) =>
      && e2.LetMany? && e2.locals == locals && e2.sig == sig && e2.args == args
      && Elided(body, TransferMany(f, locals, sig, ArgLocals(args)), e2.body, g)
    case If(cond, thn, els) =>
      && g == f && e2.If? && e2.cond == cond
      && (exists m, n :: Computed(Refine(f, cond, true), m) && Elided(thn, m, e2.thn, n))
      && (exists m, n :: Computed(Refine(f, cond, false), m) && Elided(els, m, e2.els, n))
    case Count(inner) => e2.Count? && Elided(inner, f, e2.inner, g)
  }

  // ----- runs keep the facts true -----

  ghost predicate KeepsFacts(s: Store, g: Facts, o: Outcome) {
    o.Returns? ==> Models(o.s, g) && Extends(s, o.s) && ValOk(o.v)
  }

  /** The value a run of `bound` returned justifies the facts about its local. */
  lemma BindFactsSound(s: Store, f: Facts, local: nat, bound: Expr, start: Store, v: Val)
    requires Models(s, f) && local !in s && ValOk(v)
    requires Runs(bound, start, Returns(v, s))
    ensures Models(s[local := v], BindFacts(f, local, bound))
    decreases bound
  {
    hide Models, TransferLet, TransferCall, Yields, OutOfBounds, MayTrap;
    match bound
    case Simple(value, _) => TransferLetSound(s, f, local, value, v);
    case CallTo(sig, args) =>
      var actual :| AtomsYield(args, s, actual) && ResultHolds(sig, actual, v);
      if sig == [] {
        BindModels(s, f, local, v);
      } else {
        TransferCallSound(s, f, local, sig, args, actual, v);
      }
    case Count(inner) => BindFactsSound(s, f, local, inner, start, v);
    case _ => BindModels(s, f, local, v);
  }

  lemma ComputedModels(s: Store, want: Facts, g: Facts)
    requires Models(s, want) && Computed(want, g)
    ensures Models(s, g)
  {
    ModelsConsistent(s, want);
  }

  /** Deleting one proved check: the access cannot be out of bounds. */
  lemma AccessInBounds(f: Facts, s: Store, value: Value)
    requires Models(s, f) && Elidable(value) && IndexKnown(f, AccessArray(value), AccessIndex(value))
    ensures !OutOfBounds(value, s)
  {
    var p := Uncounted(value);
    forall vals | AtomsYield(p.args, s, vals) && Indexed(vals) ensures InBounds(vals) {
      OperandValue(s, p.args, vals, 0);
      OperandValue(s, p.args, vals, 1);
      IndexSound(s, f, p.args[0].local, p.args[1]);
    }
  }

  /** The elided program has exactly the runs of the original one from every store
      the facts describe, and the facts it ends with describe every store it ends in. */
  lemma {:induction false} ElisionPreservesRuns(e: Expr, f: Facts, e2: Expr, g: Facts, s: Store, o: Outcome)
    requires Elided(e, f, e2, g) && Models(s, f)
    ensures Runs(e, s, o) <==> Runs(e2, s, o)
    ensures Runs(e, s, o) ==> KeepsFacts(s, g, o)
    decreases e, 2
  {
    match e
    case Simple(value, checked) =>
      hide Models, IndexKnown, OutOfBounds, MayTrap;
      if e2.checked != checked {
        AccessInBounds(f, s, value);
      }
    case CallTo(_, _) =>
    case Let(_, _, _) => ElisionLet(e, f, e2, g, s, o);
    case LetMany(locals, sig, args, body) => ElisionMany(e, f, e2, g, s, o);
    case If(_, _, _) => ElisionIf(e, f, e2, g, s, o);
    case Count(inner) => ElisionPreservesRuns(inner, f, e2.inner, g, s, o);
  }

  lemma {:induction false} ElisionLet(e: Expr, f: Facts, e2: Expr, g: Facts, s: Store, o: Outcome)
    requires e.Let? && Elided(e, f, e2, g) && Models(s, f)
    ensures Runs(e, s, o) <==> Runs(e2, s, o)
    ensures Runs(e, s, o) ==> KeepsFacts(s, g, o)
    decreases e, 1
  {
    hide Models, BindFacts, Computed;
    var m, n :| Elided(e.bound, f, e2.bound, m) && Computed(BindFacts(m, e.local, e.bound), n) &&
        Elided(e.body, n, e2.body, g);
    forall b | Runs(e.bound, s, b) || Runs(e2.bound, s, b)
      ensures Runs(e.bound, s, b) && Runs(e2.bound, s, b) && KeepsFacts(s, m, b)
    {
      ElisionPreservesRuns(e.bound, f, e2.bound, m, s, b);
    }
    forall b | Runs(e.bound, s, b) && b.Returns? && e.local !in b.s
      ensures Runs(e.body, b.s[e.local := b.v], o) <==> Runs(e2.body, b.s[e.local := b.v], o)
      ensures Runs(e.body, b.s[e.local := b.v], o) ==> KeepsFacts(s, g, o)
    {
      ElisionBody(e, m, n, e2, g, s, b, o);
    }
  }

  lemma {:induction false} ElisionBody(e: Expr, m: Facts, n: Facts, e2: Expr, g: Facts, s: Store, b: Outcome,
      o: Outcome)
    requires e.Let? && e2.Let? && Computed(BindFacts(m, e.local, e.bound), n) && Elided(e.body, n, e2.body, g)
    requires Runs(e.bound, s, b) && b.Returns? && e.local !in b.s && KeepsFacts(s, m, b)
    ensures Runs(e.body, b.s[e.local := b.v], o) <==> Runs(e2.body, b.s[e.local := b.v], o)
    ensures Runs(e.body, b.s[e.local := b.v], o) ==> KeepsFacts(s, g, o)
    decreases e, 0
  {
    hide Models, BindFacts, Computed, Elided, Runs;
    var t := b.s[e.local := b.v];
    BindFactsSound(b.s, m, e.local, e.bound, s, b.v);
    ComputedModels(t, BindFacts(m, e.local, e.bound), n);
    ElisionPreservesRuns(e.body, n, e2.body, g, t, o);
  }

  lemma ManyShape(e: Expr, f: Facts, e2: Expr, g: Facts)
    requires e.LetMany? && Elided(e, f, e2, g)
    ensures e2.LetMany? && e2.locals == e.locals && e2.sig == e.sig && e2.args == e.args
    ensures Elided(e.body, TransferMany(f, e.locals, e.sig, ArgLocals(e.args)), e2.body, g)
  {
  }

  lemma TrapKeeps(s: Store, g: Facts)
    ensures KeepsFacts(s, g, Trap)
  {
  }

  /** What a call returned, bound to several locals, justifies the facts about them. */
  lemma ManyModels(s: Store, f: Facts, locals: seq<nat>, sig: ResultSig, args: seq<Atom>, results: seq<Val>)
    requires Models(s, f) && ManyReturn(locals, sig, args, s, results)
    ensures var t := BindMany(s, locals, results);
      Models(t, TransferMany(f, locals, sig, ArgLocals(args))) && Extends(s, t)
  {
    var actual :| AtomsYield(args, s, actual) && ResultHolds(sig, actual, TupleV(results));
    var t := BindMany(s, locals, results);
    hide EdgesHold, CondsHold, SubsHold, CallsHold, TransferMany, ResultHolds, AtomsYield;
    BindManyBinds(s, locals, results);
    ExtendModels(s, t, f);
    AtomsExtend(s, t, args, actual);
    ArgsMatch(t, args, actual);
    TransferManySound(t, f, locals, sig, ArgLocals(args), actual, results);
  }

  lemma {:induction false} ElisionResults(e: Expr, f: Facts, e2: Expr, g: Facts, s: Store, results: seq<Val>,
      o: Outcome)
    requires e.LetMany? && e2.LetMany? && Models(s, f) && ManyReturn(e.locals, e.sig, e.args, s, results)
    requires Elided(e.body, TransferMany(f, e.locals, e.sig, ArgLocals(e.args)), e2.body, g)
    ensures |results| == |e.locals|
    ensures var t := BindMany(s, e.locals, results);
      (Runs(e.body, t, o) <==> Runs(e2.body, t, o)) && (Runs(e.body, t, o) ==> KeepsFacts(s, g, o))
    decreases e, 0
  {
    hide Models, TransferMany, BindMany, Elided, Runs;
    ManyModels(s, f, e.locals, e.sig, e.args, results);
    ElisionPreservesRuns(e.body, TransferMany(f, e.locals, e.sig, ArgLocals(e.args)), e2.body, g,
      BindMany(s, e.locals, results), o);
  }

  lemma {:induction false} ElisionMany(e: Expr, f: Facts, e2: Expr, g: Facts, s: Store, o: Outcome)
    requires e.LetMany? && Elided(e, f, e2, g) && Models(s, f)
    ensures Runs(e, s, o) <==> Runs(e2, s, o)
    ensures Runs(e, s, o) ==> KeepsFacts(s, g, o)
    decreases e, 1
  {
    hide Models, TransferMany, BindMany, ManyReturn, KeepsFacts, Elided;
    ManyShape(e, f, e2, g);
    forall results | ManyReturn(e.locals, e.sig, e.args, s, results)
      ensures |results| == |e.locals|
      ensures var t := BindMany(s, e.locals, results);
        (Runs(e.body, t, o) <==> Runs(e2.body, t, o)) && (Runs(e.body, t, o) ==> KeepsFacts(s, g, o))
    {
      ElisionResults(e, f, e2, g, s, results, o);
    }
    TrapKeeps(s, g);
  }

  lemma {:induction false} ElisionIf(e: Expr, f: Facts, e2: Expr, g: Facts, s: Store, o: Outcome)
    requires e.If? && Elided(e, f, e2, g) && Models(s, f)
    ensures Runs(e, s, o) <==> Runs(e2, s, o)
    ensures Runs(e, s, o) ==> KeepsFacts(s, g, o)
    decreases e, 1
  {
    hide Models, Refine, Computed, KeepsFacts;
    var m, n :| Computed(Refine(f, e.cond, true), m) && Elided(e.thn, m, e2.thn, n);
    var p, q :| Computed(Refine(f, e.cond, false), p) && Elided(e.els, p, e2.els, q);
    if TakesBranch(e.cond, s, true) {
      ElisionBranch(e.cond, true, e.thn, f, m, e2.thn, n, s, o);
    }
    if TakesBranch(e.cond, s, false) {
      ElisionBranch(e.cond, false, e.els, f, p, e2.els, q, s, o);
    }
  }

  lemma EarlierFactsKept(s: Store, f: Facts, n: Facts, o: Outcome)
    requires Models(s, f) && KeepsFacts(s, n, o) && o.Returns?
    ensures KeepsFacts(s, f, o)
  {
    ExtendModels(s, o.s, f);
  }

  lemma {:induction false} ElisionBranch(cond: Atom, taken: bool, e: Expr, f: Facts, m: Facts, e2: Expr, n: Facts,
      s: Store, o: Outcome)
    requires Models(s, f) && TakesBranch(cond, s, taken)
    requires Computed(Refine(f, cond, taken), m) && Elided(e, m, e2, n)
    ensures Runs(e, s, o) <==> Runs(e2, s, o)
    ensures Runs(e, s, o) ==> KeepsFacts(s, f, o)
    decreases e, 3
  {
    hide Models, Refine, Computed, Elided, Runs;
    RefineSound(s, f, cond, taken);
    ComputedModels(s, Refine(f, cond, taken), m);
    ElisionPreservesRuns(e, m, e2, n, s, o);
    if Runs(e, s, o) && o.Returns? { EarlierFactsKept(s, f, n, o); }
  }

  /** A program that keeps its checks never reaches an undefined access. */
  lemma {:induction false} CheckedIsDefined(e: Expr, s: Store)
    requires Checked(e)
    ensures !Runs(e, s, Undefined)
  {
    match e
    case Simple(_, _) =>
    case CallTo(_, _) =>
    case Let(local, bound, body) =>
      CheckedIsDefined(bound, s);
      forall b | Runs(bound, s, b) && b.Returns? ensures !Runs(body, b.s[local := b.v], Undefined) {
        CheckedIsDefined(body, b.s[local := b.v]);
      }
    case LetMany(locals, sig, args, body) =>
      forall results | ManyReturn(locals, sig, args, s, results)
        ensures !Runs(body, BindMany(s, locals, results), Undefined) {
        CheckedIsDefined(body, BindMany(s, locals, results));
      }
    case If(cond, thn, els) =>
      CheckedIsDefined(thn, s);
      CheckedIsDefined(els, s);
    case Count(inner) => CheckedIsDefined(inner, s);
  }

  lemma EmptyModels(s: Store)
    requires StoreOk(s)
    ensures Models(s, NO_FACTS)
  {
  }

  /** A function body compiled from an entry signature: whenever the arguments satisfy
      the signature, on entry and at every back-edge alike, the body without the
      proved checks runs exactly as the body with all of them, and every access it
      makes is in bounds. */
  lemma CompiledBodyIsSafe(sig: BoundSig, params: seq<nat>, actual: seq<Val>, s: Store, e: Expr, e2: Expr,
      g: Facts, o: Outcome)
    requires StoreOk(s) && BindsParams(s, params, actual) && EntryHolds(sig, actual)
    requires Checked(e) && Elided(e, SeedEntry(NO_FACTS, sig, params), e2, g)
    ensures Runs(e2, s, o) <==> Runs(e, s, o)
    ensures !Runs(e2, s, Undefined)
    ensures Runs(e2, s, o) && o.Returns? ==> Models(o.s, g)
  {
    hide Models, Elided, Runs, SeedEntry;
    var f := SeedEntry(NO_FACTS, sig, params);
    EmptyModels(s);
    SeedEntrySound(s, NO_FACTS, sig, params, actual);
    ElisionPreservesRuns(e, f, e2, g, s, o);
    ElisionPreservesRuns(e, f, e2, g, s, Undefined);
    CheckedIsDefined(e, s);
  }

  // ----- the usual guard -----

  function Compute(local: nat, op: Prim, a: Atom, b: Atom, body: Expr): Expr {
    Let(local, Simple(Apply(op, [a, b]), true), body)
  }

  /** `let n = length a in if i >= 0 then if i < n then a[i] else ... else ...`. */
  function GuardedRead(a: nat, n: nat, i: nat, low: nat, high: nat, outside: Expr, below: Expr): Expr {
    Let(n, Simple(Apply(ArrayLength, [Var(a)]), true),
        Compute(low, IntGe, Var(i), Num(0),
                If(Var(low),
                   Compute(high, IntLt, Var(i), Var(n),
                           If(Var(high), Simple(Apply(ArrayGet, [Var(a), Var(i)]), true), outside)),
                   below)))
  }

  /** The read within both guards. */
  function InnerRead(e: Expr): Option<Expr> {
    match e
    case Let(_, _, Let(_, _, If(_, Let(_, _, If(_, read, _)), _))) => Some(read)
    case _ => None
  }

  lemma ElidedLet(local: nat, value: Value, body: Expr, f: Facts, e2: Expr, g: Facts) returns (n: Facts)
    requires Elided(Let(local, Simple(value, true), body), f, e2, g) && Consistent(TransferLet(f, local, value))
    ensures e2.Let? && n == TransferLet(f, local, value) && Elided(body, n, e2.body, g)
  {
    hide TransferLet, Consistent, IndexKnown;
    var bound := Simple(value, true);
    var m, n2 :| Elided(bound, f, e2.bound, m) && Computed(BindFacts(m, local, bound), n2) &&
      Elided(body, n2, e2.body, g);
    n := n2;
  }

  lemma ElidedThen(cond: Atom, thn: Expr, els: Expr, f: Facts, e2: Expr, g: Facts) returns (n: Facts)
    requires Elided(If(cond, thn, els), f, e2, g) && Consistent(Refine(f, cond, true))
    ensures e2.If? && Elided(thn, Refine(f, cond, true), e2.thn, n)
  {
    hide Refine, Consistent, IndexKnown;
    var m, n2 :| Computed(Refine(f, cond, true), m) && Elided(thn, m, e2.thn, n2);
    n := n2;
  }

  /** A comparison and the branch on it, walked in turn. */
  lemma ElidedGuard(cond: nat, op: Prim, a: Atom, b: Atom, thn: Expr, els: Expr, f: Facts, e2: Expr, g: Facts)
      returns (n: Facts)
    requires Elided(Compute(cond, op, a, b, If(Var(cond), thn, els)), f, e2, g)
    requires Consistent(TransferLet(f, cond, Apply(op, [a, b]))) && Consistent(Guarded(f, cond, op, a, b, true))
    ensures e2.Let? && e2.body.If? && Elided(thn, Guarded(f, cond, op, a, b, true), e2.body.thn, n)
  {
    hide TransferLet, Refine, Elided, Consistent;
    var m := ElidedLet(cond, Apply(op, [a, b]), If(Var(cond), thn, els), f, e2, g);
    n := ElidedThen(Var(cond), thn, els, m, e2.body, g);
  }

  /** The check of the guarded read is deleted, whenever the guards can be met at all. */
  lemma GuardedReadIsElided(f: Facts, a: nat, n: nat, i: nat, low: nat, high: nat, outside: Expr, below: Expr,
      e2: Expr, g: Facts, u: Term -> int)
    requires Elided(GuardedRead(a, n, i, low, high, outside, below), f, e2, g)
    requires !InsideGuards(f, a, n, i, low, high).poisoned
    requires Live(f, u) && u(Int(n)) == u(Len(a)) && 0 <= u(Int(i)) < u(Int(n))
    requires i in f.subs ==> u(Int(i)) == u(f.subs[i].0) - u(f.subs[i].1)
    ensures InnerRead(e2) == Some(Simple(Apply(ArrayGet, [Var(a), Var(i)]), false))
  {
    hide TransferLet, Refine, Elided, Consistent, Guarded, Live;
    var read := Simple(Apply(ArrayGet, [Var(a), Var(i)]), true);
    var f1 := TransferLet(f, n, Apply(ArrayLength, [Var(a)]));
    var f2 := Guarded(f1, low, IntGe, Var(i), Num(0), true);
    var f3 := Guarded(f2, high, IntLt, Var(i), Var(n), true);
    InsideStates(f, a, n, i, low, high, u);
    var m1 := ElidedLet(n, Apply(ArrayLength, [Var(a)]),
      Compute(low, IntGe, Var(i), Num(0),
              If(Var(low), Compute(high, IntLt, Var(i), Var(n), If(Var(high), read, outside)), below)), f, e2, g);
    var m2 := ElidedGuard(low, IntGe, Var(i), Num(0),
      Compute(high, IntLt, Var(i), Var(n), If(Var(high), read, outside)), below, f1, e2.body, g);
    var m3 := ElidedGuard(high, IntLt, Var(i), Var(n), read, outside, f2, e2.body.body.thn, m2);
    GuardedAccess(f, a, n, i, low, high, u);
    ReadElided(f3, a, i, e2.body.body.thn.body.thn, m3);
  }

  lemma ReadElided(f: Facts, a: nat, i: nat, e2: Expr, g: Facts)
    requires Elided(Simple(Apply(ArrayGet, [Var(a), Var(i)]), true), f, e2, g)
    requires Consistent(f) && IndexKnown(f, a, Var(i))
    ensures e2 == Simple(Apply(ArrayGet, [Var(a), Var(i)]), false)
  {
    hide IndexKnown, Consistent;
    var value := Apply(ArrayGet, [Var(a), Var(i)]);
    assert Elidable(value) && AccessArray(value) == a && AccessIndex(value) == Var(i);
  }

  // ----- the code generator's walk -----

  /** Walks an expression with one fact engine, deleting what it proves; the branches
      of a conditional start from copies. */
  method Elide(b: Bounds, e: Expr) returns (e2: Expr)
    requires b.Valid()
    modifies b
    ensures b.Valid() && Elided(e, old(b.State()), e2, b.State())
    decreases e, 0
  {
    hide TransferLet, Refine, TransferMany, TransferCall, Consistent, WellFormed, IndexKnown;
    match e
    case Simple(value, checked) =>
      var proven := false;
      if Elidable(value) {
        proven := b.IndexInBounds(AccessArray(value), AccessIndex(value));
      }
      e2 := Simple(value, checked && !proven);
    case CallTo(_, _) =>
      e2 := e;
    case Let(local, bound, body) =>
      var bound2 := Elide(b, bound);
      ghost var m := b.State();
      match Peel(bound) {
        case Simple(value, _) => b.TransferLet(local, value);
        case CallTo(sig, args) => if sig != [] { b.TransferCall(local, sig, args); }
        case _ =>
      }
      ghost var n := b.State();
      assert Computed(BindFacts(m, local, bound), n);
      var body2 := Elide(b, body);
      e2 := Let(local, bound2, body2);
    case LetMany(locals, sig, args, body) =>
      b.TransferMany(locals, sig, args);
      var body2 := Elide(b, body);
      e2 := LetMany(locals, sig, args, body2);
    case If(cond, thn, els) =>
      var thn2 := ElideBranch(b, cond, true, thn);
      var els2 := ElideBranch(b, cond, false, els);
      e2 := If(cond, thn2, els2);
    case Count(inner) =>
      var inner2 := Elide(b, inner);
      e2 := Count(inner2);
  }

  method ElideBranch(b: Bounds, cond: Atom, taken: bool, e: Expr) returns (e2: Expr)
    requires b.Valid()
    ensures exists m, n :: Computed(Refine(b.State(), cond, taken), m) && Elided(e, m, e2, n)
    decreases e, 1
  {
    hide Refine, Consistent, WellFormed, Elided;
    var branch := new Bounds.Clone(b);
    branch.Refine(cond, taken);
    ghost var m := branch.State();
    assert Computed(Refine(b.State(), cond, taken), m);
    e2 := Elide(branch, e);
  }
}
